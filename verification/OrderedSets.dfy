/** The lookups of an ordered set or map of addresses: upper_bound, one step back, and lower_bound. */
module OrderedSets {
  import opened Options

  lemma Any<T>(s: set<T>) returns (x: T)
    requires s != {}
    ensures x in s
  {
    if !exists y :: y in s { assert false; }
    x :| x in s;
  }

  lemma {:induction false} Greatest(s: set<int>, x: int) returns (m: int)
    requires x in s
    ensures m in s && forall a :: a in s ==> a <= m
    decreases s
  {
    m := x;
    if y :| y in s && y > x {
      m := Greatest(s - {x}, y);
      assert forall a :: a in s ==> a == x || a in s - {x};
    }
  }

  lemma {:induction false} Least(s: set<int>, x: int) returns (m: int)
    requires x in s
    ensures m in s && forall a :: a in s ==> m <= a
    decreases s
  {
    m := x;
    if y :| y in s && y < x {
      m := Least(s - {x}, y);
      assert forall a :: a in s ==> a == x || a in s - {x};
    }
  }

  /** k is the element that upper_bound(x) points behind. */
  ghost predicate IsLastNotAbove(s: set<int>, k: int, x: int) {
    k in s && k <= x && forall a :: a in s && a <= x ==> a <= k
  }

  ghost predicate IsFirstNotBelow(s: set<int>, k: int, x: int) {
    k in s && k >= x && forall a :: a in s && a >= x ==> a >= k
  }

  method LastNotAbove(s: set<int>, x: int) returns (found: Option<int>)
    ensures found == None ==> forall a :: a in s ==> a > x
    ensures found.Some? ==> IsLastNotAbove(s, found.value, x)
  {
    var below := set a | a in s && a <= x;
    assert forall a :: a in s && a <= x ==> a in below;
    if below == {} { return None; }
    ghost var some := Any(below);
    ghost var g := Greatest(below, some);
    var m :| m in below && forall a :: a in below ==> a <= m;
    return Some(m);
  }

  method FirstNotBelow(s: set<int>, x: int) returns (found: Option<int>)
    ensures found == None ==> forall a :: a in s ==> a < x
    ensures found.Some? ==> IsFirstNotBelow(s, found.value, x)
  {
    var above := set a | a in s && a >= x;
    assert forall a :: a in s && a >= x ==> a in above;
    if above == {} { return None; }
    ghost var some := Any(above);
    ghost var l := Least(above, some);
    var m :| m in above && forall a :: a in above ==> a >= m;
    return Some(m);
  }

  /** begin() */
  method First(s: set<int>) returns (found: Option<int>)
    ensures found == None ==> s == {}
    ensures found.Some? ==> found.value in s && forall a :: a in s ==> found.value <= a
  {
    if s == {} { return None; }
    ghost var some := Any(s);
    ghost var l := Least(s, some);
    var k :| k in s && forall a :: a in s ==> a >= k;
    return Some(k);
  }
}
