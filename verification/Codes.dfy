/** Strings that are written one after the other, none of them the start of another. */
module Codes {

  function Flat<T, B>(f: T -> seq<B>, ts: seq<T>): seq<B> {
    if ts == [] then [] else f(ts[0]) + Flat(f, ts[1..])
  }

  lemma Assoc<B>(a: seq<B>, b: seq<B>, c: seq<B>)
    ensures a + (b + c) == (a + b) + c
  {
  }

  lemma {:induction false} FlatConcat<T, B>(f: T -> seq<B>, a: seq<T>, b: seq<T>)
    ensures Flat(f, a + b) == Flat(f, a) + Flat(f, b)
  {
    if a == [] {
      assert a + b == b;
    } else {
      FlatConcat(f, a[1..], b);
      assert (a + b)[1..] == a[1..] + b;
      Assoc(f(a[0]), Flat(f, a[1..]), Flat(f, b));
    }
  }

  lemma FlatAppend<T, B>(f: T -> seq<B>, a: seq<T>, t: T)
    ensures Flat(f, a + [t]) == Flat(f, a) + f(t)
  {
    FlatConcat(f, a, [t]);
    assert Flat(f, [t]) == f(t) + Flat(f, [t][1..]);
  }

  lemma Comparable<B>(a: seq<B>, x: seq<B>, b: seq<B>, y: seq<B>)
    requires a + x == b + y
    ensures a <= b || b <= a
  {
    if |a| <= |b| {
      assert (a + x)[..|a|] == a && (b + y)[..|a|] == b[..|a|];
    } else {
      assert (a + x)[..|b|] == a[..|b|] && (b + y)[..|b|] == b;
    }
  }

  lemma SameTail<B>(a: seq<B>, x: seq<B>, y: seq<B>)
    requires a + x == a + y
    ensures x == y
  {
    assert (a + x)[|a|..] == x && (a + y)[|a|..] == y;
  }

  lemma PrefixCons<T>(a: seq<T>, b: seq<T>)
    requires a != [] && b != [] && a[0] == b[0] && a[1..] <= b[1..]
    ensures a <= b && (a[1..] == b[1..] ==> a == b)
    ensures b[1..][|a[1..]|..] == b[|a|..]
  {
    assert a == [a[0]] + a[1..] && b == [b[0]] + b[1..];
  }

  /** A text of code words is cut in one way only, if no code word starts with another one. */
  lemma {:induction false} OneWay<T(!new), B>(f: T -> seq<B>, ds: seq<T>, got: seq<B>, rest: seq<B>, ts: seq<T>)
    requires forall a, b :: a in ds + ts && b in ds + ts && f(a) <= f(b) ==> a == b
    requires forall a :: a in ds + ts ==> f(a) != []
    requires forall a :: a in ts ==> !(f(a) <= got)
    requires Flat(f, ds) + got + rest == Flat(f, ts)
    ensures ds <= ts
    ensures rest == [] ==> ds == ts && got == []
    ensures got + rest == Flat(f, ts[|ds|..])
    ensures got + rest != [] ==> |ds| < |ts| && got < f(ts[|ds|])
    decreases |ds|
  {
    if ds == [] {
      assert Flat(f, ds) + got + rest == got + rest;
      if ts != [] {
        assert ts[0] in ts;
        Comparable(got, rest, f(ts[0]), Flat(f, ts[1..]));
      }
    } else {
      var after := Flat(f, ds[1..]) + got + rest;
      assert Flat(f, ds) + got + rest == f(ds[0]) + after;
      assert ds[0] in ds + ts;
      assert ts != [];
      Comparable(f(ds[0]), after, f(ts[0]), Flat(f, ts[1..]));
      assert ts[0] in ds + ts;
      SameTail(f(ds[0]), after, Flat(f, ts[1..]));
      OneWay(f, ds[1..], got, rest, ts[1..]);
      PrefixCons(ds, ts);
    }
  }
}
