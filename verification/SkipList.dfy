/** A skip list with forward pointers. */
module SkipList {

  class Node<V> {
    const key: int
    const value: V
    const level: nat
    const forward: array<Node?<V>>

    constructor (key: int, value: V, level: nat)
      ensures this.key == key && this.value == value && this.level == level
      ensures fresh(forward) && forward.Length == level + 1 && forall i :: 0 <= i <= level ==> forward[i] == null
    {
      this.key, this.value, this.level := key, value, level;
      forward := new Node?<V>[level + 1](_ => null);
    }
  }

  // ---------------------------------------------------------------- positions

  /** The first position from q on whose node takes part in level i, or the end. */
  function From<V>(o: seq<Node<V>>, q: nat, i: nat): (r: nat)
    requires q <= |o|
    ensures q <= r <= |o| && (r < |o| ==> o[r].level >= i)
    ensures forall x :: q <= x < r ==> o[x].level < i
    decreases |o| - q
  {
    if q == |o| || o[q].level >= i then q else From(o, q + 1, i)
  }

  lemma FromIs<V>(o: seq<Node<V>>, q: nat, i: nat, r: nat)
    requires q <= r <= |o| && (r < |o| ==> o[r].level >= i)
    requires forall x :: q <= x < r ==> o[x].level < i
    ensures From(o, q, i) == r
  {
  }

  function At<V>(o: seq<Node<V>>, q: nat): Node?<V> {
    if q < |o| then o[q] else null
  }

  /** The header comes first, the other nodes follow in the order of their keys. */
  ghost predicate Sorted<V>(o: seq<Node<V>>) {
    |o| > 0 && forall p, q :: 1 <= p < q < |o| ==> o[p].key < o[q].key
  }

  /** o' is o with n at position pos. */
  ghost predicate Inserted<V>(o: seq<Node<V>>, pos: nat, n: Node<V>, o': seq<Node<V>>) {
    && pos <= |o| && |o'| == |o| + 1 && o'[pos] == n
    && (forall k :: 0 <= k < |o'| && k != pos ==> o'[k] == o[Unshifted(pos, k)])
  }

  /** o' is o with one node more, which has this key, value and level. */
  ghost predicate Gained<V>(o: seq<Node<V>>, o': seq<Node<V>>, key: int, value: V, level: nat) {
    exists pos: nat {:trigger Inserted(o, pos, o'[pos], o')} ::
      1 <= pos < |o'| && Inserted(o, pos, o'[pos], o') && o'[pos].key == key && o'[pos].value == value && o'[pos].level == level
  }

  /** o' is o without its node of this key. */
  ghost predicate Lost<V>(o: seq<Node<V>>, o': seq<Node<V>>, key: int) {
    exists pos: nat {:trigger Inserted(o', pos, o[pos], o)} ::
      1 <= pos < |o| && Inserted(o', pos, o[pos], o) && o[pos].key == key
  }

  /** The position after an insertion at pos. */
  function Shifted(pos: nat, q: nat): nat {
    if q < pos then q else q + 1
  }

  function Unshifted(pos: nat, k: nat): nat
    requires k != pos
  {
    if k < pos then k else k - 1
  }

  /** Where level i passes over position pos: the last node before it that takes part. */
  ghost predicate Passes<V>(o: seq<Node<V>>, pos: nat, i: nat, p: nat) {
    p < pos <= |o| && o[p].level >= i && From(o, p + 1, i) >= pos
  }

  lemma PassesOnce<V>(o: seq<Node<V>>, pos: nat, i: nat, p: nat, q: nat)
    requires Passes(o, pos, i, p) && q < |o| && q != p && o[q].level >= i
    ensures !(q < pos && From(o, q + 1, i) >= pos)
  {
  }

  /** Each node's next node in level i. */
  ghost predicate IsNext<V>(o: seq<Node<V>>, i: nat, k: nat, x: Node?<V>)
    requires k < |o|
  {
    x == At(o, From(o, k + 1, i))
  }

  lemma NextOfInserted<V>(o: seq<Node<V>>, pos: nat, n: Node<V>, o': seq<Node<V>>, p: nat, i: nat, x: Node?<V>)
    requires Inserted(o, pos, n, o') && Passes(o, pos, i, p) && IsNext(o, i, p, x)
    ensures IsNext(o', i, pos, x)
  {
    FromIs(o', pos + 1, i, From(o, p + 1, i) + 1);
  }

  lemma NextBehind<V>(o: seq<Node<V>>, pos: nat, n: Node<V>, o': seq<Node<V>>, i: nat, q: nat, x: Node?<V>)
    requires Inserted(o, pos, n, o') && pos <= q < |o| && IsNext(o, i, q, x)
    ensures IsNext(o', i, q + 1, x)
  {
    FromIs(o', q + 2, i, From(o, q + 1, i) + 1);
  }

  lemma NextBefore<V>(o: seq<Node<V>>, pos: nat, n: Node<V>, o': seq<Node<V>>, i: nat, q: nat, x: Node?<V>)
    requires Inserted(o, pos, n, o') && q < pos && IsNext(o, i, q, x)
    ensures IsNext(o', i, q, if From(o, q + 1, i) >= pos && n.level >= i then n else x)
  {
    var f := From(o, q + 1, i);
    FromIs(o', q + 1, i, if f < pos then f else if n.level >= i then pos else f + 1);
  }

  /** An insertion changes the next node in level i of one other node only. */
  lemma NextOfOther<V>(o: seq<Node<V>>, pos: nat, n: Node<V>, o': seq<Node<V>>, p: nat, i: nat, q: nat, x: Node?<V>)
    requires Inserted(o, pos, n, o') && Passes(o, pos, i, p) && n.level >= i
    requires q < |o| && o[q].level >= i && IsNext(o, i, q, x)
    ensures IsNext(o', i, Shifted(pos, q), if q == p then n else x)
  {
    if q != p { PassesOnce(o, pos, i, p, q); }
    if q < pos { NextBefore(o, pos, n, o', i, q, x); } else { NextBehind(o, pos, n, o', i, q, x); }
  }

  /** And none in the levels above the new node. */
  lemma NextAbove<V>(o: seq<Node<V>>, pos: nat, n: Node<V>, o': seq<Node<V>>, i: nat, q: nat, x: Node?<V>)
    requires Inserted(o, pos, n, o') && n.level < i && q < |o| && IsNext(o, i, q, x)
    ensures IsNext(o', i, Shifted(pos, q), x)
  {
    if q < pos { NextBefore(o, pos, n, o', i, q, x); } else { NextBehind(o, pos, n, o', i, q, x); }
  }

  /** next lists the next nodes of the nodes that take part in level i. */
  ghost predicate AreNexts<V>(o: seq<Node<V>>, i: nat, next: seq<Node?<V>>) {
    |next| == |o| && forall q {:trigger next[q]} :: 0 <= q < |o| && o[q].level >= i ==> IsNext(o, i, q, next[q])
  }

  /** n has been linked in at pos, behind the node at p. */
  ghost predicate LinkedIn<V>(next: seq<Node?<V>>, pos: nat, n: Node<V>, p: nat, next': seq<Node?<V>>) {
    && p < pos <= |next| && |next'| == |next| + 1 && next'[pos] == next[p]
    && forall k :: 0 <= k < |next'| && k != pos ==> next'[k] == if k == p then n else next[Unshifted(pos, k)]
  }

  lemma NextAt<V>(o: seq<Node<V>>, pos: nat, n: Node<V>, o': seq<Node<V>>, p: nat, i: nat, next: seq<Node?<V>>, k: nat, x: Node?<V>)
    requires Inserted(o, pos, n, o') && Passes(o, pos, i, p) && n.level >= i && AreNexts(o, i, next)
    requires k < |o'| && o'[k].level >= i
    requires x == if k == pos then next[p] else if k == p then n else next[Unshifted(pos, k)]
    ensures IsNext(o', i, k, x)
  {
    if k == pos {
      NextOfInserted(o, pos, n, o', p, i, x);
    } else {
      var q := Unshifted(pos, k);
      NextOfOther(o, pos, n, o', p, i, q, next[q]);
    }
  }

  lemma NextsInserted<V>(o: seq<Node<V>>, pos: nat, n: Node<V>, o': seq<Node<V>>, p: nat, i: nat,
                         next: seq<Node?<V>>, next': seq<Node?<V>>)
    requires Inserted(o, pos, n, o') && Passes(o, pos, i, p) && n.level >= i
    requires AreNexts(o, i, next) && LinkedIn(next, pos, n, p, next')
    ensures AreNexts(o', i, next')
  {
    forall k | 0 <= k < |o'| && o'[k].level >= i ensures IsNext(o', i, k, next'[k]) {
      NextAt(o, pos, n, o', p, i, next, k, next'[k]);
    }
  }

  // ------------------------------------------------------------ linked levels

  /** The arrays of forward pointers, each of one node. */
  ghost predicate Apart<V>(o: seq<Node<V>>, arrays: set<array<Node?<V>>>) {
    && (forall p :: 0 <= p < |o| ==> o[p].forward in arrays && o[p].forward.Length == o[p].level + 1)
    && (forall p, q :: 0 <= p < |o| && 0 <= q < |o| && p != q ==> o[p].forward != o[q].forward)
  }

  /** Level i links the nodes that take part in it as the list says. */
  ghost predicate Linked<V>(o: seq<Node<V>>, i: nat, next: seq<Node?<V>>, arrays: set<array<Node?<V>>>)
    reads arrays
  {
    |next| == |o| && forall p :: 0 <= p < |o| && o[p].level >= i ==>
      o[p].forward in arrays && i < o[p].forward.Length && o[p].forward[i] == next[p]
  }

  /** One level of an insertion. */
  method LinkIn<V>(ghost o: seq<Node<V>>, ghost next: seq<Node?<V>>, ghost pos: nat, n: Node<V>, ghost o': seq<Node<V>>,
                   ghost next': seq<Node?<V>>, u: Node<V>, ghost p: nat, i: nat, ghost arrays: set<array<Node?<V>>>)
    requires Inserted(o, pos, n, o') && LinkedIn(next, pos, n, p, next')
    requires p < pos && o[p] == u && u.level >= i && n.level >= i && n.forward.Length == n.level + 1
    requires Apart(o, arrays) && n.forward !in arrays && Linked(o, i, next, arrays)
    modifies u.forward, n.forward
    ensures Linked(o', i, next', arrays + {n.forward})
    ensures forall a, j :: a in arrays + {n.forward} && 0 <= j < a.Length && j != i ==> a[j] == old(a[j])
  {
    n.forward[i] := u.forward[i];
    u.forward[i] := n;
    forall q | 0 <= q < |o| && o[q].level >= i ensures o[q].forward[i] == if q == p then n else next[q] {
      assert q != p ==> o[q].forward != u.forward;
    }
    forall k | 0 <= k < |o'| && o'[k].level >= i
      ensures o'[k].forward in arrays + {n.forward} && i < o'[k].forward.Length && o'[k].forward[i] == next'[k]
    {
      if k != pos { assert o'[k] == o[Unshifted(pos, k)]; }
    }
  }

  /** The links of a level are kept; what stands at pos does not matter. */
  ghost predicate Kept<V>(next: seq<Node?<V>>, pos: nat, next': seq<Node?<V>>) {
    pos <= |next| && |next'| == |next| + 1 && forall k :: 0 <= k < |next'| && k != pos ==> next'[k] == next[Unshifted(pos, k)]
  }

  function Spliced<T>(s: seq<T>, pos: nat, x: T): (r: seq<T>)
    requires pos <= |s|
    ensures |r| == |s| + 1 && r[pos] == x && forall k :: 0 <= k < |r| && k != pos ==> r[k] == s[Unshifted(pos, k)]
  {
    s[..pos] + [x] + s[pos..]
  }

  /** The links of one level after the insertion of n. */
  function Relinked<V>(next: seq<Node?<V>>, pos: nat, n: Node<V>, p: nat, i: nat): (r: seq<Node?<V>>)
    requires i <= n.level ==> p < pos
    requires pos <= |next|
    ensures |r| == |next| + 1
    ensures i <= n.level ==> LinkedIn(next, pos, n, p, r)
    ensures i > n.level ==> Kept(next, pos, r)
  {
    if i <= n.level then Spliced(next[p := n], pos, next[p]) else Spliced(next, pos, null)
  }

  lemma NextsAbove<V>(o: seq<Node<V>>, pos: nat, n: Node<V>, o': seq<Node<V>>, i: nat,
                      next: seq<Node?<V>>, next': seq<Node?<V>>)
    requires Inserted(o, pos, n, o') && n.level < i && AreNexts(o, i, next)
    requires |next| == |o| && Kept(next, pos, next')
    ensures AreNexts(o', i, next')
  {
    forall k | 0 <= k < |o'| && o'[k].level >= i ensures IsNext(o', i, k, next'[k]) {
      var q := Unshifted(pos, k);
      NextAbove(o, pos, n, o', i, q, next[q]);
    }
  }

  lemma LinkedAbove<V>(o: seq<Node<V>>, pos: nat, n: Node<V>, o': seq<Node<V>>, i: nat,
                       next: seq<Node?<V>>, next': seq<Node?<V>>, arrays: set<array<Node?<V>>>)
    requires Inserted(o, pos, n, o') && n.level < i && Linked(o, i, next, arrays)
    requires |next| == |o| && Kept(next, pos, next')
    ensures Linked(o', i, next', arrays + {n.forward})
  {
    forall k | 0 <= k < |o'| && o'[k].level >= i
      ensures o'[k].forward in arrays + {n.forward} && i < o'[k].forward.Length && o'[k].forward[i] == next'[k]
    {
      assert o'[k] == o[Unshifted(pos, k)];
    }
  }

  /** An insertion of which the levels below i are done. */
  datatype Insertion<V> = Insertion(o: seq<Node<V>>, pos: nat, n: Node<V>, o': seq<Node<V>>, arrays: set<array<Node?<V>>>,
                                    nexts: seq<seq<Node?<V>>>, nexts': seq<seq<Node?<V>>>, path: seq<nat>)

  ghost predicate Planned<V>(s: Insertion<V>) {
    && Inserted(s.o, s.pos, s.n, s.o') && Apart(s.o, s.arrays) && s.n.forward !in s.arrays
    && s.n.forward.Length == s.n.level + 1 == |s.path| <= |s.nexts| == |s.nexts'|
    && (forall i :: 0 <= i <= s.n.level ==> Passes(s.o, s.pos, i, s.path[i]))
    && (forall i :: 0 <= i < |s.nexts| ==> |s.nexts[i]| == |s.o|)
    && (forall i :: 0 <= i <= s.n.level ==> LinkedIn(s.nexts[i], s.pos, s.n, s.path[i], s.nexts'[i]))
  }

  ghost predicate Partly<V>(s: Insertion<V>, i: nat)
    reads s.arrays, s.n.forward
    requires |s.nexts| == |s.nexts'|
  {
    && (forall j :: 0 <= j < i && j < |s.nexts| ==> Linked(s.o', j, s.nexts'[j], s.arrays + {s.n.forward}))
    && (forall j :: i <= j < |s.nexts| ==> Linked(s.o, j, s.nexts[j], s.arrays))
  }

  method LinkLevel<V>(ghost s: Insertion<V>, n: Node<V>, u: Node<V>, i: nat)
    requires Planned(s) && Partly(s, i) && i <= n.level && n == s.n && u == s.o[s.path[i]]
    modifies u.forward, n.forward
    ensures Partly(s, i + 1)
  {
    assert Linked(s.o, i, s.nexts[i], s.arrays) && LinkedIn(s.nexts[i], s.pos, s.n, s.path[i], s.nexts'[i]);
    LinkIn(s.o, s.nexts[i], s.pos, n, s.o', s.nexts'[i], u, s.path[i], i, s.arrays);
  }

  // ----------------------------------------------------------------- removing

  /** The links of one level when the node at pos is gone; p is the node before it in this level. */
  ghost predicate Unlinked<V>(next': seq<Node?<V>>, pos: nat, p: nat, next: seq<Node?<V>>) {
    && p < pos < |next'| == |next| + 1
    && forall q :: 0 <= q < |next| ==> next[q] == if q == p then next'[pos] else next'[Shifted(pos, q)]
  }

  ghost predicate KeptOut<V>(next': seq<Node?<V>>, pos: nat, next: seq<Node?<V>>) {
    pos < |next'| == |next| + 1 && forall q :: 0 <= q < |next| ==> next[q] == next'[Shifted(pos, q)]
  }

  function Dropped<V>(next': seq<Node?<V>>, pos: nat, p: nat, unlink: bool): (r: seq<Node?<V>>)
    requires pos < |next'| && (unlink ==> p < pos)
    ensures if unlink then Unlinked(next', pos, p, r) else KeptOut(next', pos, r)
  {
    seq(|next'| - 1, q requires 0 <= q < |next'| - 1 => if unlink && q == p then next'[pos] else next'[Shifted(pos, q)])
  }

  lemma PassesRemoved<V>(o: seq<Node<V>>, pos: nat, n: Node<V>, o': seq<Node<V>>, p: nat, i: nat)
    requires Inserted(o, pos, n, o') && Passes(o', pos, i, p) && pos <= |o|
    ensures Passes(o, pos, i, p)
  {
    assert forall x :: 0 <= x < pos ==> o'[x] == o[x];
  }

  lemma NextRemoved<V>(o: seq<Node<V>>, pos: nat, n: Node<V>, o': seq<Node<V>>, p: nat, i: nat,
                       next': seq<Node?<V>>, q: nat, x: Node?<V>)
    requires Inserted(o, pos, n, o') && pos <= |o| && Passes(o', pos, i, p) && n.level >= i && AreNexts(o', i, next')
    requires q < |o| && o[q].level >= i && x == if q == p then next'[pos] else next'[Shifted(pos, q)]
    ensures IsNext(o, i, q, x)
  {
    var y := At(o, From(o, q + 1, i));
    PassesRemoved(o, pos, n, o', p, i);
    if q == p {
      NextOfInserted(o, pos, n, o', p, i, y);
    } else {
      NextOfOther(o, pos, n, o', p, i, q, y);
    }
  }

  lemma NextsRemoved<V>(o: seq<Node<V>>, pos: nat, n: Node<V>, o': seq<Node<V>>, p: nat, i: nat,
                        next': seq<Node?<V>>, next: seq<Node?<V>>)
    requires Inserted(o, pos, n, o') && pos <= |o| && Passes(o', pos, i, p) && n.level >= i
    requires AreNexts(o', i, next') && Unlinked(next', pos, p, next)
    ensures AreNexts(o, i, next)
  {
    forall q | 0 <= q < |o| && o[q].level >= i ensures IsNext(o, i, q, next[q]) {
      NextRemoved(o, pos, n, o', p, i, next', q, next[q]);
    }
  }

  lemma NextsRemovedAbove<V>(o: seq<Node<V>>, pos: nat, n: Node<V>, o': seq<Node<V>>, i: nat,
                             next': seq<Node?<V>>, next: seq<Node?<V>>)
    requires Inserted(o, pos, n, o') && pos <= |o| && n.level < i && AreNexts(o', i, next') && KeptOut(next', pos, next)
    ensures AreNexts(o, i, next)
  {
    forall q | 0 <= q < |o| && o[q].level >= i ensures IsNext(o, i, q, next[q]) {
      NextAbove(o, pos, n, o', i, q, At(o, From(o, q + 1, i)));
      assert next[q] == next'[Shifted(pos, q)];
    }
  }

  /** One level of a removal. */
  method CutOut<V>(ghost o: seq<Node<V>>, ghost next: seq<Node?<V>>, ghost pos: nat, n: Node<V>, ghost o': seq<Node<V>>,
                   ghost next': seq<Node?<V>>, u: Node<V>, ghost p: nat, i: nat, ghost arrays: set<array<Node?<V>>>)
    requires Inserted(o, pos, n, o') && Unlinked(next', pos, p, next) && pos <= |o|
    requires o'[p] == u && u.level >= i && n.level >= i && Apart(o', arrays) && Linked(o', i, next', arrays)
    modifies u.forward
    ensures Linked(o, i, next, arrays)
    ensures forall a, j :: a in arrays && 0 <= j < a.Length && j != i ==> a[j] == old(a[j])
  {
    assert o'[pos] == n;
    u.forward[i] := n.forward[i];
    forall q | 0 <= q < |o| && o[q].level >= i
      ensures o[q].forward in arrays && i < o[q].forward.Length && o[q].forward[i] == next[q]
    {
      assert o[q] == o'[Shifted(pos, q)];
      assert q != p ==> o[q].forward != u.forward;
    }
  }

  /** The removal of the node at pos; o and nexts are what is left of o' and nexts'. */
  datatype Removal<V> = Removal(o': seq<Node<V>>, pos: nat, n: Node<V>, o: seq<Node<V>>, arrays: set<array<Node?<V>>>,
                                nexts': seq<seq<Node?<V>>>, nexts: seq<seq<Node?<V>>>, path: seq<nat>)

  ghost predicate PlannedCut<V>(s: Removal<V>) {
    && Inserted(s.o, s.pos, s.n, s.o') && s.pos <= |s.o| && Apart(s.o', s.arrays)
    && s.n.level < |s.path| <= |s.nexts| == |s.nexts'|
    && (forall i :: 0 <= i < |s.path| ==> Passes(s.o', s.pos, i, s.path[i]))
    && (forall i :: 0 <= i <= s.n.level ==> Unlinked(s.nexts'[i], s.pos, s.path[i], s.nexts[i]))
    && (forall i :: s.n.level < i < |s.nexts| ==> KeptOut(s.nexts'[i], s.pos, s.nexts[i]))
  }

  /** The levels below i are cut. */
  ghost predicate PartlyCut<V>(s: Removal<V>, i: nat)
    reads s.arrays
    requires |s.nexts| == |s.nexts'|
  {
    && (forall j :: 0 <= j < i && j < |s.nexts| ==> Linked(s.o, j, s.nexts[j], s.arrays))
    && (forall j :: i <= j < |s.nexts| ==> Linked(s.o', j, s.nexts'[j], s.arrays))
  }

  method CutLevel<V>(ghost s: Removal<V>, n: Node<V>, u: Node<V>, i: nat)
    requires PlannedCut(s) && PartlyCut(s, i) && i <= n.level && n == s.n && u == s.o'[s.path[i]]
    modifies u.forward
    ensures PartlyCut(s, i + 1)
  {
    assert Linked(s.o', i, s.nexts'[i], s.arrays) && Unlinked(s.nexts'[i], s.pos, s.path[i], s.nexts[i]);
    assert Passes(s.o', s.pos, i, s.path[i]);
    CutOut(s.o, s.nexts[i], s.pos, n, s.o', s.nexts'[i], u, s.path[i], i, s.arrays);
  }

  /** Behind the path of a level comes the node at pos exactly if it takes part in this level. */
  lemma NextIsTarget<V>(o: seq<Node<V>>, arrays: set<array<Node?<V>>>, pos: nat, i: nat, p: nat, x: Node?<V>)
    requires Apart(o, arrays) && Passes(o, pos, i, p) && pos < |o| && IsNext(o, i, p, x)
    ensures x == o[pos] <==> o[pos].level >= i
  {
    var f := From(o, p + 1, i);
    if f < |o| && f != pos { assert o[f].forward != o[pos].forward; }
  }

  /** Whether the next node of u in level i is the one to be removed. */
  method IsLinkedTo<V>(u: Node<V>, n: Node<V>, i: nat, ghost s: Removal<V>) returns (yes: bool)
    requires PlannedCut(s) && PartlyCut(s, i) && i < |s.path| && n == s.n && u == s.o'[s.path[i]]
    requires AreNexts(s.o', i, s.nexts'[i])
    ensures yes <==> i <= n.level
  {
    assert Passes(s.o', s.pos, i, s.path[i]) && Linked(s.o', i, s.nexts'[i], s.arrays);
    NextIsTarget(s.o', s.arrays, s.pos, i, s.path[i], s.nexts'[i][s.path[i]]);
    yes := u.forward[i] == n;
  }

  /** The levels above the node are as before. */
  lemma CutAbove<V>(s: Removal<V>)
    requires PlannedCut(s) && PartlyCut(s, s.n.level + 1)
    ensures forall i :: 0 <= i < |s.nexts| ==> Linked(s.o, i, s.nexts[i], s.arrays)
  {
    forall i | s.n.level < i < |s.nexts| ensures Linked(s.o, i, s.nexts[i], s.arrays) {
      assert KeptOut(s.nexts'[i], s.pos, s.nexts[i]) && Linked(s.o', i, s.nexts'[i], s.arrays);
      forall q | 0 <= q < |s.o| && s.o[q].level >= i
        ensures s.o[q].forward in s.arrays && i < s.o[q].forward.Length && s.o[q].forward[i] == s.nexts[i][q]
      {
        assert s.o[q] == s.o'[Shifted(s.pos, q)];
      }
    }
  }

  // ---------------------------------------------------------------- searching

  /** The node at p comes before the key, and the next one in level i does not. */
  ghost predicate Stops<V>(o: seq<Node<V>>, key: int, i: nat, p: nat) {
    && p < |o| && o[p].level >= i && (p == 0 || o[p].key < key)
    && (From(o, p + 1, i) < |o| ==> o[From(o, p + 1, i)].key >= key)
  }

  /** The position at which a node with the key is or belongs. */
  ghost predicate Belongs<V>(o: seq<Node<V>>, key: int, pos: nat) {
    && 1 <= pos <= |o| && (pos == 1 || o[pos - 1].key < key) && (pos < |o| ==> o[pos].key >= key)
  }

  /** The path says where the walk stops in the levels from i on. */
  ghost predicate StopsFrom<V>(o: seq<Node<V>>, key: int, i: nat, path: seq<nat>) {
    forall j :: i <= j < |path| ==> Stops(o, key, j, path[j])
  }

  lemma StopsMore<V>(o: seq<Node<V>>, key: int, i: nat, path: seq<nat>, p: nat)
    requires i < |path| && StopsFrom(o, key, i + 1, path) && Stops(o, key, i, p)
    ensures StopsFrom(o, key, i, path[i := p])
  {
  }

  lemma StopsAtBottom<V>(o: seq<Node<V>>, key: int, p: nat)
    requires Stops(o, key, 0, p)
    ensures Belongs(o, key, p + 1)
  {
    FromIs(o, p + 1, 0, p + 1);
  }

  lemma StopsPass<V>(o: seq<Node<V>>, key: int, i: nat, p: nat, pos: nat)
    requires Sorted(o) && Stops(o, key, i, p) && Belongs(o, key, pos)
    ensures Passes(o, pos, i, p)
  {
  }

  /** The nodes of the list are the entries of the map. */
  ghost predicate Represents<V>(o: seq<Node<V>>, m: map<int, V>) {
    && (forall p :: 1 <= p < |o| ==> o[p].key in m && m[o[p].key] == o[p].value)
    && (forall k :: k in m ==> exists p :: 1 <= p < |o| && o[p].key == k)
  }

  lemma BelongsDecides<V>(o: seq<Node<V>>, m: map<int, V>, key: int, pos: nat)
    requires Sorted(o) && Represents(o, m) && Belongs(o, key, pos)
    ensures key in m <==> pos < |o| && o[pos].key == key
  {
    if key in m {
      var p :| 1 <= p < |o| && o[p].key == key;
    }
  }

  /** The plan of an insertion behind the nodes of a path. */
  ghost function PlanOf<V>(o: seq<Node<V>>, arrays: set<array<Node?<V>>>, nexts: seq<seq<Node?<V>>>, n: Node<V>,
                           path: seq<nat>, pos: nat): (s: Insertion<V>)
    requires |path| == n.level + 1 <= |nexts| && pos <= |o|
    requires forall i :: 0 <= i <= n.level ==> Passes(o, pos, i, path[i])
    requires forall i :: 0 <= i < |nexts| ==> |nexts[i]| == |o|
    ensures Inserted(o, pos, n, s.o') && s.nexts == nexts && |s.nexts'| == |nexts|
    ensures s.o == o && s.pos == pos && s.n == n && s.arrays == arrays && s.path == path
    ensures forall i :: 0 <= i <= n.level ==> LinkedIn(nexts[i], pos, n, path[i], s.nexts'[i])
    ensures forall i :: n.level < i < |nexts| ==> Kept(nexts[i], pos, s.nexts'[i])
  {
    assert forall i :: 0 <= i <= n.level ==> path[i] < pos by {
      forall i | 0 <= i <= n.level ensures path[i] < pos { assert Passes(o, pos, i, path[i]); }
    }
    Insertion(o, pos, n, Spliced(o, pos, n), arrays, nexts,
              seq(|nexts|, i requires 0 <= i < |nexts| => Relinked(nexts[i], pos, n, if i <= n.level then path[i] else 0, i)),
              path)
  }

  lemma PlanIsSound<V>(o: seq<Node<V>>, nexts: seq<seq<Node?<V>>>, n: Node<V>, path: seq<nat>, pos: nat,
                       o': seq<Node<V>>, nexts': seq<seq<Node?<V>>>, i: nat)
    requires |path| == n.level + 1 <= |nexts| == |nexts'| && i < |nexts| && Inserted(o, pos, n, o')
    requires i <= n.level ==> Passes(o, pos, i, path[i]) && LinkedIn(nexts[i], pos, n, path[i], nexts'[i])
    requires i > n.level ==> Kept(nexts[i], pos, nexts'[i])
    requires AreNexts(o, i, nexts[i])
    ensures AreNexts(o', i, nexts'[i])
  {
    if i <= n.level {
      NextsInserted(o, pos, n, o', path[i], i, nexts[i], nexts'[i]);
    } else {
      NextsAbove(o, pos, n, o', i, nexts[i], nexts'[i]);
    }
  }

  lemma PlanAlong<V>(o: seq<Node<V>>, arrays: set<array<Node?<V>>>, nexts: seq<seq<Node?<V>>>, n: Node<V>, path: seq<nat>)
    returns (s: Insertion<V>)
    requires Sorted(o) && Apart(o, arrays) && n.forward !in arrays && n.forward.Length == n.level + 1
    requires |path| == n.level + 1 <= |nexts| && forall i :: 0 <= i < |nexts| ==> AreNexts(o, i, nexts[i])
    requires forall i :: 0 <= i <= n.level ==> Stops(o, n.key, i, path[i])
    ensures Planned(s) && s.o == o && s.n == n && s.arrays == arrays && s.path == path && s.nexts == nexts
    ensures Belongs(o, n.key, s.pos)
    ensures forall i :: 0 <= i < |nexts| ==> AreNexts(s.o', i, s.nexts'[i])
    ensures forall i :: n.level < i < |nexts| ==> Kept(s.nexts[i], s.pos, s.nexts'[i])
  {
    var pos := path[0] + 1;
    StopsAtBottom(o, n.key, path[0]);
    forall i | 0 <= i <= n.level ensures Passes(o, pos, i, path[i]) { StopsPass(o, n.key, i, path[i], pos); }
    s := PlanOf(o, arrays, nexts, n, path, pos);
    forall i | 0 <= i < |nexts| ensures AreNexts(s.o', i, s.nexts'[i]) {
      PlanIsSound(o, nexts, n, path, pos, s.o', s.nexts', i);
    }
  }

  /** The path of a walk, cut off or continued with the header. */
  lemma LongerPath<V>(o: seq<Node<V>>, key: int, level: nat, randomLevel: nat, path: seq<nat>) returns (path': seq<nat>)
    requires |o| > 0 && randomLevel <= o[0].level && |path| == level + 1
    requires forall p :: 1 <= p < |o| ==> o[p].level <= level
    requires forall i :: 0 <= i <= level ==> Stops(o, key, i, path[i])
    ensures |path'| == randomLevel + 1 && forall i :: 0 <= i <= randomLevel ==> Stops(o, key, i, path'[i])
    ensures forall i :: 0 <= i <= randomLevel ==> path'[i] == if i <= level then path[i] else 0
  {
    path' := seq(randomLevel + 1, i requires 0 <= i <= randomLevel => if i < |path| then path[i] else 0);
    forall i | 0 <= i <= randomLevel ensures Stops(o, key, i, path'[i]) {
      if i > level { FromIs(o, 1, i, |o|); }
    }
  }

  lemma SortedInserted<V>(o: seq<Node<V>>, pos: nat, n: Node<V>, o': seq<Node<V>>)
    requires Sorted(o) && Inserted(o, pos, n, o') && Belongs(o, n.key, pos) && (pos < |o| ==> o[pos].key != n.key)
    ensures Sorted(o') && o'[0] == o[0]
  {
  }

  lemma ApartInserted<V>(o: seq<Node<V>>, pos: nat, n: Node<V>, o': seq<Node<V>>, arrays: set<array<Node?<V>>>)
    requires Apart(o, arrays) && Inserted(o, pos, n, o') && n.forward !in arrays && n.forward.Length == n.level + 1
    ensures Apart(o', arrays + {n.forward})
  {
  }

  lemma RepresentsInserted<V>(o: seq<Node<V>>, pos: nat, n: Node<V>, o': seq<Node<V>>, m: map<int, V>)
    requires Represents(o, m) && Inserted(o, pos, n, o') && 1 <= pos && n.key !in m
    ensures Represents(o', m[n.key := n.value])
  {
    var m' := m[n.key := n.value];
    forall k | k in m' ensures exists p :: 1 <= p < |o'| && o'[p].key == k {
      if k == n.key {
        assert o'[pos].key == k;
      } else {
        var p :| 1 <= p < |o| && o[p].key == k;
        assert o'[Shifted(pos, p)].key == k;
      }
    }
  }

  lemma InsertedAll<V>(o: seq<Node<V>>, pos: nat, n: Node<V>, o': seq<Node<V>>, arrays: set<array<Node?<V>>>, m: map<int, V>, level: nat)
    requires Sorted(o) && Apart(o, arrays) && Represents(o, m) && Inserted(o, pos, n, o') && Belongs(o, n.key, pos)
    requires n.forward !in arrays && n.forward.Length == n.level + 1 && n.key !in m
    requires n.level <= level && forall p :: 1 <= p < |o| ==> o[p].level <= level
    ensures Sorted(o') && o'[0] == o[0] && Apart(o', arrays + {n.forward}) && Represents(o', m[n.key := n.value])
    ensures forall p :: 1 <= p < |o'| ==> o'[p].level <= level
  {
    BelongsDecides(o, m, n.key, pos);
    SortedInserted(o, pos, n, o');
    ApartInserted(o, pos, n, o', arrays);
    RepresentsInserted(o, pos, n, o', m);
  }

  ghost function CutPlanOf<V>(o': seq<Node<V>>, arrays: set<array<Node?<V>>>, nexts': seq<seq<Node?<V>>>, path: seq<nat>, pos: nat): (s: Removal<V>)
    requires pos < |o'| && o'[pos].level < |path| <= |nexts'|
    requires forall i :: 0 <= i < |path| ==> path[i] < pos
    requires forall i :: 0 <= i < |nexts'| ==> |nexts'[i]| == |o'|
    ensures s.o' == o' && s.pos == pos && s.n == o'[pos] && s.arrays == arrays && s.nexts' == nexts' && s.path == path
    ensures Inserted(s.o, pos, s.n, o') && pos <= |s.o| && |s.nexts| == |nexts'|
    ensures forall i :: 0 <= i <= s.n.level ==> Unlinked(nexts'[i], pos, path[i], s.nexts[i])
    ensures forall i :: s.n.level < i < |nexts'| ==> KeptOut(nexts'[i], pos, s.nexts[i])
  {
    var n := o'[pos];
    Removal(o', pos, n, o'[..pos] + o'[pos + 1..], arrays, nexts',
            seq(|nexts'|, i requires 0 <= i < |nexts'| => Dropped(nexts'[i], pos, if i <= n.level then path[i] else 0, i <= n.level)),
            path)
  }

  lemma CutAlong<V>(o': seq<Node<V>>, arrays: set<array<Node?<V>>>, nexts': seq<seq<Node?<V>>>, key: int, path: seq<nat>, pos: nat)
    returns (s: Removal<V>)
    requires Sorted(o') && Apart(o', arrays) && Belongs(o', key, pos) && pos < |o'| && o'[pos].level < |path| <= |nexts'|
    requires forall i :: 0 <= i < |nexts'| ==> AreNexts(o', i, nexts'[i])
    requires forall i :: 0 <= i < |path| ==> Stops(o', key, i, path[i])
    ensures PlannedCut(s) && s.o' == o' && s.pos == pos && s.n == o'[pos] && s.arrays == arrays && s.nexts' == nexts' && s.path == path
    ensures forall i :: 0 <= i < |nexts'| ==> AreNexts(s.o, i, s.nexts[i])
  {
    forall i | 0 <= i < |path| ensures Passes(o', pos, i, path[i]) && path[i] < pos { StopsPass(o', key, i, path[i], pos); }
    s := CutPlanOf(o', arrays, nexts', path, pos);
    forall i | 0 <= i < |nexts'| ensures AreNexts(s.o, i, s.nexts[i]) {
      if i <= s.n.level {
        NextsRemoved(s.o, pos, s.n, o', path[i], i, nexts'[i], s.nexts[i]);
      } else {
        NextsRemovedAbove(s.o, pos, s.n, o', i, nexts'[i], s.nexts[i]);
      }
    }
  }

  lemma RemovedAll<V>(o: seq<Node<V>>, pos: nat, n: Node<V>, o': seq<Node<V>>, arrays: set<array<Node?<V>>>, m: map<int, V>, level: nat)
    requires Sorted(o') && Apart(o', arrays) && Represents(o', m) && Inserted(o, pos, n, o') && 1 <= pos <= |o|
    requires forall p :: 1 <= p < |o'| ==> o'[p].level <= level
    ensures Sorted(o) && o'[0] == o[0] && Apart(o, arrays) && Represents(o, m - {n.key})
    ensures forall p :: 1 <= p < |o| ==> o[p].level <= level
  {
    SortedRemoved(o, pos, n, o');
    ApartRemoved(o, pos, n, o', arrays);
    RepresentsRemoved(o, pos, n, o', m);
    forall q | 1 <= q < |o| ensures o[q].level <= level { assert o[q] == o'[Shifted(pos, q)]; }
  }

  lemma SortedRemoved<V>(o: seq<Node<V>>, pos: nat, n: Node<V>, o': seq<Node<V>>)
    requires Sorted(o') && Inserted(o, pos, n, o') && 1 <= pos <= |o|
    ensures Sorted(o) && o'[0] == o[0]
  {
    forall p, q | 1 <= p < q < |o| ensures o[p].key < o[q].key {
      assert o[p] == o'[Shifted(pos, p)] && o[q] == o'[Shifted(pos, q)];
    }
  }

  lemma ApartRemoved<V>(o: seq<Node<V>>, pos: nat, n: Node<V>, o': seq<Node<V>>, arrays: set<array<Node?<V>>>)
    requires Apart(o', arrays) && Inserted(o, pos, n, o') && pos <= |o|
    ensures Apart(o, arrays)
  {
    forall p | 0 <= p < |o| ensures o[p] == o'[Shifted(pos, p)] { }
  }

  lemma RepresentsRemoved<V>(o: seq<Node<V>>, pos: nat, n: Node<V>, o': seq<Node<V>>, m: map<int, V>)
    requires Sorted(o') && Represents(o', m) && Inserted(o, pos, n, o') && 1 <= pos <= |o|
    ensures Represents(o, m - {n.key})
  {
    var m' := m - {n.key};
    forall q | 1 <= q < |o| ensures o[q].key in m' && m'[o[q].key] == o[q].value {
      assert o[q] == o'[Shifted(pos, q)];
    }
    forall k | k in m' ensures exists p :: 1 <= p < |o| && o[p].key == k {
      var p :| 1 <= p < |o'| && o'[p].key == k;
      assert o[Unshifted(pos, p)].key == k;
    }
  }

  /** The nodes that take part in level i. */
  function Taking<V>(o: seq<Node<V>>, i: nat): seq<Node<V>> {
    if o == [] then [] else (if o[0].level >= i then [o[0]] else []) + Taking(o[1..], i)
  }

  /** The nodes from position q on that take part in level i. */
  ghost function TakingFrom<V>(o: seq<Node<V>>, q: nat, i: nat): (r: seq<Node<V>>)
    requires q <= |o|
  {
    Taking(o[q..], i)
  }

  lemma {:induction false} TakingSkips<V>(o: seq<Node<V>>, q: nat, i: nat)
    requires q <= |o|
    ensures TakingFrom(o, q, i) == TakingFrom(o, From(o, q, i), i)
    decreases |o| - q
  {
    if q < |o| && o[q].level < i {
      assert o[q..][1..] == o[q + 1..];
      TakingSkips(o, q + 1, i);
    }
  }

  /** The nodes that a walk along the links of level i meets from its q-th position on. */
  ghost predicate Left<V>(o: seq<Node<V>>, q: nat, i: nat, rest: seq<Node<V>>) {
    q <= |o| && rest == TakingFrom(o, q, i) && (q < |o| ==> o[q].level >= i)
  }

  lemma LeftNext<V>(o: seq<Node<V>>, q: nat, i: nat, rest: seq<Node<V>>, nodes: seq<Node<V>>)
    requires Left(o, q, i, rest) && q < |o|
    ensures rest != [] && rest[0] == o[q] && Left(o, From(o, q + 1, i), i, rest[1..])
    ensures (nodes + [rest[0]]) + rest[1..] == nodes + rest
  {
    TakingCons(o, q, i);
    TakingSkips(o, q + 1, i);
    HeadAndTail(o[q], TakingFrom(o, q + 1, i), nodes);
  }

  lemma TakingCons<V>(o: seq<Node<V>>, q: nat, i: nat)
    requires q < |o| && o[q].level >= i
    ensures TakingFrom(o, q, i) == [o[q]] + TakingFrom(o, q + 1, i)
  {
    assert o[q..][1..] == o[q + 1..];
  }

  lemma HeadAndTail<T>(x: T, s: seq<T>, before: seq<T>)
    ensures ([x] + s)[1..] == s && (before + [x]) + s == before + ([x] + s)
  {
  }

  lemma LeftFirst<V>(o: seq<Node<V>>, i: nat) returns (rest: seq<Node<V>>)
    requires |o| > 0
    ensures rest == Taking(o[1..], i) && Left(o, From(o, 1, i), i, rest)
  {
    TakingSkips(o, 1, i);
    rest := Taking(o[1..], i);
  }

  lemma LeftNone<V>(o: seq<Node<V>>, i: nat, rest: seq<Node<V>>)
    requires Left(o, |o|, i, rest)
    ensures rest == []
  {
    assert o[|o|..] == [];
  }

  /** Each level is a part of the level below it. */
  lemma {:induction false} LevelsAreNested<V>(o: seq<Node<V>>, i: nat)
    ensures Taking(Taking(o, i), i + 1) == Taking(o, i + 1)
  {
    if o != [] {
      LevelsAreNested(o[1..], i);
      var rest := Taking(o[1..], i);
      if o[0].level >= i {
        assert ([o[0]] + rest)[1..] == rest;
      } else {
        assert Taking(o, i) == rest && Taking(o, i + 1) == Taking(o[1..], i + 1);
      }
    }
  }

  /** And its keys are strictly increasing. */
  lemma {:induction false} LevelsAreSorted<V>(o: seq<Node<V>>, i: nat)
    requires forall p, q :: 0 <= p < q < |o| ==> o[p].key < o[q].key
    ensures forall p, q :: 0 <= p < q < |Taking(o, i)| ==> Taking(o, i)[p].key < Taking(o, i)[q].key
    ensures forall p :: 0 <= p < |Taking(o, i)| ==> Taking(o, i)[p] in o && Taking(o, i)[p].level >= i
    ensures forall n :: n in o && n.level >= i ==> n in Taking(o, i)
  {
    if o != [] { LevelsAreSorted(o[1..], i); }
  }

  class SkipList<V(0)> {
    const maxLevel: nat
    const header: Node<V>
    var level: nat
    var count: nat
    /** The header and the nodes in order, their arrays, the links of each level, and the entries. */
    ghost var order: seq<Node<V>>
    ghost var arrays: set<array<Node?<V>>>
    ghost var nexts: seq<seq<Node?<V>>>
    ghost var contents: map<int, V>

    ghost predicate Ordered()
      reads this
    {
      && Sorted(order) && order[0] == header && header.level == maxLevel && Apart(order, arrays)
      && level <= maxLevel && (forall p :: 1 <= p < |order| ==> order[p].level <= level)
      && count == |order| - 1 && Represents(order, contents)
    }

    ghost predicate Levels()
      reads this, arrays
    {
      |nexts| == maxLevel + 1 &&
      forall i :: 0 <= i <= maxLevel ==> AreNexts(order, i, nexts[i]) && Linked(order, i, nexts[i], arrays)
    }

    ghost predicate Valid()
      reads this, arrays
    {
      Ordered() && Levels()
    }

    constructor (maxLevel: nat)
      ensures Valid() && contents == map[] && this.maxLevel == maxLevel && fresh(arrays)
    {
      var k: int, v: V := *, *;
      var h := new Node(k, v, maxLevel);
      this.maxLevel, header, level, count := maxLevel, h, 0, 0;
      order, arrays, contents := [h], {h.forward}, map[];
      nexts := seq(maxLevel + 1, _ => [null]);
      new;
      forall i | 0 <= i <= maxLevel ensures AreNexts(order, i, nexts[i]) && Linked(order, i, nexts[i], arrays) {
        FromIs(order, 1, i, 1);
      }
    }

    /** The next node in level i. */
    method Forward(current: Node<V>, i: nat, ghost p: nat) returns (next: Node?<V>)
      requires Valid() && i <= maxLevel && p < |order| && order[p] == current && current.level >= i
      ensures IsNext(order, i, p, next)
    {
      assert AreNexts(order, i, nexts[i]) && Linked(order, i, nexts[i], arrays);
      next := current.forward[i];
    }

    /** One level of a walk: as far as the keys are smaller. */
    method Walk(key: int, from: Node<V>, i: nat, ghost start: nat) returns (current: Node<V>, ghost p: nat)
      requires Valid() && i <= maxLevel && start < |order| && order[start] == from && from.level >= i
      requires start == 0 || from.key < key
      ensures p < |order| && order[p] == current && Stops(order, key, i, p)
    {
      current, p := from, start;
      while true
        invariant p < |order| && order[p] == current && current.level >= i && (p == 0 || current.key < key)
        decreases |order| - p
      {
        var next := Forward(current, i, p);
        if next == null || next.key >= key { return; }
        current, p := next, From(order, p + 1, i);
      }
    }

    /** search_element. */
    method SearchElement(key: int) returns (found: Node?<V>)
      requires Valid()
      ensures found != null <==> key in contents
      ensures found != null ==> found in order && found.key == key && found.value == contents[key]
    {
      var current := header;
      ghost var p: nat := 0;
      var i: nat := level + 1;
      while i > 0
        invariant i <= level + 1 && p < |order| && order[p] == current && (p == 0 || current.key < key)
        invariant i <= level ==> Stops(order, key, i, p)
        invariant current.level >= i - 1
      {
        i := i - 1;
        current, p := Walk(key, current, i, p);
      }
      StopsAtBottom(order, key, p);
      BelongsDecides(order, contents, key, p + 1);
      FromIs(order, p + 1, 0, p + 1);
      found := Forward(current, 0, p);
      if found != null && found.key != key { found := null; }
    }

    /** The walk of insert_element and delete_element: where it stops in each level. */
    method FindPath(key: int) returns (update: array<Node?<V>>, ghost path: seq<nat>)
      requires Valid()
      ensures fresh(update) && update.Length == maxLevel + 1 && |path| == level + 1
      ensures forall i :: 0 <= i <= level ==> Stops(order, key, i, path[i]) && update[i] == order[path[i]]
    {
      update := new Node?<V>[maxLevel + 1](_ => null);
      path := seq(level + 1, _ => 0);
      var current := header;
      ghost var p: nat := 0;
      var i: nat := level + 1;
      while i > 0
        invariant i <= level + 1 == |path| && p < |order| && order[p] == current && (p == 0 || current.key < key)
        invariant current.level >= i - 1 && StopsFrom(order, key, i, path)
        invariant forall j :: i <= j <= level ==> update[j] == order[path[j]]
        modifies update
      {
        i := i - 1;
        current, p := Walk(key, current, i, p);
        update[i] := current;
        StopsMore(order, key, i, path, p);
        path := path[i := p];
      }
    }

    /** insert_element; coin is the random level before it is cut off.  True if the key was there. */
    method InsertElement(key: int, value: V, coin: nat) returns (existed: bool)
      requires Valid() && coin >= 1
      modifies this, arrays
      ensures Valid() && fresh(arrays - old(arrays))
      ensures existed <==> key in old(contents)
      ensures contents == if existed then old(contents) else old(contents)[key := value]
      ensures existed ==> order == old(order) && level == old(level)
      ensures !existed ==>
                var l := if coin < maxLevel then coin else maxLevel;
                Gained(old(order), order, key, value, l) && level == if l < old(level) then old(level) else l
    {
      var update;
      ghost var path;
      update, path := FindPath(key);
      existed := Occurs(key, update, path);
      if !existed {
        var randomLevel := if coin < maxLevel then coin else maxLevel;
        path := RaiseLevel(key, randomLevel, update, path);
        InsertNode(key, value, randomLevel, update, path);
      }
    }

    /** Whether the node behind the path has the key. */
    method Occurs(key: int, update: array<Node?<V>>, ghost path: seq<nat>) returns (yes: bool)
      requires Valid() && update.Length > 0 && |path| > 0 && Stops(order, key, 0, path[0]) && update[0] == order[path[0]]
      ensures yes <==> key in contents
    {
      StopsAtBottom(order, key, path[0]);
      BelongsDecides(order, contents, key, path[0] + 1);
      FromIs(order, path[0] + 1, 0, path[0] + 1);
      var next := Forward(update[0], 0, path[0]);
      yes := next != null && next.key == key;
    }

    /** In the levels that were empty the new node will come behind the header. */
    method RaiseLevel(key: int, randomLevel: nat, update: array<Node?<V>>, ghost path: seq<nat>) returns (ghost path': seq<nat>)
      requires Valid() && randomLevel <= maxLevel && update.Length == maxLevel + 1 && update !in arrays && |path| == level + 1
      requires forall i :: 0 <= i <= level ==> Stops(order, key, i, path[i]) && update[i] == order[path[i]]
      modifies this`level, update
      ensures Valid() && |path'| == randomLevel + 1 && level == if randomLevel < old(level) then old(level) else randomLevel
      ensures forall i :: 0 <= i <= randomLevel ==> Stops(order, key, i, path'[i]) && update[i] == order[path'[i]]
    {
      path' := LongerPath(order, key, level, randomLevel, path);
      if randomLevel > level {
        for i := level + 1 to randomLevel + 1
          invariant forall j :: 0 <= j < i ==> update[j] == order[path'[j]]
          modifies update
        {
          update[i] := header;
        }
        level := randomLevel;
      }
    }

    /** The new node is linked in, level by level. */
    method LinkNode(n: Node<V>, update: array<Node?<V>>, ghost s: Insertion<V>)
      requires Planned(s) && Partly(s, 0) && n == s.n && update !in s.arrays && update != n.forward
      requires n.level < update.Length && forall i :: 0 <= i <= n.level ==> update[i] == s.o[s.path[i]]
      modifies s.arrays, n.forward
      ensures Partly(s, n.level + 1)
    {
      for i := 0 to n.level + 1
        invariant Partly(s, i)
        invariant forall j :: 0 <= j <= n.level ==> update[j] == s.o[s.path[j]]
      {
        assert Passes(s.o, s.pos, i, s.path[i]);
        LinkLevel(s, n, update[i], i);
      }
    }

    /** The plan of an insertion into this list. */
    ghost method MakePlan(n: Node<V>, path: seq<nat>) returns (s: Insertion<V>)
      requires Valid() && n.level <= maxLevel && |path| == n.level + 1 && n.forward !in arrays && n.forward.Length == n.level + 1
      requires forall i :: 0 <= i <= n.level ==> Stops(order, n.key, i, path[i])
      ensures Planned(s) && Partly(s, 0) && s.o == order && s.n == n && s.arrays == arrays && s.path == path
      ensures |s.nexts| == maxLevel + 1 && Belongs(order, n.key, s.pos)
      ensures forall i :: 0 <= i <= maxLevel ==> AreNexts(s.o', i, s.nexts'[i])
      ensures forall i :: n.level < i <= maxLevel ==> Kept(s.nexts[i], s.pos, s.nexts'[i])
    {
      s := PlanAlong(order, arrays, nexts, n, path);
    }

    /** All levels are linked as planned. */
    lemma LinkedAll(s: Insertion<V>)
      requires Planned(s) && Partly(s, s.n.level + 1)
      requires forall i :: s.n.level < i < |s.nexts| ==> Kept(s.nexts[i], s.pos, s.nexts'[i])
      ensures forall i :: 0 <= i < |s.nexts| ==> Linked(s.o', i, s.nexts'[i], s.arrays + {s.n.forward})
    {
      forall i | s.n.level < i < |s.nexts| ensures Linked(s.o', i, s.nexts'[i], s.arrays + {s.n.forward}) {
        LinkedAbove(s.o, s.pos, s.n, s.o', i, s.nexts[i], s.nexts'[i], s.arrays);
      }
    }

    /** The ghost view of the list after a change of its links. */
    method Adopt(delta: int, ghost o': seq<Node<V>>, ghost arrays': set<array<Node?<V>>>, ghost nexts': seq<seq<Node?<V>>>, ghost m': map<int, V>)
      requires Sorted(o') && o'[0] == header && header.level == maxLevel && Apart(o', arrays') && level <= maxLevel
      requires (forall p :: 1 <= p < |o'| ==> o'[p].level <= level) && count + delta == |o'| - 1 && Represents(o', m')
      requires |nexts'| == maxLevel + 1
      requires forall i :: 0 <= i <= maxLevel ==> AreNexts(o', i, nexts'[i]) && Linked(o', i, nexts'[i], arrays')
      modifies this`count, this`order, this`arrays, this`nexts, this`contents
      ensures Valid() && arrays == arrays' && contents == m' && order == o'
    {
      order, arrays, nexts, contents := o', arrays', nexts', m';
      count := count + delta;
    }

    /** A new node behind the nodes of the path. */
    method InsertNode(key: int, value: V, randomLevel: nat, update: array<Node?<V>>, ghost path: seq<nat>)
      requires Valid() && randomLevel <= level && key !in contents
      requires update.Length == maxLevel + 1 && update !in arrays && |path| == randomLevel + 1
      requires forall i :: 0 <= i <= randomLevel ==> Stops(order, key, i, path[i]) && update[i] == order[path[i]]
      modifies this`count, this`order, this`arrays, this`nexts, this`contents, arrays
      ensures Valid() && contents == old(contents)[key := value] && fresh(arrays - old(arrays))
      ensures Gained(old(order), order, key, value, randomLevel)
    {
      var n := new Node(key, value, randomLevel);
      ghost var s := MakePlan(n, path);
      InsertedAll(order, s.pos, n, s.o', arrays, contents, level);
      LinkNode(n, update, s);
      LinkedAll(s);
      Adopt(1, s.o', arrays + {n.forward}, s.nexts', contents[key := value]);
      assert order[s.pos] == n;
    }

    /** The links to the node are replaced, from below, until one is met that is not to it. */
    method CutNode(n: Node<V>, update: array<Node?<V>>, ghost s: Removal<V>)
      requires PlannedCut(s) && PartlyCut(s, 0) && n == s.n && update !in s.arrays && |s.path| == level + 1
      requires level < update.Length && forall i :: 0 <= i <= level ==> update[i] == s.o'[s.path[i]]
      requires forall i :: 0 <= i < |s.nexts'| ==> AreNexts(s.o', i, s.nexts'[i])
      modifies s.arrays
      ensures forall i :: 0 <= i < |s.nexts| ==> Linked(s.o, i, s.nexts[i], s.arrays)
    {
      var i := 0;
      while i <= level
        invariant i <= n.level + 1 && PartlyCut(s, i)
        invariant forall j :: 0 <= j <= level ==> update[j] == s.o'[s.path[j]]
        invariant i <= level || i == n.level + 1
      {
        var linked := IsLinkedTo(update[i], n, i, s);
        if !linked { break; }
        CutLevel(s, n, update[i], i);
        i := i + 1;
      }
      CutAbove(s);
    }

    /** Whether only the header takes part in the highest level. */
    method TopIsEmpty() returns (empty: bool)
      requires Valid()
      ensures empty <==> forall p :: 1 <= p < |order| ==> order[p].level < level
    {
      var next := Forward(header, level, 0);
      empty := next == null;
      if !empty { assert order[From(order, 1, level)].level >= level; }
    }

    /** Levels that have become empty are given up. */
    method LowerLevel()
      requires Valid()
      modifies this`level
      ensures Valid() && level <= old(level)
      ensures level > 0 ==> exists p :: 1 <= p < |order| && order[p].level >= level
    {
      var empty := TopIsEmpty();
      while level > 0 && empty
        invariant Valid() && level <= old(level)
        invariant empty <==> forall p :: 1 <= p < |order| ==> order[p].level < level
      {
        level := level - 1;
        empty := TopIsEmpty();
      }
    }

    /** What is left after the removal is a list of the other entries. */
    ghost predicate Ready(s: Removal<V>, m: map<int, V>)
      reads this`level
    {
      && PlannedCut(s) && |s.nexts| == maxLevel + 1
      && (forall i :: 0 <= i <= maxLevel ==> AreNexts(s.o', i, s.nexts'[i]) && AreNexts(s.o, i, s.nexts[i]))
      && Sorted(s.o) && s.o[0] == header && Apart(s.o, s.arrays) && Represents(s.o, m)
      && (forall p :: 1 <= p < |s.o| ==> s.o[p].level <= level)
    }

    ghost method PlanCut(key: int, path: seq<nat>) returns (s: Removal<V>)
      requires Valid() && key in contents && |path| == level + 1
      requires forall i :: 0 <= i <= level ==> Stops(order, key, i, path[i])
      ensures Ready(s, contents - {key}) && PartlyCut(s, 0) && s.o' == order && s.arrays == arrays && s.path == path
      ensures s.n == At(order, From(order, path[0] + 1, 0)) && s.n.key == key
    {
      var pos := path[0] + 1;
      StopsAtBottom(order, key, path[0]);
      BelongsDecides(order, contents, key, pos);
      FromIs(order, pos, 0, pos);
      s := CutAlong(order, arrays, nexts, key, path, pos);
      RemovedAll(s.o, pos, s.n, order, arrays, contents, level);
    }

    /** The removal is carried out. */
    method CutAndAdopt(n: Node<V>, update: array<Node?<V>>, ghost s: Removal<V>, ghost m: map<int, V>)
      requires Ready(s, m) && PartlyCut(s, 0) && n == s.n && update !in s.arrays && |s.path| == level + 1 <= update.Length
      requires forall i :: 0 <= i <= level ==> update[i] == s.o'[s.path[i]]
      requires count == |s.o'| - 1 && header.level == maxLevel && level <= maxLevel
      modifies this`count, this`order, this`arrays, this`nexts, this`contents, s.arrays
      ensures Valid() && contents == m && arrays == s.arrays && order == s.o
    {
      CutNode(n, update, s);
      Adopt(-1, s.o, s.arrays, s.nexts, m);
    }

    /** The node behind the path is taken out. */
    method RemoveNode(key: int, update: array<Node?<V>>, ghost path: seq<nat>)
      requires Valid() && key in contents
      requires update.Length == maxLevel + 1 && update !in arrays && |path| == level + 1
      requires forall i :: 0 <= i <= level ==> Stops(order, key, i, path[i]) && update[i] == order[path[i]]
      modifies this`count, this`order, this`arrays, this`nexts, this`contents, arrays
      ensures Valid() && contents == old(contents) - {key} && arrays == old(arrays) && Lost(old(order), order, key)
    {
      ghost var s := PlanCut(key, path);
      assert s.o'[s.pos] == s.n;
      assert Stops(order, key, 0, path[0]);
      var current := Forward(update[0], 0, path[0]);
      CutAndAdopt(current, update, s, contents - {key});
    }

    /** delete_element, of a key that is not the greatest. */
    method DeleteElement(key: int)
      requires Valid() && (key in contents ==> exists k :: k in contents && k > key)
      modifies this, arrays
      ensures Valid() && contents == old(contents) - {key} && arrays == old(arrays)
      ensures key !in old(contents) ==> order == old(order) && level == old(level)
      ensures key in old(contents) ==> Lost(old(order), order, key)
      ensures key in old(contents) && level > 0 ==> exists p :: 1 <= p < |order| && order[p].level >= level
    {
      var update;
      ghost var path;
      update, path := FindPath(key);
      var found := Occurs(key, update, path);
      if found {
        RemoveNode(key, update, path);
        LowerLevel();
      }
    }

    /** The nodes of a level, as a walk along its links meets them. */
    method LevelNodes(i: nat) returns (nodes: seq<Node<V>>)
      requires Valid() && i <= maxLevel
      ensures nodes == Taking(order[1..], i)
    {
      nodes := [];
      ghost var rest := LeftFirst(order, i);
      ghost var q, all := From(order, 1, i), rest;
      var node := Forward(header, i, 0);
      while node != null
        invariant node == At(order, q) && Left(order, q, i, rest) && nodes + rest == all
        decreases |order| - q
      {
        LeftNext(order, q, i, rest, nodes);
        nodes, rest := nodes + [node], rest[1..];
        node := Forward(node, i, q);
        q := From(order, q + 1, i);
      }
      LeftNone(order, i, rest);
    }
  }
}
