/**
  The allocator over its linked buffers.  Each method is proved against the functions of
  Buffers: what it does to the neighbour lists is what those do to the sequence of
  buffers.
  */
module MemBufAllocator {
  import opened Options
  import opened Buffers

  class MemBuf {
    var prev: MemBuf?
    var next: MemBuf?
    var size: int
    var addr: int
    var status: Status
    /** The position of mem_block_ in the list of blocks. */
    const block: nat

    constructor (size: int, addr: int, block: nat, status: Status)
      ensures prev == null && next == null
      ensures this.size == size && this.addr == addr && this.block == block && this.status == status
    {
      prev, next := null, null;
      this.size, this.addr, this.block, this.status := size, addr, block, status;
    }
  }

  /** The neighbour links of the buffer at position i. */
  ghost predicate LinkedAt(order: seq<MemBuf>, i: nat)
    requires i < |order|
    reads order`prev, order`next
  {
    && order[i].prev == (if i > 0 && order[i - 1].block == order[i].block then order[i - 1] else null)
    && order[i].next == (if i + 1 < |order| && order[i + 1].block == order[i].block then order[i + 1] else null)
  }

  ghost predicate Distinct(order: seq<MemBuf>) {
    forall i, j :: 0 <= i < j < |order| ==> order[i] != order[j]
  }

  /** The neighbour lists of all blocks, one behind the other. */
  ghost predicate Linked(order: seq<MemBuf>)
    reads order`prev, order`next
  {
    Distinct(order) && forall i :: 0 <= i < |order| ==> LinkedAt(order, i)
  }

  ghost function Without(order: seq<MemBuf>, k: nat): seq<MemBuf>
    requires k < |order|
  {
    order[..k] + order[k + 1..]
  }

  ghost predicate Mirrors(b: MemBuf, v: Buf)
    reads b`addr, b`size, b`status
  {
    b.addr == v.addr && b.size == v.size && b.status == v.status && b.block == v.block
  }

  /** view is the buffers of the list as values. */
  ghost predicate Shows(order: seq<MemBuf>, view: seq<Buf>)
    reads order`addr, order`size, order`status
  {
    |order| == |view| && forall i :: 0 <= i < |order| ==> Mirrors(order[i], view[i])
  }

  /** The list runs through the blocks in order. */
  ghost predicate Grouped(order: seq<MemBuf>) {
    forall i, j :: 0 <= i < j < |order| ==> order[i].block <= order[j].block
  }

  /** Take the predecessor of buf out of the list. */
  method DropPrev(buf: MemBuf, ghost order: seq<MemBuf>, ghost k: nat)
    requires Linked(order) && Grouped(order) && 0 < k < |order| && order[k] == buf && buf.prev != null
    modifies Nodes(order)`prev, Nodes(order)`next
    ensures Linked(Without(order, k - 1))
  {
    assert LinkedAt(order, k) && LinkedAt(order, k - 1);
    assert k >= 2 ==> order[k - 2] in order;
    var prev := buf.prev.prev;
    buf.prev := prev;
    if prev != null { prev.next := buf; }
    assert forall b :: b in order ==> b.prev == (if b == buf then prev else old(b.prev));
    assert forall b :: b in order ==> b.next == (if b == prev then buf else old(b.next));
    ghost var rest := Without(order, k - 1);
    forall i | 0 <= i < |rest| ensures LinkedAt(rest, i) {
      ghost var j := if i < k - 1 then i else i + 1;
      assert old(LinkedAt(order, j));
    }
  }

  /** Take the successor of buf out of the list. */
  method DropNext(buf: MemBuf, ghost order: seq<MemBuf>, ghost k: nat)
    requires Linked(order) && Grouped(order) && k + 1 < |order| && order[k] == buf && buf.next != null
    modifies Nodes(order)`prev, Nodes(order)`next
    ensures Linked(Without(order, k + 1))
  {
    assert LinkedAt(order, k) && LinkedAt(order, k + 1);
    assert k + 2 < |order| ==> order[k + 2] in order;
    var next := buf.next.next;
    buf.next := next;
    if next != null { next.prev := buf; }
    assert forall b :: b in order ==> b.next == (if b == buf then next else old(b.next));
    assert forall b :: b in order ==> b.prev == (if b == next then buf else old(b.prev));
    ghost var rest := Without(order, k + 1);
    forall i | 0 <= i < |rest| ensures LinkedAt(rest, i) {
      ghost var j := if i < k + 1 then i else i + 1;
      assert old(LinkedAt(order, j));
    }
  }

  ghost function WithNew(order: seq<MemBuf>, k: nat, fresh': MemBuf): seq<MemBuf>
    requires k < |order|
  {
    order[..k + 1] + [fresh'] + order[k + 1..]
  }

  /** Put a new buffer of the same block behind buf. */
  method LinkBehind(buf: MemBuf, remaining: MemBuf, ghost order: seq<MemBuf>, ghost k: nat)
    requires Linked(order) && k < |order| && order[k] == buf
    requires remaining !in order && remaining.block == buf.block && remaining.next == null
    modifies Nodes(order)`prev, Nodes(order)`next, remaining`prev, remaining`next
    ensures Linked(WithNew(order, k, remaining))
  {
    assert LinkedAt(order, k);
    assert k + 1 < |order| ==> LinkedAt(order, k + 1);
    assert forall i :: 0 <= i < |order| ==> order[i] != remaining;
    var next := buf.next;
    if next != null {
      next.prev := remaining;
      remaining.next := next;
    }
    buf.next := remaining;
    remaining.prev := buf;
    ghost var all := WithNew(order, k, remaining);
    forall i | 0 <= i < |all| ensures LinkedAt(all, i) {
      if i != k + 1 {
        ghost var j := if i <= k then i else i - 1;
        assert old(LinkedAt(order, j));
      }
    }
  }

  // ------------------------------------------------ Free, one neighbour at a time

  /** The buffer at k has changed its status and taken over its predecessor, if that has the status. */
  function PrevMerged(bufs: seq<Buf>, k: nat, target: Status): seq<Buf>
    requires k < |bufs|
  {
    if Merges(bufs, k, k - 1, target)
    then bufs[..k - 1] + [Buf(bufs[k - 1].addr, bufs[k - 1].size + bufs[k].size, target, bufs[k].block)] + bufs[k + 1..]
    else bufs[k := bufs[k].(status := target)]
  }

  function NextMerged(bufs: seq<Buf>, k: nat, target: Status): seq<Buf>
    requires k < |bufs|
  {
    if Merges(bufs, k, k + 1, target)
    then bufs[..k] + [bufs[k].(size := bufs[k].size + bufs[k + 1].size)] + bufs[k + 2..]
    else bufs
  }

  lemma MergedOneByOne(bufs: seq<Buf>, k: nat, target: Status)
    requires k < |bufs|
    ensures var j := MergeLow(bufs, k, target);
            var one := PrevMerged(bufs, k, target);
            j < |one| && one[j].status == target && NextMerged(one, j, target) == FreeAt(bufs, k, target)
    ensures PrevMerged(bufs[k := bufs[k].(status := target)], k, target) == PrevMerged(bufs, k, target)
    ensures MergeLow(bufs[k := bufs[k].(status := target)], k, target) == MergeLow(bufs, k, target)
  {
    var j, one := MergeLow(bufs, k, target), PrevMerged(bufs, k, target);
    assert one[..j] == bufs[..j];
    assert one[j + 1..] == bufs[k + 1..];
    if Merges(bufs, k, k + 1, target) {
      assert one[j + 2..] == bufs[k + 2..];
    }
  }

  /** The buffer at k has taken over the memory of the one at other. */
  function Absorbed(bufs: seq<Buf>, k: nat, other: nat, addr: int): seq<Buf>
    requires k < |bufs| && other < |bufs|
  {
    bufs[k := bufs[k].(addr := addr, size := bufs[k].size + bufs[other].size)]
  }

  lemma MergedByExtending(bufs: seq<Buf>, k: nat, target: Status)
    requires k < |bufs| && bufs[k].status == target
    ensures Merges(bufs, k, k - 1, target) ==>
              var now := Absorbed(bufs, k, k - 1, bufs[k - 1].addr);
              now[..k - 1] + now[k..] == PrevMerged(bufs, k, target)
    ensures Merges(bufs, k, k + 1, target) ==>
              var now := Absorbed(bufs, k, k + 1, bufs[k].addr);
              now[..k + 1] + now[k + 2..] == NextMerged(bufs, k, target)
  {
  }

  lemma TiledIsGrouped(order: seq<MemBuf>, view: seq<Buf>, blocks: seq<Range>)
    requires Tiled(view, blocks) && |view| == |order|
    requires forall i :: 0 <= i < |order| ==> view[i].block == order[i].block
    ensures Grouped(order)
  {
    forall i, j | 0 <= i < j < |order| ensures order[i].block <= order[j].block {
      TiledIsOrdered(view, blocks, i, j);
      assert view[i].block == order[i].block && view[j].block == order[j].block;
    }
  }

  ghost function Nodes(order: seq<MemBuf>): set<MemBuf> {
    set b | b in order
  }

  lemma NodesWithout(order: seq<MemBuf>, k: nat)
    requires k < |order| && Distinct(order)
    ensures Nodes(Without(order, k)) == Nodes(order) - {order[k]}
  {
    forall b | b in order && b != order[k] ensures b in Without(order, k) {
      var i :| 0 <= i < |order| && order[i] == b;
      assert Without(order, k)[if i < k then i else i - 1] == b;
    }
  }

  lemma ShowsWithout(order: seq<MemBuf>, view: seq<Buf>, k: nat)
    requires k < |order| && Shows(order, view)
    ensures Shows(Without(order, k), view[..k] + view[k + 1..])
  {
    forall i | 0 <= i < |order| - 1
      ensures Mirrors(Without(order, k)[i], (view[..k] + view[k + 1..])[i])
    {
      assert Mirrors(order[if i < k then i else i + 1], view[if i < k then i else i + 1]);
    }
  }

  /** The list after a merge. */
  ghost function Rest(order: seq<MemBuf>, dropped: MemBuf?, i: int): seq<MemBuf>
    requires dropped != null ==> 0 <= i < |order|
  {
    if dropped == null then order else Without(order, i)
  }

  lemma RestNodes(order: seq<MemBuf>, dropped: MemBuf?, i: int)
    requires Distinct(order) && (dropped != null ==> 0 <= i < |order| && order[i] == dropped)
    ensures Nodes(Rest(order, dropped, i)) == Nodes(order) - {dropped}
    ensures forall b :: b in Rest(order, dropped, i) ==> b in order
    ensures Grouped(order) ==> Grouped(Rest(order, dropped, i))
  {
    if dropped != null {
      NodesWithout(order, i);
      forall m | 0 <= m < |order| - 1 ensures Without(order, i)[m] == order[if m < i then m else m + 1] {}
    }
  }

  /** Give the buffer at k a new extent, which changes no links. */
  method Extend(buf: MemBuf, addr: int, size: int, ghost list: seq<MemBuf>, ghost view: seq<Buf>, ghost k: nat, ghost rest: seq<MemBuf>)
    requires Distinct(list) && Shows(list, view) && k < |list| && list[k] == buf && Linked(rest)
    modifies buf`addr, buf`size
    ensures Shows(list, view[k := view[k].(addr := addr, size := size)]) && Linked(rest)
  {
    assert Mirrors(list[k], view[k]);
    buf.addr, buf.size := addr, size;
  }

  /** Merge with the predecessor in the list; the answer is the buffer to delete. */
  method MergePrev(buf: MemBuf, target: Status, ghost list: seq<MemBuf>, ghost view: seq<Buf>, ghost k: nat)
    returns (dropped: MemBuf?, ghost rest: seq<MemBuf>)
    requires Linked(list) && Grouped(list) && Shows(list, view)
    requires k < |list| && list[k] == buf && buf.status == target
    modifies Nodes(list)`prev, Nodes(list)`next, buf`addr, buf`size
    ensures Linked(rest) && Grouped(rest) && Shows(rest, PrevMerged(view, k, target))
    ensures MergeLow(view, k, target) < |rest| && rest[MergeLow(view, k, target)] == buf
    ensures Nodes(rest) == Nodes(list) - {dropped} && forall b :: b in rest ==> b in list
    ensures dropped != null ==> dropped in Nodes(list) - {buf} && dropped.status == target
  {
    var prevBuf := buf.prev;
    assert LinkedAt(list, k) && Mirrors(list[k], view[k]);
    assert k > 0 ==> Mirrors(list[k - 1], view[k - 1]);
    if prevBuf == null || prevBuf.status != target { return null, list; }
    DropPrev(buf, list, k);
    Extend(buf, prevBuf.addr, buf.size + prevBuf.size, list, view, k, Without(list, k - 1));
    ShowsWithout(list, Absorbed(view, k, k - 1, view[k - 1].addr), k - 1);
    MergedByExtending(view, k, target);
    RestNodes(list, prevBuf, k - 1);
    return prevBuf, Without(list, k - 1);
  }

  method MergeNext(buf: MemBuf, target: Status, ghost list: seq<MemBuf>, ghost view: seq<Buf>, ghost k: nat)
    returns (dropped: MemBuf?, ghost rest: seq<MemBuf>)
    requires Linked(list) && Grouped(list) && Shows(list, view)
    requires k < |list| && list[k] == buf && buf.status == target
    modifies Nodes(list)`prev, Nodes(list)`next, buf`addr, buf`size
    ensures Linked(rest) && Shows(rest, NextMerged(view, k, target))
    ensures Nodes(rest) == Nodes(list) - {dropped}
    ensures dropped != null ==> dropped in Nodes(list) - {buf} && dropped.status == target
  {
    var nextBuf := buf.next;
    assert LinkedAt(list, k) && Mirrors(list[k], view[k]);
    assert k + 1 < |list| ==> Mirrors(list[k + 1], view[k + 1]);
    if nextBuf == null || nextBuf.status != target { return null, list; }
    DropNext(buf, list, k);
    Extend(buf, buf.addr, buf.size + nextBuf.size, list, view, k, Without(list, k + 1));
    ShowsWithout(list, Absorbed(view, k, k + 1, view[k].addr), k + 1);
    MergedByExtending(view, k, target);
    RestNodes(list, nextBuf, k + 1);
    return nextBuf, Without(list, k + 1);
  }

  // --------------------------------------------------------- the ordered sets

  /** s holds exactly the buffers of that status, but for one that is out of it for the moment. */
  ghost predicate Holds(s: set<MemBuf>, nodes: set<MemBuf>, status: Status, but: MemBuf?)
    reads nodes`status
  {
    && (forall b :: b in s ==> b in nodes && b.status == status && b != but)
    && (forall b :: b in nodes && b.status == status && b != but ==> b in s)
  }

  /** The two merges of Free, for a buffer that has got its new status. */
  method Merge(buf: MemBuf, target: Status, ghost list: seq<MemBuf>, ghost was: seq<Buf>, ghost k: nat)
    returns (low: MemBuf?, high: MemBuf?, ghost after: seq<MemBuf>)
    requires Linked(list) && Grouped(list) && k < |was|
    requires Shows(list, was[k := was[k].(status := target)]) && list[k] == buf
    modifies Nodes(list)`prev, Nodes(list)`next, buf`addr, buf`size
    ensures Linked(after) && Shows(after, FreeAt(was, k, target))
    ensures Nodes(after) == Nodes(list) - {low, high}
    ensures low != null ==> low in Nodes(list) - {buf} && low.status == target
    ensures high != null ==> high in Nodes(list) - {buf} && high.status == target
  {
    ghost var changed := was[k := was[k].(status := target)];
    assert Mirrors(list[k], changed[k]);
    MergedOneByOne(was, k, target);
    ghost var one;
    low, one := MergePrev(buf, target, list, changed, k);
    high, after := MergeNext(buf, target, one, PrevMerged(was, k, target), MergeLow(was, k, target));
  }

  /** A set of buffers without those deleted by a merge and with the merged one. */
  function Filed(s: set<MemBuf>, low: MemBuf?, high: MemBuf?, buf: MemBuf): set<MemBuf> {
    (set b | b in s && b != low && b != high) + {buf}
  }

  /** Give buf the status, merge it, and file it in s, the set of that status. */
  method MergeAndFile(buf: MemBuf, target: Status, s: set<MemBuf>, ghost list: seq<MemBuf>, ghost was: seq<Buf>, ghost k: nat)
    returns (filed: set<MemBuf>, ghost after: seq<MemBuf>)
    requires Linked(list) && Grouped(list) && Shows(list, was) && k < |list| && list[k] == buf
    requires Holds(s, Nodes(list), target, null) && buf.status != target
    modifies Nodes(list)`prev, Nodes(list)`next, buf`addr, buf`size, buf`status
    ensures Linked(after) && Shows(after, FreeAt(was, k, target)) && buf.status == target
    ensures Holds(filed, Nodes(after), target, null)
    ensures Nodes(after) <= Nodes(list)
    ensures forall b :: b in Nodes(list) && b !in Nodes(after) ==> b.status == target
  {
    buf.status := target;
    assert Holds(s, Nodes(list), target, buf);
    var low, high;
    low, high, after := Merge(buf, target, list, was, k);
    filed := Filed(s, low, high, buf);
  }

  /**
    The lists are linked, view shows them, and both sets are exact.  idle is the set of
    the idle buffers that are still to be found.
    */
  ghost predicate Exact(order: seq<MemBuf>, view: seq<Buf>, idle: set<MemBuf>, eager: set<MemBuf>, but: MemBuf?)
    reads Nodes(order)
  {
    && Linked(order) && Shows(order, view)
    && Holds(idle, Nodes(order), Idle, but)
    && Holds(eager, Nodes(order), EagerFree, but)
  }

  /** Free for a buffer without pending events that is in use. */
  method FreeToIdle(buf: MemBuf, idle: set<MemBuf>, ghost eager: set<MemBuf>, ghost order: seq<MemBuf>, ghost view: seq<Buf>, ghost k: nat)
    returns (filed: set<MemBuf>, ghost after: seq<MemBuf>)
    requires Exact(order, view, idle, eager, null) && Grouped(order) && k < |order| && order[k] == buf
    requires !IsFree(buf.status)
    modifies Nodes(order)
    ensures Exact(after, FreeAt(view, k, Idle), filed, eager, null)
    ensures Nodes(after) <= Nodes(order)
  {
    filed, after := MergeAndFile(buf, Idle, idle, order, view, k);
  }

  /** Free for an idle buffer that is to be released. */
  method FreeToEager(buf: MemBuf, ghost idle: set<MemBuf>, eager: set<MemBuf>, ghost order: seq<MemBuf>, ghost view: seq<Buf>, ghost k: nat)
    returns (filed: set<MemBuf>, ghost after: seq<MemBuf>)
    requires Exact(order, view, idle, eager, null) && Grouped(order) && k < |order| && order[k] == buf
    requires buf.status == Idle
    modifies Nodes(order)
    ensures Exact(after, FreeAt(view, k, EagerFree), idle - {buf}, filed, null)
    ensures Nodes(after) <= Nodes(order)
  {
    filed, after := MergeAndFile(buf, EagerFree, eager, order, view, k);
  }

  // -------------------------------------------------------------- allocating

  /** The order of the sets, MemBufComparator. */
  predicate Less(a: MemBuf, b: MemBuf)
    reads a, b
  {
    if a.size != b.size then a.size < b.size else a.addr < b.addr
  }

  predicate IsLowerBound(c: MemBuf, s: set<MemBuf>, size: int)
    reads s
  {
    c in s && c.size >= size && forall b :: b in s && b != c && b.size >= size ==> Less(c, b)
  }

  lemma {:induction false} LeastFit(s: set<MemBuf>, size: int, x: MemBuf) returns (m: MemBuf)
    requires x in s && x.size >= size
    requires forall a, b :: a in s && b in s && a != b ==> a.addr != b.addr
    ensures IsLowerBound(m, s, size) && (m == x || Less(m, x))
    decreases s
  {
    m := x;
    if y :| y in s && y.size >= size && Less(y, x) {
      m := LeastFit(s - {x}, size, y);
    }
  }

  method LowerBound(s: set<MemBuf>, size: int) returns (c: MemBuf?)
    requires forall a, b :: a in s && b in s && a != b ==> a.addr != b.addr
    ensures c == null ==> forall b :: b in s ==> b.size < size
    ensures c != null ==> IsLowerBound(c, s, size)
  {
    if b :| b in s && b.size >= size {
      ghost var m := LeastFit(s, size, b);
      c :| c in s && IsLowerBound(c, s, size);
    } else {
      c := null;
    }
  }

  function CutAt(view: seq<Buf>, k: nat, size: int): seq<Buf>
    requires k < |view|
  {
    view[..k] + [view[k].(size := size), Buf(view[k].addr + size, view[k].size - size, view[k].status, view[k].block)] + view[k + 1..]
  }

  lemma SplitInSteps(view: seq<Buf>, k: nat, size: int)
    requires k < |view|
    ensures var now := if view[k].size - size >= ALIGN_SIZE then CutAt(view, k, size) else view;
            now[k := now[k].(status := Used)] == SplitAt(view, k, size)
  {
  }

  /** Cut the candidate after size bytes. */
  method Cut(candidate: MemBuf, size: int, ghost order: seq<MemBuf>, ghost view: seq<Buf>, ghost k: nat)
    returns (remaining: MemBuf, ghost after: seq<MemBuf>)
    requires Linked(order) && Shows(order, view) && k < |order| && order[k] == candidate
    modifies Nodes(order)`prev, Nodes(order)`next, candidate`size
    ensures fresh(remaining) && remaining.status == candidate.status
    ensures Linked(after) && Nodes(after) == Nodes(order) + {remaining}
    ensures k < |after| && after[k] == candidate
    ensures Shows(after, CutAt(view, k, size))
  {
    assert Mirrors(order[k], view[k]);
    remaining := new MemBuf(candidate.size - size, candidate.addr + size, candidate.block, candidate.status);
    LinkBehind(candidate, remaining, order, k);
    candidate.size := size;
    after := WithNew(order, k, remaining);
    assert order == order[..k + 1] + order[k + 1..];
    ghost var now := CutAt(view, k, size);
    forall i | 0 <= i < |after| ensures Mirrors(after[i], now[i]) {
      if i != k && i != k + 1 { assert Mirrors(order[if i <= k then i else i - 1], view[if i <= k then i else i - 1]); }
    }
  }

  /** mem_mapper_, the environment here: it answers how much it has mapped. */
  method MemMapper(size: int, addr: int) returns (mapped: int) {
    mapped := *;
  }

  /** How much has to be mapped of a buffer that is handed out. */
  function MapSize(bufSize: int, size: int): int {
    if bufSize - size >= ALIGN_SIZE then size else bufSize
  }

  /** The buffer cannot be had: its memory may be unmapped, and the mapper has not mapped as much as was asked for. */
  predicate Refused(b: Buf, size: int, mapped: int) {
    b.status == EagerFree && mapped != MapSize(b.size, size)
  }

  /** What remains of the candidate is filed as a buffer of its own. */
  method CutAndFile(candidate: MemBuf, size: int, idle: set<MemBuf>, eager: set<MemBuf>,
                    ghost order: seq<MemBuf>, ghost view: seq<Buf>, ghost k: nat)
    returns (idle': set<MemBuf>, eager': set<MemBuf>, ghost after: seq<MemBuf>)
    requires Exact(order, view, idle, eager, candidate) && k < |order| && order[k] == candidate && IsFree(candidate.status)
    modifies Nodes(order)`prev, Nodes(order)`next, candidate`size
    ensures Exact(after, CutAt(view, k, size), idle', eager', candidate)
    ensures k < |after| && after[k] == candidate && fresh(Nodes(after) - Nodes(order))
  {
    var remaining;
    remaining, after := Cut(candidate, size, order, view, k);
    idle' := if remaining.status == Idle then idle + {remaining} else idle;
    eager' := if remaining.status == Idle then eager else eager + {remaining};
  }

  /** A buffer that is the only one of its block, linked to nothing and in no set yet. */
  method NewBuf(b: Buf, ghost idle: set<MemBuf>, ghost eager: set<MemBuf>, ghost order: seq<MemBuf>, ghost view: seq<Buf>)
    returns (candidate: MemBuf)
    requires Exact(order, view, idle, eager, null) && (forall i :: 0 <= i < |order| ==> order[i].block < b.block)
    ensures fresh(candidate) && Nodes(order + [candidate]) == Nodes(order) + {candidate}
    ensures Exact(order + [candidate], view + [b], idle, eager, candidate)
  {
    candidate := new MemBuf(b.size, b.addr, b.block, b.status);
    ghost var list, after := order + [candidate], view + [b];
    forall i | 0 <= i < |list| ensures LinkedAt(list, i) && Mirrors(list[i], after[i]) {
      if i < |order| { assert LinkedAt(order, i) && Mirrors(order[i], view[i]); }
    }
    assert Nodes(list) == Nodes(order) + {candidate};
  }

  method HandOut(candidate: MemBuf, ghost idle: set<MemBuf>, ghost eager: set<MemBuf>,
                 ghost order: seq<MemBuf>, ghost view: seq<Buf>, ghost k: nat)
    requires Exact(order, view, idle, eager, candidate) && k < |order| && order[k] == candidate
    modifies candidate`status
    ensures Exact(order, view[k := view[k].(status := Used)], idle, eager, null)
  {
    candidate.status := Used;
  }

  /** Hand out the candidate, split if enough remains. */
  method SplitMemBuf(candidate: MemBuf, size: int, idle: set<MemBuf>, eager: set<MemBuf>,
                     ghost order: seq<MemBuf>, ghost view: seq<Buf>, ghost k: nat)
    returns (idle': set<MemBuf>, eager': set<MemBuf>, ghost after: seq<MemBuf>)
    requires Exact(order, view, idle, eager, candidate) && k < |order| && order[k] == candidate && IsFree(candidate.status)
    modifies Nodes(order)
    ensures Exact(after, SplitAt(view, k, size), idle', eager', null)
    ensures k < |after| && after[k] == candidate && fresh(Nodes(after) - Nodes(order))
  {
    assert Mirrors(order[k], view[k]);
    SplitInSteps(view, k, size);
    if candidate.size - size >= ALIGN_SIZE {
      idle', eager', after := CutAndFile(candidate, size, idle, eager, order, view, k);
      HandOut(candidate, idle', eager', after, CutAt(view, k, size), k);
    } else {
      idle', eager', after := idle, eager, order;
      HandOut(candidate, idle', eager', after, view, k);
    }
  }

  lemma AddrsDistinct(order: seq<MemBuf>, view: seq<Buf>, blocks: seq<Range>)
    requires Shows(order, view) && Tiled(view, blocks) && BlocksDisjoint(blocks)
    ensures forall a, b :: a in Nodes(order) && b in Nodes(order) && a != b ==> a.addr != b.addr
  {
    forall a, b | a in order && b in order && a != b ensures a.addr != b.addr {
      var i :| 0 <= i < |order| && order[i] == a;
      var j :| 0 <= j < |order| && order[j] == b;
      assert Mirrors(order[i], view[i]) && Mirrors(order[j], view[j]);
      if a.addr == b.addr { OneOwner(view, blocks, i, j, a.addr); }
    }
  }

  lemma FoundAt(order: seq<MemBuf>, view: seq<Buf>, s: set<MemBuf>, status: Status, size: int, c: MemBuf) returns (k: nat)
    requires Distinct(order) && Shows(order, view) && Holds(s, Nodes(order), status, null) && IsLowerBound(c, s, size)
    ensures k < |order| && order[k] == c && IsBestFit(view, status, size, k)
  {
    k :| 0 <= k < |order| && order[k] == c;
    assert Mirrors(order[k], view[k]);
    forall j | 0 <= j < |view| && j != k && view[j].status == status && view[j].size >= size
      ensures Precedes(view[k], view[j])
    {
      assert Mirrors(order[j], view[j]) && order[j] in Nodes(order);
    }
  }

  lemma NoneFound(order: seq<MemBuf>, view: seq<Buf>, s: set<MemBuf>, status: Status, size: int)
    requires Shows(order, view) && Holds(s, Nodes(order), status, null) && forall b :: b in s ==> b.size < size
    ensures NoneFits(view, status, size)
  {
    forall j | 0 <= j < |view| && view[j].status == status ensures view[j].size < size {
      assert Mirrors(order[j], view[j]) && order[j] in Nodes(order);
    }
  }

  /** Look for the best fit in the set of one status and take it out. */
  method TakeFrom(s: set<MemBuf>, status: Status, size: int, ghost order: seq<MemBuf>, ghost view: seq<Buf>)
    returns (c: MemBuf?, rest: set<MemBuf>, ghost k: nat)
    requires Distinct(order) && Shows(order, view) && Holds(s, Nodes(order), status, null)
    requires forall a, b :: a in Nodes(order) && b in Nodes(order) && a != b ==> a.addr != b.addr
    ensures c == null ==> rest == s && NoneFits(view, status, size)
    ensures c != null ==> Holds(rest, Nodes(order), status, c) && c.status == status
    ensures c != null ==> k < |order| && order[k] == c && IsBestFit(view, status, size, k)
  {
    rest, k := s, 0;
    c := LowerBound(s, size);
    if c == null {
      NoneFound(order, view, s, status, size);
    } else {
      k := FoundAt(order, view, s, status, size, c);
      rest := s - {c};
    }
  }

  class MemBufAllocator {
    const eagerFree: bool
    var blocks: seq<Range>
    var freeBufs: set<MemBuf>
    var eagerBufs: set<MemBuf>
    ghost var order: seq<MemBuf>
    ghost var view: seq<Buf>

    ghost predicate Filed()
      reads this, Nodes(order)
    {
      Exact(order, view, freeBufs, eagerBufs, null)
    }

    ghost predicate Valid()
      reads this, Nodes(order)
    {
      Filed() && Tiled(view, blocks) && BlocksDisjoint(blocks) && Coalesced(view)
    }

    constructor (eagerFree: bool)
      ensures Valid() && this.eagerFree == eagerFree && blocks == [] && view == []
    {
      this.eagerFree := eagerFree;
      blocks, freeBufs, eagerBufs, order, view := [], {}, {}, [], [];
    }

    /** Free for a buffer without pending events. */
    method Return(buf: MemBuf, ghost k: nat)
      requires Filed() && Grouped(order) && k < |order| && order[k] == buf && !IsFree(buf.status)
      modifies this`freeBufs, this`order, this`view, Nodes(order)
      ensures Filed() && view == FreeAt(old(view), k, Idle) && Nodes(order) <= old(Nodes(order))
    {
      ghost var list;
      var filed;
      ghost var after := FreeAt(view, k, Idle);
      filed, list := FreeToIdle(buf, freeBufs, eagerBufs, order, view, k);
      freeBufs := filed;
      assert Exact(list, after, filed, eagerBufs, null);
      order, view := list, after;
    }

    method Mark(buf: MemBuf, ghost k: nat)
      requires Filed() && k < |order| && order[k] == buf && !IsFree(buf.status)
      modifies this`view, buf`status
      ensures Filed() && view == old(view)[k := old(view)[k].(status := UsedByEvent)]
    {
      ghost var after := view[k := view[k].(status := UsedByEvent)];
      buf.status := UsedByEvent;
      assert Exact(order, after, freeBufs, eagerBufs, null);
      view := after;
    }

    /** pending says that the buffer has events that have not arrived. */
    method Free(buf: MemBuf, pending: bool, ghost k: nat) returns (freed: bool)
      requires Valid() && k < |order| && order[k] == buf && !IsFree(buf.status)
      modifies this`freeBufs, this`order, this`view, Nodes(order)
      ensures Valid() && freed == !pending
      ensures freed ==> view == FreeAt(old(view), k, Idle) && Nodes(order) <= old(Nodes(order))
      ensures !freed ==> view == old(view)[k := old(view)[k].(status := UsedByEvent)] && order == old(order)
    {
      if pending {
        MarkedStaysTiled(view, blocks, k);
        Mark(buf, k);
        return false;
      }
      FreeKeepsShape(view, blocks, k, Idle);
      TiledIsGrouped(order, view, blocks);
      Return(buf, k);
      return true;
    }

    /** Take the best fit out of the idle set, or out of the other one. */
    method TakeBestFit(size: int) returns (c: MemBuf?, ghost k: nat)
      requires Valid()
      modifies this`freeBufs, this`eagerBufs
      ensures c == null ==> Filed() && NoneFits(view, Idle, size) && NoneFits(view, EagerFree, size)
      ensures c != null ==> Exact(order, view, freeBufs, eagerBufs, c) && k < |order| && order[k] == c
      ensures c != null ==>
                IsBestFit(view, Idle, size, k) || (NoneFits(view, Idle, size) && IsBestFit(view, EagerFree, size, k))
    {
      AddrsDistinct(order, view, blocks);
      var rest;
      c, rest, k := TakeFrom(freeBufs, Idle, size, order, view);
      if c != null {
        freeBufs := rest;
        return;
      }
      c, rest, k := TakeFrom(eagerBufs, EagerFree, size, order, view);
      eagerBufs := rest;
    }

    /** The candidate's memory is there, and it is handed out. */
    method SplitOff(candidate: MemBuf, size: int, ghost k: nat)
      requires Exact(order, view, freeBufs, eagerBufs, candidate) && k < |order| && order[k] == candidate
      requires IsFree(candidate.status)
      modifies this`freeBufs, this`eagerBufs, this`order, this`view, Nodes(order)
      ensures Filed() && fresh(Nodes(order) - old(Nodes(order)))
      ensures view == SplitAt(old(view), k, size) && k < |order| && order[k] == candidate
    {
      var idle, eager;
      ghost var list;
      idle, eager, list := SplitMemBuf(candidate, size, freeBufs, eagerBufs, order, view, k);
      Install(idle, eager, list, SplitAt(view, k, size));
    }

    /** Take over the sets that one of the methods above has computed. */
    method Install(idle: set<MemBuf>, eager: set<MemBuf>, ghost list: seq<MemBuf>, ghost after: seq<Buf>)
      requires Exact(list, after, idle, eager, null)
      modifies this`freeBufs, this`eagerBufs, this`order, this`view
      ensures Filed() && order == list && view == after && freeBufs == idle && eagerBufs == eager
    {
      freeBufs, eagerBufs, order, view := idle, eager, list, after;
    }

    /** The candidate goes back into the set it was taken from. */
    method PutBack(candidate: MemBuf)
      requires Exact(order, view, freeBufs, eagerBufs, candidate) && candidate in Nodes(order) && IsFree(candidate.status)
      modifies this`freeBufs, this`eagerBufs
      ensures Filed()
    {
      if candidate.status == Idle {
        freeBufs := freeBufs + {candidate};
      } else {
        eagerBufs := eagerBufs + {candidate};
      }
    }

    /** Map the candidate if its memory may be unmapped, and hand it out. */
    method MapAndSplitMemBuf(candidate: MemBuf, size: int, ghost k: nat) returns (r: MemBuf?, ghost mapped: int)
      requires Exact(order, view, freeBufs, eagerBufs, candidate) && k < |order| && order[k] == candidate
      requires IsFree(candidate.status)
      modifies this`freeBufs, this`eagerBufs, this`order, this`view, Nodes(order)
      ensures Filed() && fresh(Nodes(order) - old(Nodes(order)))
      ensures r == null <==> Refused(old(view)[k], size, mapped)
      ensures r == null ==> order == old(order) && view == old(view)
      ensures r != null ==> r == candidate && view == SplitAt(old(view), k, size) && k < |order| && order[k] == r
    {
      assert Mirrors(order[k], view[k]);
      mapped := 0;
      if candidate.status == EagerFree {
        var mapSize := MapSize(candidate.size, size);
        var answer := MemMapper(mapSize, candidate.addr);
        mapped := answer;
        if answer != mapSize {
          PutBack(candidate);
          return null, mapped;
        }
      }
      SplitOff(candidate, size, k);
      return candidate, mapped;
    }

    /** A new buffer for a new block, linked to nothing and in no set yet. */
    method Adopt(block: Range) returns (candidate: MemBuf)
      requires Filed() && (forall i :: 0 <= i < |order| ==> order[i].block < |blocks|)
      modifies this`order, this`view, this`blocks
      ensures Exact(order, view, freeBufs, eagerBufs, candidate) && fresh(candidate)
      ensures order == old(order) + [candidate] && Nodes(order) == old(Nodes(order)) + {candidate}
      ensures blocks == old(blocks) + [block]
      ensures view == Expand(old(view), old(blocks), block, if eagerFree then EagerFree else Idle)
    {
      var status := if eagerFree then EagerFree else Idle;
      candidate := NewBuf(Buf(block.addr, block.size, status, |blocks|), freeBufs, eagerBufs, order, view);
      blocks, order, view := blocks + [block], order + [candidate], Expand(view, blocks, block, status);
    }

    /** Hand out the buffer of a new block, or file it if it is too small. */
    method UseNew(candidate: MemBuf, size: int, ghost k: nat) returns (r: MemBuf?, ghost mapped: int)
      requires Exact(order, view, freeBufs, eagerBufs, candidate) && k < |order| && order[k] == candidate
      requires IsFree(candidate.status)
      modifies this`freeBufs, this`eagerBufs, this`order, this`view, Nodes(order)
      ensures Filed() && fresh(Nodes(order) - old(Nodes(order)))
      ensures r == null <==> old(view)[k].size < size || Refused(old(view)[k], size, mapped)
      ensures r == null ==> view == old(view)
      ensures r != null ==> view == SplitAt(old(view), k, size)
      ensures r != null ==> r == candidate && k < |order| && order[k] == r
    {
      assert Mirrors(order[k], view[k]);
      if candidate.size < size {
        PutBack(candidate);
        return null, 0;
      }
      r, mapped := MapAndSplitMemBuf(candidate, size, k);
    }

    method MallocFromBlock(size: int, block: Range) returns (r: MemBuf?, ghost mapped: int)
      requires Filed() && (forall i :: 0 <= i < |order| ==> order[i].block < |blocks|)
      modifies this`freeBufs, this`eagerBufs, this`order, this`view, this`blocks, Nodes(order)
      ensures Filed() && fresh(Nodes(order) - old(Nodes(order))) && blocks == old(blocks) + [block]
      ensures r == null <==> block.size < size || (eagerFree && mapped != MapSize(block.size, size))
      ensures r == null ==> view == Expand(old(view), old(blocks), block, if eagerFree then EagerFree else Idle)
      ensures r != null ==>
                && view == SplitAt(Expand(old(view), old(blocks), block, if eagerFree then EagerFree else Idle), |old(view)|, size)
                && |old(view)| < |order| && order[|old(view)|] == r
    {
      ghost var k := |view|;
      var candidate := Adopt(block);
      r, mapped := UseNew(candidate, size, k);
    }

    /** answer is what mem_block_expander_ returns for the size: a block, or nothing. */
    method MallocExpandBlock(size: int, answer: Option<Range>) returns (r: MemBuf?, ghost mapped: int)
      requires Valid() && size > 0
      requires answer.Some? ==> answer.value.size > 0 && BlocksDisjoint(blocks + [answer.value])
      modifies this`freeBufs, this`eagerBufs, this`order, this`view, this`blocks, Nodes(order)
      ensures Valid() && fresh(Nodes(order) - old(Nodes(order)))
      ensures answer == None ==> r == null && view == old(view) && blocks == old(blocks) && order == old(order)
      ensures answer.Some? ==> blocks == old(blocks) + [answer.value]
      ensures answer.Some? ==>
                var expanded := Expand(old(view), old(blocks), answer.value, if eagerFree then EagerFree else Idle);
                var k := |old(view)|;
                && (r == null <==> answer.value.size < size || (eagerFree && mapped != MapSize(answer.value.size, size)))
                && (r == null ==> view == expanded)
                && (r != null ==> view == SplitAt(expanded, k, size) && k < |order| && order[k] == r)
    {
      if answer == None { return null, 0; }
      BlocksInRange(order, view, blocks);
      ExpandKeepsShape(view, blocks, answer.value, if eagerFree then EagerFree else Idle, size);
      r, mapped := MallocFromBlock(size, answer.value);
    }

    /** Malloc, when there is a block already. */
    method MallocFit(size: int) returns (r: MemBuf?, ghost k: nat, ghost mapped: int)
      requires Valid() && size > 0
      modifies this`freeBufs, this`eagerBufs, this`order, this`view, Nodes(order)
      ensures Valid() && fresh(Nodes(order) - old(Nodes(order)))
      ensures r == null ==> view == old(view) && NoneFits(view, Idle, size)
      ensures r == null ==> NoneFits(view, EagerFree, size) || (IsBestFit(view, EagerFree, size, k) && Refused(view[k], size, mapped))
      ensures r != null ==> IsBestFit(old(view), Idle, size, k) ||
                            (NoneFits(old(view), Idle, size) && IsBestFit(old(view), EagerFree, size, k))
      ensures r != null ==> view == SplitAt(old(view), k, size) && k < |order| && order[k] == r
    {
      var candidate;
      candidate, k := TakeBestFit(size);
      if candidate == null { return null, k, 0; }
      SplitKeepsShape(view, blocks, k, size);
      r, mapped := MapAndSplitMemBuf(candidate, size, k);
    }

    /** The best fit among the idle buffers, or else among the released ones, is handed out. */
    method Malloc(size: int, answer: Option<Range>) returns (r: MemBuf?, ghost k: nat, ghost mapped: int)
      requires Valid() && size > 0
      requires answer.Some? ==> answer.value.size > 0 && BlocksDisjoint(blocks + [answer.value])
      modifies this`freeBufs, this`eagerBufs, this`order, this`view, this`blocks, Nodes(order)
      ensures Valid() && fresh(Nodes(order) - old(Nodes(order)))
      ensures old(blocks) != [] ==> blocks == old(blocks)
      ensures old(blocks) != [] && r == null ==>
                view == old(view) && NoneFits(view, Idle, size) &&
                (NoneFits(view, EagerFree, size) || (IsBestFit(view, EagerFree, size, k) && Refused(view[k], size, mapped)))
      ensures old(blocks) != [] && r != null ==>
                (IsBestFit(old(view), Idle, size, k) ||
                 (NoneFits(old(view), Idle, size) && IsBestFit(old(view), EagerFree, size, k)))
      ensures old(blocks) != [] && r != null ==> view == SplitAt(old(view), k, size) && k < |order| && order[k] == r
      ensures old(blocks) == [] ==> if answer == None then r == null && view == [] && blocks == [] else blocks == [answer.value]
      ensures old(blocks) == [] && answer.Some? ==>
                (r == null <==> answer.value.size < size || (eagerFree && mapped != MapSize(answer.value.size, size)))
      ensures old(blocks) == [] && answer.Some? && r == null ==>
                view == [Buf(answer.value.addr, answer.value.size, if eagerFree then EagerFree else Idle, 0)]
      ensures old(blocks) == [] && r != null ==>
                answer.Some? && k == 0 && k < |order| && order[k] == r &&
                view == SplitAt([Buf(answer.value.addr, answer.value.size, if eagerFree then EagerFree else Idle, 0)], 0, size)
    {
      k := 0;
      if blocks == [] {
        r, mapped := MallocExpandBlock(size, answer);
      } else {
        r, k, mapped := MallocFit(size);
      }
    }

    /** One round of the loop below. */
    method ReleaseOne(buf: MemBuf, ghost idle: set<MemBuf>, ghost k: nat)
      requires Exact(order, view, idle, eagerBufs, null) && Grouped(order) && k < |order| && order[k] == buf
      requires buf.status == Idle
      modifies this`eagerBufs, this`order, this`view, Nodes(order)
      ensures Exact(order, view, idle - {buf}, eagerBufs, null)
      ensures view == FreeAt(old(view), k, EagerFree) && Nodes(order) <= old(Nodes(order))
    {
      ghost var list;
      var filed;
      ghost var after := FreeAt(view, k, EagerFree);
      filed, list := FreeToEager(buf, idle, eagerBufs, order, view, k);
      eagerBufs := filed;
      assert Exact(list, after, idle - {buf}, filed, null);
      order, view := list, after;
    }

    method ReleaseNext(buf: MemBuf, ghost idle: set<MemBuf>)
      requires Exact(order, view, idle, eagerBufs, null) && Tiled(view, blocks) && Coalesced(view) && buf in idle
      modifies this`eagerBufs, this`order, this`view, Nodes(order)
      ensures Exact(order, view, idle - {buf}, eagerBufs, null) && Tiled(view, blocks) && Coalesced(view)
      ensures Nodes(order) <= old(Nodes(order))
      ensures InUse(view) == InUse(old(view))
      ensures SizeOf(view, Idle) == SizeOf(old(view), Idle) - old(buf.size)
    {
      ghost var k := IdleAt(order, view, idle, eagerBufs, buf);
      ReleaseSparesInUse(view, k);
      FreeKeepsShape(view, blocks, k, EagerFree);
      TiledIsGrouped(order, view, blocks);
      ReleaseOne(buf, idle, k);
    }

    /**
      Every idle buffer becomes an eager-free one, merged with its neighbours of that
      kind; the buffers in use stay as they are.  freedSize is the idle memory there was.
      */
    method FreeIdleMemsByEagerFree() returns (freedSize: int)
      requires Valid()
      modifies this`freeBufs, this`eagerBufs, this`order, this`view, Nodes(order)
      ensures Valid() && blocks == old(blocks) && Nodes(order) <= old(Nodes(order))
      ensures freeBufs == {} && forall i :: 0 <= i < |view| ==> view[i].status != Idle
      ensures InUse(view) == InUse(old(view)) && freedSize == SizeOf(old(view), Idle)
    {
      freedSize := 0;
      var todo := freeBufs;
      while exists b :: b in todo
        invariant Exact(order, view, todo, eagerBufs, null) && Tiled(view, blocks) && Coalesced(view)
        invariant Nodes(order) <= old(Nodes(order))
        invariant InUse(view) == InUse(old(view)) && freedSize + SizeOf(view, Idle) == SizeOf(old(view), Idle)
        decreases todo
      {
        var buf :| buf in todo;
        freedSize := freedSize + buf.size;
        ReleaseNext(buf, todo);
        todo := todo - {buf};
      }
      NoIdleLeft(order, view, todo, eagerBufs);
      freeBufs := {};
    }
  }

  lemma IdleAt(order: seq<MemBuf>, view: seq<Buf>, idle: set<MemBuf>, eager: set<MemBuf>, buf: MemBuf) returns (k: nat)
    requires Exact(order, view, idle, eager, null) && buf in idle
    ensures k < |order| && order[k] == buf && view[k].status == Idle && view[k].size == buf.size
  {
    k :| 0 <= k < |order| && order[k] == buf;
    assert Mirrors(order[k], view[k]);
  }

  lemma NoIdleLeft(order: seq<MemBuf>, view: seq<Buf>, idle: set<MemBuf>, eager: set<MemBuf>)
    requires Exact(order, view, idle, eager, null) && !exists b :: b in idle
    ensures (forall i :: 0 <= i < |view| ==> view[i].status != Idle) && SizeOf(view, Idle) == 0
    ensures Exact(order, view, {}, eager, null)
  {
    forall i | 0 <= i < |view| ensures view[i].status != Idle {
      assert Mirrors(order[i], view[i]) && order[i] in Nodes(order);
    }
    if view != [] { SizeOfOthers(view, 0, Idle); }
  }

  lemma BlocksInRange(order: seq<MemBuf>, view: seq<Buf>, blocks: seq<Range>)
    requires Shows(order, view) && Tiled(view, blocks)
    ensures forall i :: 0 <= i < |order| ==> order[i].block < |blocks|
  {
    forall i | 0 <= i < |order| ensures order[i].block < |blocks| { assert Mirrors(order[i], view[i]); }
  }

  lemma ExpandKeepsShape(view: seq<Buf>, blocks: seq<Range>, block: Range, status: Status, size: int)
    requires Tiled(view, blocks) && Coalesced(view) && block.size > 0
    ensures var r := Expand(view, blocks, block, status);
            && Tiled(r, blocks + [block]) && Coalesced(r)
            && (0 < size <= block.size ==> Tiled(SplitAt(r, |view|, size), blocks + [block]) && Coalesced(SplitAt(r, |view|, size)))
  {
    ExpandTiled(view, blocks, block, status);
    if 0 < size <= block.size { SplitKeepsShape(Expand(view, blocks, block, status), blocks + [block], |view|, size); }
  }

  lemma SplitKeepsShape(view: seq<Buf>, blocks: seq<Range>, k: nat, size: int)
    requires Tiled(view, blocks) && Coalesced(view) && k < |view| && 0 < size <= view[k].size
    ensures Tiled(SplitAt(view, k, size), blocks) && Coalesced(SplitAt(view, k, size))
  {
    SplitRetiles(view, blocks, k, size);
    SplitKeepsCoalesced(view, k, size);
  }

  lemma FreeKeepsShape(view: seq<Buf>, blocks: seq<Range>, k: nat, target: Status)
    requires Tiled(view, blocks) && Coalesced(view) && k < |view| && IsFree(target)
    ensures Tiled(FreeAt(view, k, target), blocks) && Coalesced(FreeAt(view, k, target))
  {
    FreeRetiles(view, blocks, k, target);
    FreeKeepsCoalesced(view, blocks, k, target);
  }

}
