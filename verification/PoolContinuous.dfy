/** Continuous allocation for the whole pool: when it leaves memory and ledger in order. */
module PoolContinuous {
  import opened Buffers
  import opened Vmm
  import opened PoolInvariant
  import opened PoolBooks
  import opened PoolCutting
  import CA = ContinuousAlloc

  predicate Positive(sizes: seq<nat>) {
    |sizes| > 0 && forall j :: 0 <= j < |sizes| ==> sizes[j] > 0
  }

  /** A single piece keeps the whole buffer; several have to use it up. */
  predicate UsesUp(b: Buf, sizes: seq<nat>) {
    |sizes| == 1 || CA.Sum(sizes) == b.size
  }

  /** The buffers that b becomes. */
  function PiecesOf(b: Buf, sizes: seq<nat>): (r: seq<Buf>)
    ensures |r| == |sizes|
  {
    if |sizes| == 1 then [b] else CA.Laid(b.addr, b.block, sizes)
  }

  lemma PiecesCut(b: Buf, sizes: seq<nat>)
    requires b.status == Used && b.size > 0 && Positive(sizes) && UsesUp(b, sizes)
    ensures Cuts(b, PiecesOf(b, sizes))
  {
    if |sizes| > 1 { CA.LaidEnds(b.addr, b.block, sizes); }
  }

  function Starts(pieces: seq<Buf>): (r: seq<int>)
    ensures |r| == |pieces| && forall j :: 0 <= j < |r| ==> r[j] == pieces[j].addr
  {
    seq(|pieces|, j requires 0 <= j < |pieces| => pieces[j].addr)
  }

  /** Allocator i has the pieces in place of the buffer at k. */
  function CutIn(allocs: seq<Allocator>, i: nat, k: nat, pieces: seq<Buf>): seq<Allocator>
    requires i < |allocs| && k < |allocs[i].bufs|
  {
    WithBufs(allocs, i, Replace(allocs[i].bufs, k, k + 1, pieces))
  }

  /** One of the pieces that are not idle starts there. */
  predicate StartsAt(pieces: seq<Buf>, a: int) {
    exists j :: 0 <= j < |pieces| && pieces[j].status != Idle && pieces[j].addr == a
  }

  /** In allocator, table and nothing else b has been replaced by its pieces, which are listed for the same allocator. */
  ghost predicate CutAs(allocs: seq<Allocator>, l: Ledger, was: seq<Allocator>, wasL: Ledger, b: Buf, pieces: seq<Buf>) {
    && b.addr in wasL.table && wasL.table[b.addr] < |was|
    && var i := wasL.table[b.addr];
       && (exists k: nat {:trigger was[i].bufs[k]} :: k < |was[i].bufs| && was[i].bufs[k] == b && allocs == CutIn(was, i, k, pieces))
       && l == wasL.(table := l.table)
       && forall a :: if StartsAt(pieces, a)
                      then a in l.table && l.table[a] == i
                      else (a in l.table <==> a in wasL.table) && (a in wasL.table ==> l.table[a] == wasL.table[a])
  }

  lemma TableOfCut(allocs: seq<Allocator>, l: Ledger, was: seq<Allocator>, wasL: Ledger, b: Buf, pieces: seq<Buf>, i: nat, k: nat)
    requires b.addr in wasL.table && i == wasL.table[b.addr] < |was| && k < |was[i].bufs| && was[i].bufs[k] == b
    requires allocs == CutIn(was, i, k, pieces) && l == wasL.(table := TableWith(wasL.table, NotIdle(pieces), i))
    ensures CutAs(allocs, l, was, wasL, b, pieces)
  {
    forall a ensures StartsAt(pieces, a) <==> a in l.table && a in TableWith(map[], NotIdle(pieces), i) {
      if StartsAt(pieces, a) {
        var j :| 0 <= j < |pieces| && pieces[j].status != Idle && pieces[j].addr == a;
        assert pieces[j] in NotIdle(pieces);
      }
    }
  }

  /** If the pieces do not use up the buffer, the list of its allocator has a gap. */
  lemma SlackLeavesGap(pages: PageMap, allocs: seq<Allocator>, i: nat, k: nat, sizes: seq<nat>)
    requires Laid(pages, allocs) && i < |allocs| && k < |allocs[i].bufs| && Positive(sizes) && !UsesUp(allocs[i].bufs[k], sizes)
    ensures !Laid(pages, CutIn(allocs, i, k, PiecesOf(allocs[i].bufs[k], sizes)))
  {
    var a := allocs[i];
    var r := CutIn(allocs, i, k, PiecesOf(a.bufs[k], sizes));
    assert Shaped(a);
    CA.CutTilesIff(a.bufs, a.blocks, k, sizes);
    assert !Shaped(r[i]);
  }

  /** The buffer handed out at the address is cut, and its pieces are listed. */
  method CutHanded(allocs: seq<Allocator>, l: Ledger, addr: int, sizes: seq<nat>, ghost pages: PageMap, ghost home: map<int, Pair>,
                   ghost b: Buf)
    returns (allocs': seq<Allocator>, l': Ledger, addrs: seq<int>)
    requires Sound(pages, allocs, l, home, {}) && b in AllInUse(allocs) && b.addr == addr && b.status == Used && Positive(sizes)
    ensures addrs == Starts(PiecesOf(b, sizes))
    ensures UsesUp(b, sizes) ==> Sound(pages, allocs', l', home, {}) && AllInUse(allocs') == AllInUse(allocs) - {b} + NotIdle(PiecesOf(b, sizes))
    ensures !UsesUp(b, sizes) ==> !Laid(pages, allocs')
    ensures l'.events == l.events && l'.pairs == l.pairs && l'.used == l.used
    ensures CutAs(allocs', l', allocs, l, b, PiecesOf(b, sizes))
  {
    FindInUse(pages, allocs, l.table, b);
    var i := l.table[addr];
    var k := IndexOf(allocs[i].bufs, addr);
    var pieces := CA.CutContinuous(allocs[i].bufs[k], sizes);
    if UsesUp(b, sizes) {
      InUseApart(pages, allocs);
      PiecesCut(b, sizes);
      CutKeepsSound(pages, allocs, l, home, i, k, pieces);
    } else {
      SlackLeavesGap(pages, allocs, i, k, sizes);
    }
    allocs' := CutIn(allocs, i, k, pieces);
    l' := l.(table := TableWith(l.table, NotIdle(pieces), i));
    addrs := Starts(pieces);
    TableOfCut(allocs', l', allocs, l, b, pieces, i, k);
  }

  /** The size of the buffer is between the aligned sum and 512 bytes more: a sum that is not aligned leaves slack. */
  lemma OddSumLeavesSlack(b: Buf, sizes: seq<nat>)
    requires |sizes| > 1 && CA.Sum(sizes) % ALIGN_SIZE != 0 && AlignMemorySize(CA.Sum(sizes)) <= b.size
    ensures !UsesUp(b, sizes)
  {
  }
}
