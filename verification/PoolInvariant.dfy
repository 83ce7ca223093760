/**
  What holds between the allocators of the pool, the address table and the page map of
  the virtual-memory adapter, and how single changes keep it.
  */
module PoolInvariant {
  import opened Buffers
  import opened Vmm

  datatype Key = Key(persistent: bool, stream: nat)

  datatype Allocator = Allocator(key: Key, bufs: seq<Buf>, blocks: seq<Range>)

  // ------------------------------------------------------- blocks and pages

  predicate Shaped(a: Allocator) {
    Tiled(a.bufs, a.blocks) && BlocksDisjoint(a.blocks) && Coalesced(a.bufs)
  }

  /** The block consists of whole pages that exist. */
  ghost predicate Reserved(pages: PageMap, block: Range) {
    block.size > 0 && block.addr % PAGE == 0 && block.End() % PAGE == 0 && Covers(pages, block.addr, block.End())
  }

  ghost predicate AllReserved(pages: PageMap, blocks: seq<Range>) {
    forall j :: 0 <= j < |blocks| ==> Reserved(pages, blocks[j])
  }

  ghost predicate AllApart(a: seq<Range>, b: seq<Range>) {
    forall i, j {:trigger Apart(a[i], b[j])} :: 0 <= i < |a| && 0 <= j < |b| ==> Apart(a[i], b[j])
  }

  ghost predicate Laid(pages: PageMap, allocs: seq<Allocator>) {
    && (forall i :: 0 <= i < |allocs| ==> Shaped(allocs[i]) && AllReserved(pages, allocs[i].blocks))
    && (forall i, j {:trigger AllApart(allocs[i].blocks, allocs[j].blocks)} ::
          0 <= i < |allocs| && 0 <= j < |allocs| && i != j ==> AllApart(allocs[i].blocks, allocs[j].blocks))
  }

  lemma BufsApart(pages: PageMap, allocs: seq<Allocator>, i: nat, k: nat, j: nat, l: nat)
    requires Laid(pages, allocs) && i < |allocs| && j < |allocs|
    requires k < |allocs[i].bufs| && l < |allocs[j].bufs| && (i != j || k != l)
    ensures allocs[i].bufs[k].End() <= allocs[j].bufs[l].addr || allocs[j].bufs[l].End() <= allocs[i].bufs[k].addr
  {
    var a, b := allocs[i], allocs[j];
    InBlock(a.bufs, a.blocks, k);
    InBlock(b.bufs, b.blocks, l);
    if i == j {
      if k < l { TiledIsOrdered(a.bufs, a.blocks, k, l); } else { TiledIsOrdered(a.bufs, a.blocks, l, k); }
    } else {
      assert AllApart(a.blocks, b.blocks);
      assert Apart(a.blocks[a.bufs[k].block], b.blocks[b.bufs[l].block]);
    }
  }

  // ------------------------------------------------------------ the backing

  /** Memory that is in use or idle is mapped; only eager-free memory may be unmapped. */
  ghost predicate BufBacked(pages: PageMap, b: Buf) {
    b.status != EagerFree ==> BytesBacked(pages, b.addr, b.End())
  }

  ghost predicate AllBacked(pages: PageMap, bufs: seq<Buf>) {
    forall k :: 0 <= k < |bufs| ==> BufBacked(pages, bufs[k])
  }

  ghost predicate Backs(pages: PageMap, allocs: seq<Allocator>) {
    forall i :: 0 <= i < |allocs| ==> AllBacked(pages, allocs[i].bufs)
  }

  /** A merge into an idle buffer joins backed memory. */
  lemma FreeStaysBacked(pages: PageMap, bufs: seq<Buf>, blocks: seq<Range>, k: nat)
    requires Tiled(bufs, blocks) && AllBacked(pages, bufs) && k < |bufs| && !IsFree(bufs[k].status)
    ensures AllBacked(pages, FreeAt(bufs, k, Idle))
  {
    var lo, hi, m := MergeLow(bufs, k, Idle), MergeHigh(bufs, k, Idle), Merged(bufs, k, Idle);
    FreeRetiles(bufs, blocks, k, Idle);
    assert BufBacked(pages, bufs[k]) && BufBacked(pages, bufs[lo]) && BufBacked(pages, bufs[hi - 1]);
    if lo < k { assert Joint(bufs[lo], bufs[k], blocks); }
    if hi == k + 2 { assert Joint(bufs[k], bufs[k + 1], blocks); }
    forall x | m.addr <= x < m.End() ensures ByteBacked(pages, x) {
      assert bufs[lo].Contains(x) || bufs[k].Contains(x) || bufs[hi - 1].Contains(x);
    }
    var r := FreeAt(bufs, k, Idle);
    forall i | 0 <= i < |r| ensures BufBacked(pages, r[i]) {
      if i < lo { assert r[i] == bufs[i]; } else if i > lo { assert r[i] == bufs[i - 1 + hi - lo]; }
    }
  }

  /** What is handed out has been idle or has just been mapped. */
  lemma SplitStaysBacked(pages: PageMap, bufs: seq<Buf>, k: nat, size: int)
    requires AllBacked(pages, bufs) && k < |bufs| && 0 < size <= bufs[k].size
    requires BytesBacked(pages, bufs[k].addr, Pieces(bufs[k], size)[0].End())
    ensures AllBacked(pages, SplitAt(bufs, k, size))
  {
    var r, p := SplitAt(bufs, k, size), Pieces(bufs[k], size);
    assert BufBacked(pages, bufs[k]);
    forall i | 0 <= i < |r| ensures BufBacked(pages, r[i]) {
      if i < k { assert r[i] == bufs[i]; }
      else if i < k + |p| { assert r[i] == p[i - k]; }
      else { assert r[i] == bufs[i + 1 - |p|]; }
    }
  }

  lemma MapKeepsBacks(pages: PageMap, was: PageMap, backed: set<int>, allocs: seq<Allocator>)
    requires Ahead(pages, was, backed) && Backs(was, allocs) && Laid(was, allocs)
    ensures Backs(pages, allocs) && Laid(pages, allocs)
  {
    forall i, k | 0 <= i < |allocs| && 0 <= k < |allocs[i].bufs| ensures BufBacked(pages, allocs[i].bufs[k]) {
      var b := allocs[i].bufs[k];
      assert AllBacked(was, allocs[i].bufs) && BufBacked(was, b);
      if b.status != EagerFree { AheadKeepsBacked(pages, was, backed, b.addr, b.End()); }
    }
    SamePagesLaid(pages, was, allocs);
  }

  lemma SamePagesLaid(pages: PageMap, was: PageMap, allocs: seq<Allocator>)
    requires was.Keys <= pages.Keys && Laid(was, allocs)
    ensures Laid(pages, allocs)
  {
    forall i | 0 <= i < |allocs| ensures AllReserved(pages, allocs[i].blocks) {
      assert AllReserved(was, allocs[i].blocks);
      forall j | 0 <= j < |allocs[i].blocks| ensures Reserved(pages, allocs[i].blocks[j]) {
        assert Reserved(was, allocs[i].blocks[j]);
      }
    }
  }

  /** Releasing the pages inside one eager-free buffer takes nothing from any other buffer. */
  lemma EagerFreeKeepsBacks(pages: PageMap, was: PageMap, freed: set<int>, allocs: seq<Allocator>, i: nat, k: nat)
    requires Laid(was, allocs) && Backs(was, allocs)
    requires i < |allocs| && k < |allocs[i].bufs| && allocs[i].bufs[k].status == EagerFree
    requires Ahead(was, pages, freed) && freed <= BackedInside(was, allocs[i].bufs[k].addr, allocs[i].bufs[k].End())
    ensures Laid(pages, allocs) && Backs(pages, allocs)
  {
    var e := allocs[i].bufs[k];
    forall j, l | 0 <= j < |allocs| && 0 <= l < |allocs[j].bufs| ensures BufBacked(pages, allocs[j].bufs[l]) {
      var b := allocs[j].bufs[l];
      assert AllBacked(was, allocs[j].bufs) && BufBacked(was, b);
      if b.status != EagerFree {
        BufsApart(was, allocs, i, k, j, l);
        EagerFreeSparesOthers(pages, was, freed, e.addr, e.End(), b.addr, b.End());
      }
    }
    SamePagesLaid(pages, was, allocs);
  }

  // --------------------------------------------------- changing one allocator

  function WithBufs(allocs: seq<Allocator>, i: nat, bufs: seq<Buf>): seq<Allocator>
    requires i < |allocs|
  {
    allocs[i := allocs[i].(bufs := bufs)]
  }

  lemma WithBufsLaid(pages: PageMap, allocs: seq<Allocator>, i: nat, bufs: seq<Buf>)
    requires Laid(pages, allocs) && i < |allocs| && Tiled(bufs, allocs[i].blocks) && Coalesced(bufs)
    ensures Laid(pages, WithBufs(allocs, i, bufs))
  {
    var r := WithBufs(allocs, i, bufs);
    forall j | 0 <= j < |r| ensures Shaped(r[j]) && AllReserved(pages, r[j].blocks) {
      assert Shaped(allocs[j]) && AllReserved(pages, allocs[j].blocks);
    }
    forall j, l | 0 <= j < |r| && 0 <= l < |r| && j != l ensures AllApart(r[j].blocks, r[l].blocks) {
      assert AllApart(allocs[j].blocks, allocs[l].blocks);
    }
  }

  lemma WithBufsBacked(pages: PageMap, allocs: seq<Allocator>, i: nat, bufs: seq<Buf>)
    requires Backs(pages, allocs) && i < |allocs| && AllBacked(pages, bufs)
    ensures Backs(pages, WithBufs(allocs, i, bufs))
  {
    var r := WithBufs(allocs, i, bufs);
    forall j | 0 <= j < |r| ensures AllBacked(pages, r[j].bufs) {
      assert AllBacked(pages, allocs[j].bufs);
    }
  }

  /** A new allocator has no blocks yet. */
  lemma NewAllocatorLaid(pages: PageMap, allocs: seq<Allocator>, key: Key)
    requires Laid(pages, allocs) && Backs(pages, allocs)
    ensures var r := allocs + [Allocator(key, [], [])]; Laid(pages, r) && Backs(pages, r)
  {
    var r := allocs + [Allocator(key, [], [])];
    forall j | 0 <= j < |r| ensures Shaped(r[j]) && AllReserved(pages, r[j].blocks) && AllBacked(pages, r[j].bufs) {
      if j < |allocs| { assert Shaped(allocs[j]) && AllReserved(pages, allocs[j].blocks) && AllBacked(pages, allocs[j].bufs); }
    }
    forall j, l | 0 <= j < |r| && 0 <= l < |r| && j != l ensures AllApart(r[j].blocks, r[l].blocks) {
      if j < |allocs| && l < |allocs| { assert AllApart(allocs[j].blocks, allocs[l].blocks); }
    }
  }

  /** What AllocDeviceMem promises: old pages stay, the new ones lie behind them. */
  ghost predicate Grown(pages: PageMap, was: PageMap, block: Range) {
    && (forall a :: a in was ==> a in pages && pages[a] == was[a] && a + PAGE <= block.addr)
    && Reserved(pages, block)
  }

  lemma OldBlocksBefore(pages: PageMap, was: PageMap, block: Range, old': Range)
    requires Grown(pages, was, block) && Reserved(was, old')
    ensures old'.End() <= block.addr
  {
    var last := old'.End() - PAGE;
    NextPage(old'.addr, old'.End());
    assert last % PAGE == 0 && last in was;
  }

  lemma GrowKeepsBacks(pages: PageMap, was: PageMap, allocs: seq<Allocator>)
    requires forall a :: a in was ==> a in pages && pages[a] == was[a]
    requires Laid(was, allocs) && Backs(was, allocs)
    ensures Laid(pages, allocs) && Backs(pages, allocs)
  {
    assert forall a :: a in was.Keys ==> a in pages.Keys;
    SamePagesLaid(pages, was, allocs);
    forall i, k | 0 <= i < |allocs| && 0 <= k < |allocs[i].bufs| ensures BufBacked(pages, allocs[i].bufs[k]) {
      var b := allocs[i].bufs[k];
      assert AllBacked(was, allocs[i].bufs) && BufBacked(was, b);
      forall x | b.status != EagerFree && b.Contains(x) ensures ByteBacked(pages, x) { assert ByteBacked(was, x); }
    }
  }

  lemma ReserveKeepsBacks(pages: PageMap, was: PageMap, block: Range, allocs: seq<Allocator>)
    requires Grown(pages, was, block) && Laid(was, allocs) && Backs(was, allocs)
    ensures Laid(pages, allocs) && Backs(pages, allocs)
    ensures forall i :: 0 <= i < |allocs| ==> AllApart(allocs[i].blocks, [block]) && AllApart([block], allocs[i].blocks)
  {
    GrowKeepsBacks(pages, was, allocs);
    forall i, j | 0 <= i < |allocs| && 0 <= j < |allocs[i].blocks| ensures Apart(allocs[i].blocks[j], block) {
      assert AllReserved(was, allocs[i].blocks);
      OldBlocksBefore(pages, was, block, allocs[i].blocks[j]);
    }
  }

  function WithBlock(allocs: seq<Allocator>, i: nat, block: Range): seq<Allocator>
    requires i < |allocs|
  {
    var a := allocs[i];
    allocs[i := a.(bufs := Expand(a.bufs, a.blocks, block, EagerFree), blocks := a.blocks + [block])]
  }

  lemma WithBlockLaid(pages: PageMap, allocs: seq<Allocator>, i: nat, block: Range)
    requires Laid(pages, allocs) && Backs(pages, allocs) && i < |allocs| && Reserved(pages, block)
    requires forall j :: 0 <= j < |allocs| ==> AllApart(allocs[j].blocks, [block]) && AllApart([block], allocs[j].blocks)
    ensures Laid(pages, WithBlock(allocs, i, block)) && Backs(pages, WithBlock(allocs, i, block))
  {
    var r, a := WithBlock(allocs, i, block), allocs[i];
    assert Shaped(a) && AllReserved(pages, a.blocks) && AllBacked(pages, a.bufs);
    ExpandTiled(a.bufs, a.blocks, block, EagerFree);
    forall x, y | 0 <= x < y < |r[i].blocks|
      ensures r[i].blocks[x].End() <= r[i].blocks[y].addr || r[i].blocks[y].End() <= r[i].blocks[x].addr
    {
      if y == |a.blocks| { assert Apart(a.blocks[x], [block][0]); }
    }
    forall j | 0 <= j < |r| ensures Shaped(r[j]) && AllReserved(pages, r[j].blocks) && AllBacked(pages, r[j].bufs) {
      assert Shaped(allocs[j]) && AllReserved(pages, allocs[j].blocks) && AllBacked(pages, allocs[j].bufs);
    }
    forall j, l | 0 <= j < |r| && 0 <= l < |r| && j != l ensures AllApart(r[j].blocks, r[l].blocks) {
      assert AllApart(allocs[j].blocks, allocs[l].blocks);
      forall x, y | 0 <= x < |r[j].blocks| && 0 <= y < |r[l].blocks| ensures Apart(r[j].blocks[x], r[l].blocks[y]) {
        if j == i && x == |a.blocks| { assert Apart([block][0], allocs[l].blocks[y]); }
        if l == i && y == |a.blocks| { assert Apart(allocs[j].blocks[x], [block][0]); }
      }
    }
  }

  // --------------------------------------------------------- what is in use

  lemma InUseConcat(a: seq<Buf>, b: seq<Buf>)
    ensures InUse(a + b) == InUse(a) + InUse(b)
  {
    forall x | x in InUse(a) + InUse(b) ensures x in InUse(a + b) {
      if x in InUse(a) {
        var k :| 0 <= k < |a| && a[k] == x && !IsFree(x.status);
        assert (a + b)[k] == x;
      } else {
        var k :| 0 <= k < |b| && b[k] == x && !IsFree(x.status);
        assert (a + b)[|a| + k] == x;
      }
    }
  }

  function UsedBytes(bufs: seq<Buf>): int {
    SizeOf(bufs, Used) + SizeOf(bufs, UsedByEvent)
  }

  lemma UsedBytesReplace(bufs: seq<Buf>, lo: nat, hi: nat, mid: seq<Buf>)
    requires lo <= hi <= |bufs|
    ensures UsedBytes(Replace(bufs, lo, hi, mid)) == UsedBytes(bufs) - UsedBytes(bufs[lo..hi]) + UsedBytes(mid)
    ensures InUse(Replace(bufs, lo, hi, mid)) == InUse(bufs[..lo]) + InUse(mid) + InUse(bufs[hi..])
  {
    SizeOfReplace(bufs, lo, hi, mid, Used);
    SizeOfReplace(bufs, lo, hi, mid, UsedByEvent);
    InUseConcat(bufs[..lo] + mid, bufs[hi..]);
    InUseConcat(bufs[..lo], mid);
  }

  /** A buffer of a tiling occurs once in it. */
  lemma InUseOnce(bufs: seq<Buf>, blocks: seq<Range>, k: nat)
    requires Tiled(bufs, blocks) && k < |bufs|
    ensures bufs[k] !in InUse(bufs[..k]) && bufs[k] !in InUse(bufs[k + 1..])
  {
    forall i | 0 <= i < |bufs| && i != k ensures bufs[i] != bufs[k] {
      if i < k { TiledIsOrdered(bufs, blocks, i, k); } else { TiledIsOrdered(bufs, blocks, k, i); }
    }
  }

  /** Freeing takes one buffer out of use, and its size. */
  lemma FreeInUse(bufs: seq<Buf>, blocks: seq<Range>, k: nat)
    requires Tiled(bufs, blocks) && k < |bufs| && !IsFree(bufs[k].status)
    ensures InUse(FreeAt(bufs, k, Idle)) == InUse(bufs) - {bufs[k]}
    ensures UsedBytes(FreeAt(bufs, k, Idle)) == UsedBytes(bufs) - bufs[k].size
  {
    var freed := bufs[k := bufs[k].(status := Idle)];
    InUseAt(bufs, blocks, k, freed[k]);
    FreeIsFreeOfMarked(bufs, k);
    var lo, hi, m := MergeLow(freed, k, Idle), MergeHigh(freed, k, Idle), Merged(freed, k, Idle);
    MergeRange(freed, k, Idle);
    assert forall i :: lo <= i < hi ==> freed[i] == freed[lo..hi][i - lo];
    InUseReplace(freed, lo, hi, [m]);
    UsedBytesReplace(freed, lo, hi, [m]);
    NoUsedBytes(freed[lo..hi]);
    NoUsedBytes([m]);
  }

  lemma FreeIsFreeOfMarked(bufs: seq<Buf>, k: nat)
    requires k < |bufs|
    ensures FreeAt(bufs, k, Idle) == FreeAt(bufs[k := bufs[k].(status := Idle)], k, Idle)
  {
  }

  lemma {:induction false} NoUsedBytes(bufs: seq<Buf>)
    requires forall i :: 0 <= i < |bufs| ==> IsFree(bufs[i].status)
    ensures UsedBytes(bufs) == 0
  {
    if bufs != [] { NoUsedBytes(bufs[..|bufs| - 1]); }
  }

  /** One buffer changes its value. */
  lemma InUseAt(bufs: seq<Buf>, blocks: seq<Range>, k: nat, b: Buf)
    requires Tiled(bufs, blocks) && k < |bufs| && !IsFree(bufs[k].status)
    ensures InUse(bufs[k := b]) == InUse(bufs) - {bufs[k]} + (if IsFree(b.status) then {} else {b})
    ensures UsedBytes(bufs[k := b]) == UsedBytes(bufs) - bufs[k].size + (if IsFree(b.status) then 0 else b.size)
  {
    assert bufs[k := b] == Replace(bufs, k, k + 1, [b]);
    assert bufs == Replace(bufs, k, k + 1, [bufs[k]]);
    UsedBytesReplace(bufs, k, k + 1, [b]);
    UsedBytesReplace(bufs, k, k + 1, [bufs[k]]);
    InUseOnce(bufs, blocks, k);
    assert bufs[k..k + 1] == [bufs[k]];
    OneUsed(bufs[k]);
    OneUsed(b);
  }

  lemma OneUsed(b: Buf)
    ensures UsedBytes([b]) == (if IsFree(b.status) then 0 else b.size)
    ensures InUse([b]) == if IsFree(b.status) then {} else {b}
  {
    SizeOfOthers([b], 0, Used);
    SizeOfOthers([b], 0, UsedByEvent);
    if !IsFree(b.status) { assert [b][0] in InUse([b]); }
  }

  /** Handing out puts one buffer into use. */
  lemma SplitInUse(bufs: seq<Buf>, k: nat, size: int)
    requires k < |bufs| && IsFree(bufs[k].status)
    ensures var b := Pieces(bufs[k], size)[0];
            && InUse(SplitAt(bufs, k, size)) == InUse(bufs) + {b}
            && UsedBytes(SplitAt(bufs, k, size)) == UsedBytes(bufs) + b.size
  {
    var p := Pieces(bufs[k], size);
    assert bufs == Replace(bufs, k, k + 1, [bufs[k]]);
    UsedBytesReplace(bufs, k, k + 1, p);
    UsedBytesReplace(bufs, k, k + 1, [bufs[k]]);
    assert bufs[k..k + 1] == [bufs[k]];
    OneUsed(bufs[k]);
    OneUsed(p[0]);
    if |p| == 2 {
      assert p == [p[0]] + [p[1]];
      InUseConcat([p[0]], [p[1]]);
      OneUsed(p[1]);
      SizeOfConcat([p[0]], [p[1]], Used);
      SizeOfConcat([p[0]], [p[1]], UsedByEvent);
    } else {
      assert p == [p[0]];
    }
  }

  // ------------------------------------------------------- the address table

  /** The table lists the start of every buffer in use, with its allocator, and nothing else. */
  ghost predicate Tabled(allocs: seq<Allocator>, table: map<int, nat>) {
    && (forall a :: a in table ==> table[a] < |allocs| && exists b {:trigger b in InUse(allocs[table[a]].bufs)} :: b in InUse(allocs[table[a]].bufs) && b.addr == a)
    && (forall i, b {:trigger b in InUse(allocs[i].bufs)} ::
          0 <= i < |allocs| && b in InUse(allocs[i].bufs) ==> b.addr in table && table[b.addr] == i)
  }

  /** A buffer in use starts where no other buffer starts. */
  lemma StartIsUnique(pages: PageMap, allocs: seq<Allocator>, i: nat, b: Buf, j: nat, l: nat)
    requires Laid(pages, allocs) && i < |allocs| && b in InUse(allocs[i].bufs)
    requires j < |allocs| && l < |allocs[j].bufs| && allocs[j].bufs[l].addr == b.addr
    ensures i == j && allocs[j].bufs[l] == b
  {
    var k :| 0 <= k < |allocs[i].bufs| && allocs[i].bufs[k] == b;
    assert Shaped(allocs[i]) && Shaped(allocs[j]);
    if i != j || k != l { BufsApart(pages, allocs, i, k, j, l); }
  }

  lemma TabledSame(allocs: seq<Allocator>, table: map<int, nat>, r: seq<Allocator>)
    requires Tabled(allocs, table) && |r| >= |allocs|
    requires forall i :: 0 <= i < |allocs| ==> InUse(r[i].bufs) == InUse(allocs[i].bufs)
    requires forall i :: |allocs| <= i < |r| ==> InUse(r[i].bufs) == {}
    ensures Tabled(r, table)
  {
    forall a | a in table ensures table[a] < |r| && exists b :: b in InUse(r[table[a]].bufs) && b.addr == a {
      var b :| b in InUse(allocs[table[a]].bufs) && b.addr == a;
      assert b in InUse(r[table[a]].bufs);
    }
    forall i, b | 0 <= i < |r| && b in InUse(r[i].bufs) ensures b.addr in table && table[b.addr] == i {
      assert b in InUse(allocs[i].bufs);
    }
  }

  lemma TabledWithout(allocs: seq<Allocator>, table: map<int, nat>, i: nat, c: Buf, bufs: seq<Buf>)
    requires Tabled(allocs, table) && i < |allocs| && c in InUse(allocs[i].bufs)
    requires forall b :: b in InUse(allocs[i].bufs) && b.addr == c.addr ==> b == c
    requires InUse(bufs) == InUse(allocs[i].bufs) - {c}
    ensures Tabled(WithBufs(allocs, i, bufs), table - {c.addr})
  {
    var r := WithBufs(allocs, i, bufs);
    forall a | a in table && a != c.addr ensures exists b :: b in InUse(r[table[a]].bufs) && b.addr == a {
      var b :| b in InUse(allocs[table[a]].bufs) && b.addr == a;
      assert b in InUse(r[table[a]].bufs);
    }
    forall j, b | 0 <= j < |r| && b in InUse(r[j].bufs) ensures b.addr in table - {c.addr} && table[b.addr] == j {
      assert b in InUse(allocs[j].bufs);
    }
  }

  lemma TabledWith(allocs: seq<Allocator>, table: map<int, nat>, i: nat, b: Buf, bufs: seq<Buf>)
    requires Tabled(allocs, table) && i < |allocs| && b.addr !in table
    requires InUse(bufs) == InUse(allocs[i].bufs) + {b}
    ensures Tabled(WithBufs(allocs, i, bufs), table[b.addr := i])
  {
    var r, t := WithBufs(allocs, i, bufs), table[b.addr := i];
    forall a | a in t ensures t[a] < |r| && exists c :: c in InUse(r[t[a]].bufs) && c.addr == a {
      if a == b.addr {
        assert b in InUse(r[t[a]].bufs);
      } else {
        var c :| c in InUse(allocs[table[a]].bufs) && c.addr == a;
        assert c in InUse(r[t[a]].bufs);
      }
    }
    forall j, c | 0 <= j < |r| && c in InUse(r[j].bufs) ensures c.addr in t && t[c.addr] == j {
      if c != b || j != i { assert c in InUse(allocs[j].bufs); }
    }
  }

  /** A buffer in use stays in use with a new status. */
  lemma TabledSwap(allocs: seq<Allocator>, table: map<int, nat>, i: nat, c: Buf, d: Buf, bufs: seq<Buf>)
    requires Tabled(allocs, table) && i < |allocs| && c in InUse(allocs[i].bufs) && c.addr == d.addr
    requires InUse(bufs) == InUse(allocs[i].bufs) - {c} + {d}
    ensures Tabled(WithBufs(allocs, i, bufs), table)
  {
    var r := WithBufs(allocs, i, bufs);
    assert d in InUse(bufs);
    forall a | a in table ensures exists b :: b in InUse(r[table[a]].bufs) && b.addr == a {
      var b :| b in InUse(allocs[table[a]].bufs) && b.addr == a;
      if table[a] == i && b == c {
        assert d in InUse(r[table[a]].bufs);
      } else {
        assert b in InUse(r[table[a]].bufs);
      }
    }
    forall j, b | 0 <= j < |r| && b in InUse(r[j].bufs) ensures b.addr in table && table[b.addr] == j {
      if j != i || b != d { assert b in InUse(allocs[j].bufs); }
    }
  }

  // ---------------------------------------------------------- the statistics

  function Total(allocs: seq<Allocator>): int {
    if allocs == [] then 0 else Total(allocs[..|allocs| - 1]) + UsedBytes(allocs[|allocs| - 1].bufs)
  }

  lemma {:induction false} TotalWith(allocs: seq<Allocator>, i: nat, a: Allocator)
    requires i < |allocs|
    ensures Total(allocs[i := a]) == Total(allocs) - UsedBytes(allocs[i].bufs) + UsedBytes(a.bufs)
  {
    var front := allocs[..|allocs| - 1];
    if i < |front| {
      TotalWith(front, i, a);
      assert allocs[i := a][..|allocs| - 1] == front[i := a];
    } else {
      assert allocs[i := a][..|allocs| - 1] == front;
    }
  }

  lemma {:induction false} SizeOfIsNat(bufs: seq<Buf>, status: Status)
    requires forall i :: 0 <= i < |bufs| ==> bufs[i].size > 0
    ensures SizeOf(bufs, status) >= 0
    ensures forall i :: 0 <= i < |bufs| && bufs[i].status == status ==> SizeOf(bufs, status) >= bufs[i].size
  {
    if bufs != [] {
      SizeOfIsNat(bufs[..|bufs| - 1], status);
      assert forall i :: 0 <= i < |bufs| - 1 ==> bufs[..|bufs| - 1][i] == bufs[i];
    }
  }

  lemma ReleaseKeepsUsedBytes(bufs: seq<Buf>, k: nat)
    requires k < |bufs| && bufs[k].status == Idle
    ensures UsedBytes(FreeAt(bufs, k, EagerFree)) == UsedBytes(bufs)
  {
    var lo, hi, m := MergeLow(bufs, k, EagerFree), MergeHigh(bufs, k, EagerFree), Merged(bufs, k, EagerFree);
    MergeRange(bufs, k, EagerFree);
    UsedBytesReplace(bufs, lo, hi, [m]);
    assert bufs[lo..hi][k - lo] == bufs[k];
    NoUsedBytes(bufs[lo..hi]);
    NoUsedBytes([m]);
  }

  // ---------------------------------------------- what a change leaves in use

  predicate SameUseAt(a: Allocator, was: Allocator) {
    && a.key == was.key && |was.blocks| <= |a.blocks|
    && InUse(a.bufs) == InUse(was.bufs) && UsedBytes(a.bufs) == UsedBytes(was.bufs)
  }

  /** Both lists have the same buffers in use. */
  ghost predicate SameUse(allocs: seq<Allocator>, was: seq<Allocator>) {
    |allocs| == |was| && forall i :: 0 <= i < |allocs| ==> SameUseAt(allocs[i], was[i])
  }

  /** One buffer more is in use. */
  ghost predicate OneMore(allocs: seq<Allocator>, was: seq<Allocator>, i: nat, b: Buf) {
    && |allocs| == |was| && i < |was| && b.status == Used
    && (forall c :: c in InUse(was[i].bufs) ==> c.addr != b.addr)
    && (forall j :: 0 <= j < |allocs| && j != i ==> SameUseAt(allocs[j], was[j]))
    && allocs[i].key == was[i].key
    && InUse(allocs[i].bufs) == InUse(was[i].bufs) + {b}
    && UsedBytes(allocs[i].bufs) == UsedBytes(was[i].bufs) + b.size
  }

  lemma {:induction false} SameUseTotal(allocs: seq<Allocator>, was: seq<Allocator>)
    requires SameUse(allocs, was)
    ensures Total(allocs) == Total(was)
  {
    if allocs != [] {
      var n := |allocs| - 1;
      assert SameUseAt(allocs[n], was[n]);
      SameUseTotal(allocs[..n], was[..n]);
    }
  }

  lemma OneMoreTotal(allocs: seq<Allocator>, was: seq<Allocator>, i: nat, b: Buf)
    requires OneMore(allocs, was, i, b)
    ensures Total(allocs) == Total(was) + b.size
  {
    var mid := was[i := allocs[i]];
    TotalWith(was, i, allocs[i]);
    SameUseTotal(allocs, mid);
  }

  lemma SameUseTabled(allocs: seq<Allocator>, was: seq<Allocator>, table: map<int, nat>)
    requires SameUse(allocs, was) && Tabled(was, table)
    ensures Tabled(allocs, table)
  {
    forall i | 0 <= i < |was| ensures InUse(allocs[i].bufs) == InUse(was[i].bufs) { assert SameUseAt(allocs[i], was[i]); }
    TabledSame(was, table, allocs);
  }

  lemma OneMoreTabled(allocs: seq<Allocator>, was: seq<Allocator>, i: nat, b: Buf, table: map<int, nat>)
    requires OneMore(allocs, was, i, b) && Tabled(was, table) && b.addr !in table
    ensures Tabled(allocs, table[b.addr := i])
  {
    var mid := WithBufs(was, i, allocs[i].bufs);
    TabledWith(was, table, i, b, allocs[i].bufs);
    forall j | 0 <= j < |mid| ensures InUse(allocs[j].bufs) == InUse(mid[j].bufs) {
      if j != i { assert SameUseAt(allocs[j], was[j]); }
    }
    TabledSame(mid, table[b.addr := i], allocs);
  }

  /** One buffer less is in use, all other allocators are the same. */
  ghost predicate OneLess(allocs: seq<Allocator>, was: seq<Allocator>, i: nat, b: Buf) {
    && |allocs| == |was| && i < |was| && allocs[i].key == was[i].key && allocs[i].blocks == was[i].blocks
    && b in InUse(was[i].bufs)
    && (forall j :: 0 <= j < |allocs| && j != i ==> allocs[j] == was[j])
    && InUse(allocs[i].bufs) == InUse(was[i].bufs) - {b}
  }

  /** One buffer in use has become one that waits for its events. */
  ghost predicate OneMarked(allocs: seq<Allocator>, was: seq<Allocator>, i: nat, b: Buf) {
    && |allocs| == |was| && i < |was| && b in InUse(was[i].bufs)
    && (forall j :: 0 <= j < |allocs| && j != i ==> allocs[j] == was[j])
    && InUse(allocs[i].bufs) == InUse(was[i].bufs) - {b} + {b.(status := UsedByEvent)}
  }

  /** What is in use was in use, and only buffers kept for their events are in use no longer. */
  ghost predicate KeptUse(allocs: seq<Allocator>, was: seq<Allocator>) {
    |allocs| == |was| && forall j :: 0 <= j < |allocs| ==> KeptUseAt(allocs[j], was[j])
  }

  ghost predicate KeptUseAt(a: Allocator, was: Allocator) {
    && a.key == was.key && |was.blocks| <= |a.blocks| && InUse(a.bufs) <= InUse(was.bufs)
    && forall c :: c in InUse(was.bufs) ==> c in InUse(a.bufs) || c.status == UsedByEvent
  }

  lemma SameUseIsKept(allocs: seq<Allocator>, was: seq<Allocator>)
    requires SameUse(allocs, was)
    ensures KeptUse(allocs, was)
  {
    forall j | 0 <= j < |allocs| ensures KeptUseAt(allocs[j], was[j]) { assert SameUseAt(allocs[j], was[j]); }
  }

  lemma KeptUseRefl(allocs: seq<Allocator>)
    ensures KeptUse(allocs, allocs)
  {
  }

  lemma KeptUseTrans(allocs: seq<Allocator>, mid: seq<Allocator>, was: seq<Allocator>)
    requires KeptUse(allocs, mid) && KeptUse(mid, was)
    ensures KeptUse(allocs, was)
  {
    forall j | 0 <= j < |allocs| ensures KeptUseAt(allocs[j], was[j]) {
      assert KeptUseAt(allocs[j], mid[j]) && KeptUseAt(mid[j], was[j]);
    }
  }

  lemma OneLessKept(allocs: seq<Allocator>, was: seq<Allocator>, i: nat, b: Buf)
    requires OneLess(allocs, was, i, b) && b.status == UsedByEvent
    ensures KeptUse(allocs, was)
  {
    forall j | 0 <= j < |allocs| ensures KeptUseAt(allocs[j], was[j]) {}
  }

  /**
    Allocator i has handed out b; apart from that, all allocators have in use what they had, but
    for buffers that were kept only for their events.
    */
  ghost predicate TakenFrom(allocs: seq<Allocator>, was: seq<Allocator>, i: nat, b: Buf) {
    && |was| <= |allocs| && i < |allocs| && b in InUse(allocs[i].bufs)
    && (forall j, c {:trigger c in InUse(allocs[j].bufs)} ::
          0 <= j < |allocs| && c in InUse(allocs[j].bufs) && (j != i || c != b) ==> j < |was| && c in InUse(was[j].bufs))
    && (forall j, c {:trigger c in InUse(was[j].bufs)} ::
          0 <= j < |was| && c in InUse(was[j].bufs) ==> c in InUse(allocs[j].bufs) || c.status == UsedByEvent)
    && (forall j :: 0 <= j < |was| ==> allocs[j].key == was[j].key)
  }

  lemma MoreAfterKept(allocs: seq<Allocator>, mid: seq<Allocator>, was: seq<Allocator>, i: nat, b: Buf)
    requires OneMore(allocs, mid, i, b) && KeptUse(mid, was)
    ensures TakenFrom(allocs, was, i, b)
    ensures forall j :: 0 <= j < |allocs| ==> allocs[j].key == was[j].key
  {
    forall j | 0 <= j < |allocs| ensures KeptUseAt(mid[j], was[j]) && (j != i ==> SameUseAt(allocs[j], mid[j])) {}
  }

  lemma SameUseRefl(allocs: seq<Allocator>)
    ensures SameUse(allocs, allocs)
  {
  }

  lemma WithBlockSameUse(allocs: seq<Allocator>, i: nat, block: Range)
    requires i < |allocs|
    ensures SameUse(WithBlock(allocs, i, block), allocs)
  {
    var b := Buf(block.addr, block.size, EagerFree, |allocs[i].blocks|);
    InUseConcat(allocs[i].bufs, [b]);
    OneUsed(b);
    SizeOfConcat(allocs[i].bufs, [b], Used);
    SizeOfConcat(allocs[i].bufs, [b], UsedByEvent);
  }

  lemma SameThenMore(allocs: seq<Allocator>, mid: seq<Allocator>, was: seq<Allocator>, i: nat, b: Buf)
    requires SameUse(mid, was) && OneMore(allocs, mid, i, b)
    ensures OneMore(allocs, was, i, b)
  {
    assert SameUseAt(mid[i], was[i]);
    forall j | 0 <= j < |allocs| && j != i ensures SameUseAt(allocs[j], was[j]) {
      assert SameUseAt(allocs[j], mid[j]) && SameUseAt(mid[j], was[j]);
    }
  }

  lemma SameUseTrans(allocs: seq<Allocator>, mid: seq<Allocator>, was: seq<Allocator>)
    requires SameUse(allocs, mid) && SameUse(mid, was)
    ensures SameUse(allocs, was)
  {
    forall j | 0 <= j < |allocs| ensures SameUseAt(allocs[j], was[j]) {
      assert SameUseAt(allocs[j], mid[j]) && SameUseAt(mid[j], was[j]);
    }
  }

  lemma WithBufsSameUse(allocs: seq<Allocator>, i: nat, bufs: seq<Buf>)
    requires i < |allocs| && InUse(bufs) == InUse(allocs[i].bufs) && UsedBytes(bufs) == UsedBytes(allocs[i].bufs)
    ensures SameUse(WithBufs(allocs, i, bufs), allocs)
  {
  }

  /** Without idle buffers, what must be backed is what is in use. */
  lemma InUseIsBacked(pages: PageMap, bufs: seq<Buf>, was: seq<Buf>)
    requires AllBacked(pages, was) && InUse(bufs) == InUse(was)
    requires forall k :: 0 <= k < |bufs| ==> bufs[k].status != Idle
    ensures AllBacked(pages, bufs)
  {
    forall k | 0 <= k < |bufs| ensures BufBacked(pages, bufs[k]) {
      if bufs[k].status != EagerFree {
        assert bufs[k] in InUse(bufs);
        var j :| 0 <= j < |was| && was[j] == bufs[k] && !IsFree(was[j].status);
        assert BufBacked(pages, was[j]);
      }
    }
  }

  /** The pages inside a buffer exist. */
  lemma BufIsCovered(pages: PageMap, allocs: seq<Allocator>, i: nat, k: nat)
    requires Laid(pages, allocs) && i < |allocs| && k < |allocs[i].bufs|
    ensures Covers(pages, allocs[i].bufs[k].addr, allocs[i].bufs[k].End())
  {
    var a, b := allocs[i], allocs[i].bufs[k];
    assert Shaped(a) && AllReserved(pages, a.blocks);
    InBlock(a.bufs, a.blocks, k);
    assert Reserved(pages, a.blocks[b.block]);
  }

  /** The buffer at a start address in the table, and its place. */
  lemma TableFinds(pages: PageMap, allocs: seq<Allocator>, table: map<int, nat>, addr: int) returns (k: nat)
    requires Laid(pages, allocs) && Tabled(allocs, table) && addr in table
    ensures var bufs := allocs[table[addr]].bufs;
            k < |bufs| && k == IndexOf(bufs, addr) && !IsFree(bufs[k].status) && bufs[k].addr == addr
  {
    var i := table[addr];
    var b :| b in InUse(allocs[i].bufs) && b.addr == addr;
    var l :| 0 <= l < |allocs[i].bufs| && allocs[i].bufs[l] == b;
    k := IndexOf(allocs[i].bufs, addr);
    StartIsUnique(pages, allocs, i, b, i, k);
  }

  lemma NewIsNotTabled(pages: PageMap, allocs: seq<Allocator>, was: seq<Allocator>, i: nat, b: Buf, table: map<int, nat>)
    requires Laid(pages, allocs) && OneMore(allocs, was, i, b) && Tabled(was, table)
    ensures b.addr !in table
  {
    if b.addr in table {
      var j := table[b.addr];
      var c :| c in InUse(was[j].bufs) && c.addr == b.addr;
      assert j != i;
      assert SameUseAt(allocs[j], was[j]);
      assert b in InUse(allocs[i].bufs) && c in InUse(allocs[j].bufs);
      var l :| 0 <= l < |allocs[j].bufs| && allocs[j].bufs[l] == c;
      StartIsUnique(pages, allocs, i, b, j, l);
      assert false;
    }
  }

  /** Freeing one buffer in use: what changes in memory, table and total. */
  lemma FreeKeepsBooks(pages: PageMap, allocs: seq<Allocator>, table: map<int, nat>, i: nat, k: nat)
    requires Laid(pages, allocs) && Backs(pages, allocs) && Tabled(allocs, table)
    requires i < |allocs| && k < |allocs[i].bufs| && !IsFree(allocs[i].bufs[k].status)
    ensures var bufs := allocs[i].bufs;
            var r := WithBufs(allocs, i, FreeAt(bufs, k, Idle));
            && Laid(pages, r) && Backs(pages, r) && Tabled(r, table - {bufs[k].addr})
            && Total(r) == Total(allocs) - bufs[k].size
            && OneLess(r, allocs, i, bufs[k])
  {
    var a, b, bufs := allocs[i], allocs[i].bufs[k], FreeAt(allocs[i].bufs, k, Idle);
    assert Shaped(a) && AllBacked(pages, a.bufs);
    FreeRetiles(a.bufs, a.blocks, k, Idle);
    FreeKeepsCoalesced(a.bufs, a.blocks, k, Idle);
    FreeStaysBacked(pages, a.bufs, a.blocks, k);
    FreeInUse(a.bufs, a.blocks, k);
    WithBufsLaid(pages, allocs, i, bufs);
    WithBufsBacked(pages, allocs, i, bufs);
    assert b in InUse(a.bufs);
    forall c | c in InUse(a.bufs) && c.addr == b.addr ensures c == b {
      StartIsUnique(pages, allocs, i, c, i, k);
    }
    TabledWithout(allocs, table, i, b, bufs);
    TotalWith(allocs, i, a.(bufs := bufs));
  }

  lemma MarkKeepsBooks(pages: PageMap, allocs: seq<Allocator>, table: map<int, nat>, i: nat, k: nat)
    requires Laid(pages, allocs) && Backs(pages, allocs) && Tabled(allocs, table)
    requires i < |allocs| && k < |allocs[i].bufs| && !IsFree(allocs[i].bufs[k].status)
    ensures var bufs := allocs[i].bufs;
            var marked := bufs[k].(status := UsedByEvent);
            var r := WithBufs(allocs, i, bufs[k := marked]);
            && Laid(pages, r) && Backs(pages, r) && Tabled(r, table)
            && Total(r) == Total(allocs)
            && OneMarked(r, allocs, i, bufs[k])
  {
    var a, b := allocs[i], allocs[i].bufs[k];
    var marked := b.(status := UsedByEvent);
    var bufs := a.bufs[k := marked];
    assert Shaped(a) && AllBacked(pages, a.bufs) && BufBacked(pages, b);
    MarkedStaysTiled(a.bufs, a.blocks, k);
    assert AllBacked(pages, bufs) by {
      forall j | 0 <= j < |bufs| ensures BufBacked(pages, bufs[j]) { assert BufBacked(pages, a.bufs[j]); }
    }
    WithBufsLaid(pages, allocs, i, bufs);
    WithBufsBacked(pages, allocs, i, bufs);
    InUseAt(a.bufs, a.blocks, k, marked);
    assert b in InUse(a.bufs);
    TabledSwap(allocs, table, i, b, marked, bufs);
    TotalWith(allocs, i, a.(bufs := bufs));
  }
}
