/** Cutting a buffer in use into several, for the whole pool: what stays in order. */
module PoolCutting {
  import opened Buffers
  import opened Vmm
  import PF = PartialFree
  import opened PoolInvariant
  import opened PoolBooks

  // ------------------------------------------------------------ all allocators

  /** The buffers in use of all allocators. */
  function AllInUse(allocs: seq<Allocator>): set<Buf> {
    set i, b | 0 <= i < |allocs| && b in InUse(allocs[i].bufs) :: b
  }

  lemma InUseApart(pages: PageMap, allocs: seq<Allocator>)
    requires Laid(pages, allocs)
    ensures PF.NoOverlap(AllInUse(allocs)) && forall b :: b in AllInUse(allocs) ==> b.size > 0
  {
    forall u, v, x | u in AllInUse(allocs) && v in AllInUse(allocs) && u.Contains(x) && v.Contains(x) ensures u == v {
      var i, j :| 0 <= i < |allocs| && u in InUse(allocs[i].bufs) && 0 <= j < |allocs| && v in InUse(allocs[j].bufs);
      var k :| 0 <= k < |allocs[i].bufs| && allocs[i].bufs[k] == u;
      var l :| 0 <= l < |allocs[j].bufs| && allocs[j].bufs[l] == v;
      if i != j || k != l { BufsApart(pages, allocs, i, k, j, l); }
    }
    forall b | b in AllInUse(allocs) ensures b.size > 0 {
      var i :| 0 <= i < |allocs| && b in InUse(allocs[i].bufs);
      assert Shaped(allocs[i]);
    }
  }

  /** A buffer in use belongs to one allocator. */
  lemma OwnerIsUnique(pages: PageMap, allocs: seq<Allocator>, b: Buf, i: nat, j: nat)
    requires Laid(pages, allocs) && i < |allocs| && j < |allocs| && b in InUse(allocs[i].bufs) && b in InUse(allocs[j].bufs)
    ensures i == j
  {
    var l :| 0 <= l < |allocs[j].bufs| && allocs[j].bufs[l] == b;
    StartIsUnique(pages, allocs, i, b, j, l);
  }

  /** One allocator has other buffers in use, in place of c. */
  ghost predicate Replaced(allocs: seq<Allocator>, was: seq<Allocator>, i: nat, c: Buf, those: set<Buf>) {
    && |allocs| == |was| && i < |was| && c in InUse(was[i].bufs)
    && (forall j :: 0 <= j < |allocs| && j != i ==> allocs[j] == was[j])
    && InUse(allocs[i].bufs) == InUse(was[i].bufs) - {c} + those
  }

  lemma ReplacedInAll(pages: PageMap, allocs: seq<Allocator>, was: seq<Allocator>, i: nat, c: Buf, those: set<Buf>)
    requires Laid(pages, was) && Replaced(allocs, was, i, c, those)
    ensures AllInUse(allocs) == AllInUse(was) - {c} + those
  {
    forall b | b in AllInUse(allocs) ensures b in AllInUse(was) - {c} + those {
      var j :| 0 <= j < |allocs| && b in InUse(allocs[j].bufs);
      if b !in those {
        assert b in InUse(was[j].bufs);
        if b == c { OwnerIsUnique(pages, was, b, i, j); }
      }
    }
    forall b | b in AllInUse(was) - {c} + those ensures b in AllInUse(allocs) {
      if b in those {
        assert b in InUse(allocs[i].bufs);
      } else {
        var j :| 0 <= j < |was| && b in InUse(was[j].bufs);
        assert b in InUse(allocs[j].bufs);
      }
    }
  }

  // ------------------------------------------------------------------ cutting

  /** The buffers mid take the place of c: they are in use, and lie one behind the other from its start to its end. */
  predicate Cuts(c: Buf, mid: seq<Buf>) {
    && |mid| > 0 && mid[0].addr == c.addr && mid[|mid| - 1].End() == c.End()
    && (forall j :: 0 <= j < |mid| ==> mid[j].status == Used && mid[j].size > 0 && mid[j].block == c.block)
    && (forall j :: 0 <= j < |mid| - 1 ==> mid[j].End() == mid[j + 1].addr)
  }

  lemma {:induction false} CutBytes(c: Buf, mid: seq<Buf>)
    requires Cuts(c, mid)
    ensures UsedBytes(mid) == c.size
    decreases |mid|
  {
    var n := |mid| - 1;
    var last := mid[n];
    assert mid == mid[..n] + [last];
    OneUsed(last);
    if n > 0 {
      BytesConcat(mid[..n], [last]);
      CutBytes(c.(size := c.size - last.size), mid[..n]);
    } else {
      assert mid == [last];
    }
  }

  lemma BytesConcat(a: seq<Buf>, b: seq<Buf>)
    ensures UsedBytes(a + b) == UsedBytes(a) + UsedBytes(b)
  {
    SizeOfConcat(a, b, Used);
    SizeOfConcat(a, b, UsedByEvent);
  }

  lemma {:induction false} CutInside(c: Buf, mid: seq<Buf>, j: nat)
    requires Cuts(c, mid) && j < |mid|
    ensures c.addr <= mid[j].addr && mid[j].End() <= c.End()
    decreases |mid|
  {
    if j < |mid| - 1 {
      var n := |mid| - 1;
      CutInside(c.(size := c.size - mid[n].size), mid[..n], j);
    } else if j > 0 {
      var n := |mid| - 1;
      CutInside(c.(size := c.size - mid[n].size), mid[..n], j - 1);
    }
  }

  lemma CutStarts(c: Buf, mid: seq<Buf>)
    requires Cuts(c, mid)
    ensures c.addr in PF.Addrs(NotIdle(mid))
    ensures forall p :: p in NotIdle(mid) ==> c.Contains(p.addr) && p.status == Used
  {
    assert mid[0] in NotIdle(mid);
    forall p | p in NotIdle(mid) ensures c.Contains(p.addr) && p.status == Used {
      var j :| 0 <= j < |mid| && mid[j] == p;
      CutInside(c, mid, j);
    }
  }

  lemma CutTiled(bufs: seq<Buf>, blocks: seq<Range>, k: nat, mid: seq<Buf>)
    requires Tiled(bufs, blocks) && Coalesced(bufs) && k < |bufs| && bufs[k].status == Used && Cuts(bufs[k], mid)
    ensures Tiled(Replace(bufs, k, k + 1, mid), blocks) && Coalesced(Replace(bufs, k, k + 1, mid))
  {
    ReplaceTiled(bufs, blocks, k, k + 1, mid);
    ReplaceCoalesced(bufs, k, k + 1, mid);
  }

  lemma CutKeepsBytes(bufs: seq<Buf>, k: nat, mid: seq<Buf>)
    requires k < |bufs| && bufs[k].status == Used && Cuts(bufs[k], mid)
    ensures UsedBytes(Replace(bufs, k, k + 1, mid)) == UsedBytes(bufs)
  {
    UsedBytesReplace(bufs, k, k + 1, mid);
    CutBytes(bufs[k], mid);
    assert bufs[k..k + 1] == [bufs[k]];
    OneUsed(bufs[k]);
  }

  lemma InUseIsNotIdle(bufs: seq<Buf>)
    ensures InUse(bufs) == set b | b in NotIdle(bufs) && b.status != EagerFree
  {
  }

  lemma WithoutEager(now: set<Buf>, was: set<Buf>, c: Buf, pieces: set<Buf>)
    requires now == was - {c} + pieces && forall p :: p in pieces ==> p.status == Used
    ensures (set b | b in now && b.status != EagerFree) == (set b | b in was && b.status != EagerFree) - {c} + pieces
  {
  }

  lemma CutInUse(bufs: seq<Buf>, blocks: seq<Range>, k: nat, mid: seq<Buf>)
    requires Tiled(bufs, blocks) && k < |bufs| && bufs[k].status == Used && Cuts(bufs[k], mid)
    ensures InUse(Replace(bufs, k, k + 1, mid)) == InUse(bufs) - {bufs[k]} + NotIdle(mid)
  {
    var r := Replace(bufs, k, k + 1, mid);
    PF.NotIdleAfterReplace(bufs, blocks, k, k + 1, mid);
    assert NotIdle(bufs[k..k + 1]) == {bufs[k]} by {
      assert bufs[k..k + 1] == [bufs[k]] && [bufs[k]][0] == bufs[k];
    }
    CutStarts(bufs[k], mid);
    WithoutEager(NotIdle(r), NotIdle(bufs), bufs[k], NotIdle(mid));
    InUseIsNotIdle(bufs);
    InUseIsNotIdle(r);
  }

  lemma CutBacked(pages: PageMap, bufs: seq<Buf>, k: nat, mid: seq<Buf>)
    requires AllBacked(pages, bufs) && k < |bufs| && bufs[k].status == Used && Cuts(bufs[k], mid)
    ensures AllBacked(pages, Replace(bufs, k, k + 1, mid))
  {
    var r := Replace(bufs, k, k + 1, mid);
    assert BufBacked(pages, bufs[k]);
    forall i | 0 <= i < |r| ensures BufBacked(pages, r[i]) {
      if i < k { assert r[i] == bufs[i]; }
      else if i < k + |mid| { CutInside(bufs[k], mid, i - k); assert r[i] == mid[i - k]; }
      else { assert r[i] == bufs[i + 1 - |mid|]; }
    }
  }

  /** The pieces are listed, the first of them under the address of the buffer. */
  function TableWith(table: map<int, nat>, pieces: set<Buf>, i: nat): map<int, nat> {
    table + map a | a in PF.Addrs(pieces) :: i
  }

  /** No other buffer in use starts where a piece of c starts. */
  ghost predicate StartElsewhere(was: seq<Allocator>, i: nat, c: Buf, pieces: set<Buf>) {
    forall j, b {:trigger b in InUse(was[j].bufs)} ::
      0 <= j < |was| && b in InUse(was[j].bufs) && b.addr in PF.Addrs(pieces) ==> j == i && b == c
  }

  lemma OthersStartElsewhere(pages: PageMap, was: seq<Allocator>, i: nat, c: Buf, pieces: set<Buf>)
    requires Laid(pages, was) && i < |was| && c in InUse(was[i].bufs) && forall p :: p in pieces ==> c.Contains(p.addr)
    ensures StartElsewhere(was, i, c, pieces)
  {
    InUseApart(pages, was);
    forall j, b | 0 <= j < |was| && b in InUse(was[j].bufs) && b.addr in PF.Addrs(pieces) ensures j == i && b == c {
      assert b in AllInUse(was) && c in AllInUse(was) && b.Contains(b.addr);
      OwnerIsUnique(pages, was, c, i, j);
    }
  }

  lemma ListedAreInUse(allocs: seq<Allocator>, was: seq<Allocator>, table: map<int, nat>, i: nat, c: Buf, pieces: set<Buf>, a: int)
    requires Tabled(was, table) && Replaced(allocs, was, i, c, pieces) && c.addr in PF.Addrs(pieces)
    requires a in TableWith(table, pieces, i)
    ensures var j := TableWith(table, pieces, i)[a];
      j < |allocs| && exists b :: b in InUse(allocs[j].bufs) && b.addr == a
  {
    if a in PF.Addrs(pieces) {
      var p :| p in pieces && p.addr == a;
      assert p in InUse(allocs[i].bufs);
    } else {
      var b :| b in InUse(was[table[a]].bufs) && b.addr == a;
      assert b in InUse(allocs[table[a]].bufs);
    }
  }

  lemma InUseIsListed(allocs: seq<Allocator>, was: seq<Allocator>, table: map<int, nat>, i: nat, c: Buf, pieces: set<Buf>, j: nat, b: Buf)
    requires Tabled(was, table) && Replaced(allocs, was, i, c, pieces) && StartElsewhere(was, i, c, pieces)
    requires j < |allocs| && b in InUse(allocs[j].bufs)
    ensures var t := TableWith(table, pieces, i); b.addr in t && t[b.addr] == j
  {
    if j == i && b in pieces {
      assert b.addr in PF.Addrs(pieces);
    } else {
      assert b in InUse(was[j].bufs);
    }
  }

  lemma TabledPieces(allocs: seq<Allocator>, was: seq<Allocator>, table: map<int, nat>, i: nat, c: Buf, pieces: set<Buf>)
    requires Tabled(was, table) && Replaced(allocs, was, i, c, pieces) && StartElsewhere(was, i, c, pieces)
    requires c.addr in PF.Addrs(pieces)
    ensures Tabled(allocs, TableWith(table, pieces, i))
  {
    var t := TableWith(table, pieces, i);
    forall a | a in t ensures t[a] < |allocs| && exists b :: b in InUse(allocs[t[a]].bufs) && b.addr == a {
      ListedAreInUse(allocs, was, table, i, c, pieces, a);
    }
    forall j, b | 0 <= j < |allocs| && b in InUse(allocs[j].bufs) ensures b.addr in t && t[b.addr] == j {
      InUseIsListed(allocs, was, table, i, c, pieces, j, b);
    }
  }

  /** Cutting a buffer in use: memory stays in order, and the sizes add up. */
  lemma CutKeepsMem(pages: PageMap, allocs: seq<Allocator>, i: nat, k: nat, mid: seq<Buf>)
    requires Laid(pages, allocs) && Backs(pages, allocs)
    requires i < |allocs| && k < |allocs[i].bufs| && allocs[i].bufs[k].status == Used && Cuts(allocs[i].bufs[k], mid)
    ensures var r := WithBufs(allocs, i, Replace(allocs[i].bufs, k, k + 1, mid));
      && Laid(pages, r) && Backs(pages, r) && Total(r) == Total(allocs)
      && Replaced(r, allocs, i, allocs[i].bufs[k], NotIdle(mid))
  {
    var a, bufs := allocs[i], Replace(allocs[i].bufs, k, k + 1, mid);
    assert Shaped(a) && AllBacked(pages, a.bufs);
    CutTiled(a.bufs, a.blocks, k, mid);
    CutBacked(pages, a.bufs, k, mid);
    CutInUse(a.bufs, a.blocks, k, mid);
    CutKeepsBytes(a.bufs, k, mid);
    WithBufsLaid(pages, allocs, i, bufs);
    WithBufsBacked(pages, allocs, i, bufs);
    TotalWith(allocs, i, a.(bufs := bufs));
    assert a.bufs[k] in InUse(a.bufs);
  }

  /** Memory and ledger stay in order. */
  lemma CutKeepsSound(pages: PageMap, allocs: seq<Allocator>, l: Ledger, home: map<int, Pair>, i: nat, k: nat, mid: seq<Buf>)
    requires Sound(pages, allocs, l, home, {})
    requires i < |allocs| && k < |allocs[i].bufs| && allocs[i].bufs[k].status == Used && Cuts(allocs[i].bufs[k], mid)
    ensures var c := allocs[i].bufs[k];
      var r := WithBufs(allocs, i, Replace(allocs[i].bufs, k, k + 1, mid));
      && Sound(pages, r, l.(table := TableWith(l.table, NotIdle(mid), i)), home, {})
      && AllInUse(r) == AllInUse(allocs) - {c} + NotIdle(mid)
  {
    var c := allocs[i].bufs[k];
    var r, pieces := WithBufs(allocs, i, Replace(allocs[i].bufs, k, k + 1, mid)), NotIdle(mid);
    CutKeepsMem(pages, allocs, i, k, mid);
    ReplacedInAll(pages, r, allocs, i, c, pieces);
    CutStarts(c, mid);
    OthersStartElsewhere(pages, allocs, i, c, pieces);
    TabledPieces(r, allocs, l.table, i, c, pieces);
    StillInOrder(r, allocs, l, home, i, c, pieces, TableWith(l.table, pieces, i));
  }

  lemma StillInOrder(allocs: seq<Allocator>, was: seq<Allocator>, l: Ledger, home: map<int, Pair>, i: nat, c: Buf, pieces: set<Buf>,
                     table: map<int, nat>)
    requires InOrder(was, l, home, {}) && Replaced(allocs, was, i, c, pieces) && Total(allocs) == Total(was)
    requires Tabled(allocs, table) && (forall a :: a in l.table ==> a in table) && forall p :: p in pieces ==> p.status == Used
    ensures InOrder(allocs, l.(table := table), home, {})
  {
    assert Tracked(l.(table := table), home);
    forall j, b | 0 <= j < |allocs| && b in InUse(allocs[j].bufs) && b.status == UsedByEvent ensures b.addr in l.events {
      assert b in InUse(was[j].bufs);
    }
  }

  /** The table leads from its start address to the buffer. */
  lemma FindInUse(pages: PageMap, allocs: seq<Allocator>, table: map<int, nat>, c: Buf)
    requires Laid(pages, allocs) && Tabled(allocs, table) && c in AllInUse(allocs)
    ensures c.addr in table && table[c.addr] < |allocs|
    ensures var bufs := allocs[table[c.addr]].bufs;
      IndexOf(bufs, c.addr) >= 0 && bufs[IndexOf(bufs, c.addr)] == c
  {
    var i :| 0 <= i < |allocs| && c in InUse(allocs[i].bufs);
    assert c.addr in table && table[c.addr] == i;
    var k := TableFinds(pages, allocs, table, c.addr);
    StartIsUnique(pages, allocs, i, c, i, k);
  }
}
