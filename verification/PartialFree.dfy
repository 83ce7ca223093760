/**
  Freeing part of some buffers, by the two algorithms of the repository: the newer pool
  splits the buffers in use and frees the remainders, the older one frees whole buffers
  and carves the kept ranges out of the idle memory.
  */
module PartialFree {
  import opened Options
  import opened Buffers
  import opened OrderedSets

  // ------------------------------------ buffers that are not idle, under surgery

  lemma NotIdleOfConcat(a: seq<Buf>, b: seq<Buf>)
    ensures NotIdle(a + b) == NotIdle(a) + NotIdle(b)
  {
    forall x | x in NotIdle(a) + NotIdle(b) ensures x in NotIdle(a + b) {
      if x in NotIdle(a) {
        var k :| 0 <= k < |a| && a[k] == x && x.status != Idle;
        assert (a + b)[k] == x;
      } else {
        var k :| 0 <= k < |b| && b[k] == x && x.status != Idle;
        assert (a + b)[|a| + k] == x;
      }
    }
  }

  /** A buffer occurs once in a tiling. */
  lemma NotIdleInOnePart(bufs: seq<Buf>, blocks: seq<Range>, lo: nat, hi: nat)
    requires Tiled(bufs, blocks) && lo <= hi <= |bufs|
    ensures NotIdle(bufs[lo..hi]) !! NotIdle(bufs[..lo]) + NotIdle(bufs[hi..])
  {
    forall x | x in NotIdle(bufs[lo..hi]) ensures x !in NotIdle(bufs[..lo]) && x !in NotIdle(bufs[hi..]) {
      var j :| 0 <= j < hi - lo && bufs[lo..hi][j] == x;
      if x in NotIdle(bufs[..lo]) {
        var i :| 0 <= i < lo && bufs[..lo][i] == x;
        TiledIsOrdered(bufs, blocks, i, lo + j);
      }
      if x in NotIdle(bufs[hi..]) {
        var i :| 0 <= i < |bufs| - hi && bufs[hi..][i] == x;
        TiledIsOrdered(bufs, blocks, lo + j, hi + i);
      }
    }
  }

  lemma NotIdleAfterReplace(bufs: seq<Buf>, blocks: seq<Range>, lo: nat, hi: nat, mid: seq<Buf>)
    requires Tiled(bufs, blocks) && lo <= hi <= |bufs|
    ensures NotIdle(Replace(bufs, lo, hi, mid)) == (NotIdle(bufs) - NotIdle(bufs[lo..hi])) + NotIdle(mid)
  {
    assert bufs == (bufs[..lo] + bufs[lo..hi]) + bufs[hi..];
    NotIdleOfConcat(bufs[..lo] + bufs[lo..hi], bufs[hi..]);
    NotIdleOfConcat(bufs[..lo], bufs[lo..hi]);
    NotIdleOfConcat(bufs[..lo] + mid, bufs[hi..]);
    NotIdleOfConcat(bufs[..lo], mid);
    NotIdleInOnePart(bufs, blocks, lo, hi);
  }

  lemma NotIdleAfterFree(bufs: seq<Buf>, blocks: seq<Range>, k: nat)
    requires Tiled(bufs, blocks) && k < |bufs| && bufs[k].status == Used
    ensures NotIdle(FreeAt(bufs, k, Idle)) == NotIdle(bufs) - {bufs[k]}
  {
    var lo, hi := MergeLow(bufs, k, Idle), MergeHigh(bufs, k, Idle);
    NotIdleAfterReplace(bufs, blocks, lo, hi, [Merged(bufs, k, Idle)]);
    var mid := bufs[lo..hi];
    assert mid[k - lo] == bufs[k];
    assert NotIdle(mid) == {bufs[k]} by {
      forall b | b in NotIdle(mid) ensures b == bufs[k] {
        var i :| 0 <= i < |mid| && mid[i] == b && b.status != Idle;
        assert mid[i] == bufs[lo + i];
      }
    }
    assert NotIdle([Merged(bufs, k, Idle)]) == {};
  }

  // ----------------------------------------------------------------- carving

  /** A range inside b, kept in use, with what is left of b on both sides. */
  function Carved(b: Buf, keep: Range, rest: Status): seq<Buf> {
    (if keep.addr > b.addr then [Buf(b.addr, keep.addr - b.addr, rest, b.block)] else [])
    + [Buf(keep.addr, keep.size, Used, b.block)]
    + (if keep.End() < b.End() then [Buf(keep.End(), b.End() - keep.End(), rest, b.block)] else [])
  }

  predicate Inside(keep: Range, b: Buf) {
    keep.size > 0 && b.addr <= keep.addr && keep.End() <= b.End()
  }

  function CarveAt(bufs: seq<Buf>, k: nat, keep: Range, rest: Status): seq<Buf>
    requires k < |bufs|
  {
    Replace(bufs, k, k + 1, Carved(bufs[k], keep, rest))
  }

  lemma CarveTiled(bufs: seq<Buf>, blocks: seq<Range>, k: nat, keep: Range, rest: Status)
    requires Tiled(bufs, blocks) && k < |bufs| && Inside(keep, bufs[k])
    ensures Tiled(CarveAt(bufs, k, keep, rest), blocks)
  {
    ReplaceTiled(bufs, blocks, k, k + 1, Carved(bufs[k], keep, rest));
  }

  lemma CarveCoalesced(bufs: seq<Buf>, k: nat, keep: Range, rest: Status)
    requires Coalesced(bufs) && k < |bufs| && rest == bufs[k].status
    ensures Coalesced(CarveAt(bufs, k, keep, rest))
  {
    var mid := Carved(bufs[k], keep, rest);
    if k > 0 { assert Separate(bufs[k - 1], bufs[k]); }
    if k + 1 < |bufs| { assert Separate(bufs[k], bufs[k + 1]); }
    assert Coalesced(mid);
    ReplaceCoalesced(bufs, k, k + 1, mid);
  }

  lemma NotIdleAfterCarve(bufs: seq<Buf>, blocks: seq<Range>, k: nat, keep: Range, rest: Status)
    requires Tiled(bufs, blocks) && k < |bufs|
    ensures
      NotIdle(CarveAt(bufs, k, keep, rest)) ==
      (if bufs[k].status != Idle then NotIdle(bufs) - {bufs[k]} else NotIdle(bufs)) + NotIdle(Carved(bufs[k], keep, rest))
  {
    NotIdleAfterReplace(bufs, blocks, k, k + 1, Carved(bufs[k], keep, rest));
    assert bufs[k..k + 1] == [bufs[k]];
    assert NotIdle([bufs[k]]) == if bufs[k].status != Idle then {bufs[k]} else {} by {
      assert [bufs[k]][0] == bufs[k];
    }
  }

  lemma NotIdleInCarved(b: Buf, keep: Range)
    ensures NotIdle(Carved(b, keep, Idle)) == {Buf(keep.addr, keep.size, Used, b.block)}
    ensures
      NotIdle(Carved(b, keep, Used)) ==
      (if keep.addr > b.addr then {Buf(b.addr, keep.addr - b.addr, Used, b.block)} else {})
      + {Buf(keep.addr, keep.size, Used, b.block)}
      + (if keep.End() < b.End() then {Buf(keep.End(), b.End() - keep.End(), Used, b.block)} else {})
  {
    var i := if keep.addr > b.addr then 1 else 0;
    assert Carved(b, keep, Idle)[i] == Buf(keep.addr, keep.size, Used, b.block);
    var c := Carved(b, keep, Used);
    assert c[i] == Buf(keep.addr, keep.size, Used, b.block);
    assert c[0] == (if i == 1 then Buf(b.addr, keep.addr - b.addr, Used, b.block) else c[i]);
    if keep.End() < b.End() { assert c[i + 1] == Buf(keep.End(), b.End() - keep.End(), Used, b.block); }
  }

  // --------------------------------------------------------- the requirement

  /** The addresses of some buffers: the keys of the candidates map. */
  function Addrs(s: set<Buf>): set<int> {
    set b | b in s :: b.addr
  }

  /** The buffers in use, without those kept only for their events. */
  function UsedSet(bufs: seq<Buf>): set<Buf> {
    set b | b in NotIdle(bufs) && b.status == Used
  }

  /** The buffers in use that a list of addresses names. */
  function Freed(bufs: seq<Buf>, addrs: seq<int>): set<Buf> {
    set b | b in UsedSet(bufs) && b.addr in addrs
  }

  /** The kept ranges as buffers in use, each in the block of the freed buffer around it. */
  function Kept(freed: set<Buf>, keeps: seq<Range>): set<Buf> {
    set i, f | 0 <= i < |keeps| && f in freed && Inside(keeps[i], f) :: Buf(keeps[i].addr, keeps[i].size, Used, f.block)
  }

  /** Keep ranges are nonempty, pairwise disjoint, and each inside one freed buffer. */
  ghost predicate ValidKeeps(freed: set<Buf>, keeps: seq<Range>) {
    && (forall i :: 0 <= i < |keeps| ==> exists f :: f in freed && Inside(keeps[i], f))
    && (forall i, j :: 0 <= i < j < |keeps| ==> Apart(keeps[i], keeps[j]))
  }

  predicate Covers(r: Range, x: int) {
    r.addr <= x < r.End()
  }

  /** No address is in two of the buffers. */
  ghost predicate NoOverlap(s: set<Buf>) {
    forall u, v, x :: u in s && v in s && u.Contains(x) && v.Contains(x) ==> u == v
  }

  lemma NotIdleApart(bufs: seq<Buf>, blocks: seq<Range>)
    requires Tiled(bufs, blocks) && BlocksDisjoint(blocks)
    ensures NoOverlap(NotIdle(bufs))
  {
    forall u, v, x | u in NotIdle(bufs) && v in NotIdle(bufs) && u.Contains(x) && v.Contains(x) ensures u == v {
      var i :| 0 <= i < |bufs| && bufs[i] == u;
      var j :| 0 <= j < |bufs| && bufs[j] == v;
      OneOwner(bufs, blocks, i, j, x);
    }
  }

  /** No buffer that stays in use, and no range kept before, touches keeps[i]. */
  lemma KeepIsUntouched(used: set<Buf>, freed: set<Buf>, keeps: seq<Range>, i: nat, u: Buf, y: int)
    requires NoOverlap(used) && freed <= used
    requires ValidKeeps(freed, keeps) && i < |keeps| && Covers(keeps[i], y)
    requires u in (used - freed) + Kept(freed, keeps[..i])
    ensures !u.Contains(y)
  {
    var f :| f in freed && Inside(keeps[i], f);
    assert f.Contains(y);
    if u in Kept(freed, keeps[..i]) {
      var j, g :| 0 <= j < i && g in freed && Inside(keeps[..i][j], g) &&
                  u == Buf(keeps[..i][j].addr, keeps[..i][j].size, Used, g.block);
      assert Apart(keeps[j], keeps[i]);
    }
  }

  lemma FindNotIdle(bufs: seq<Buf>, blocks: seq<Range>, u: Buf)
    requires Tiled(bufs, blocks) && BlocksDisjoint(blocks) && u in NotIdle(bufs)
    ensures IndexOf(bufs, u.addr) >= 0 && bufs[IndexOf(bufs, u.addr)] == u
  {
    var i :| 0 <= i < |bufs| && bufs[i] == u;
    OneOwner(bufs, blocks, i, IndexOf(bufs, u.addr), u.addr);
  }

  lemma KeptGrows(used: set<Buf>, freed: set<Buf>, keeps: seq<Range>, i: nat, f: Buf)
    requires NoOverlap(used) && freed <= used
    requires i < |keeps| && f in freed && Inside(keeps[i], f)
    ensures Kept(freed, keeps[..i + 1]) == Kept(freed, keeps[..i]) + {Buf(keeps[i].addr, keeps[i].size, Used, f.block)}
  {
    var now, before, kept := keeps[..i + 1], keeps[..i], Buf(keeps[i].addr, keeps[i].size, Used, f.block);
    forall b | b in Kept(freed, now) ensures b in Kept(freed, before) + {kept} {
      var j, g :| 0 <= j < i + 1 && g in freed && Inside(now[j], g) && b == Buf(now[j].addr, now[j].size, Used, g.block);
      if j < i { assert before[j] == now[j]; } else { assert f.Contains(keeps[i].addr) && g.Contains(keeps[i].addr); }
    }
    forall b | b in Kept(freed, before) + {kept} ensures b in Kept(freed, now) {
      if b == kept {
        assert now[i] == keeps[i];
      } else {
        var j, g :| 0 <= j < i && g in freed && Inside(before[j], g) && b == Buf(before[j].addr, before[j].size, Used, g.block);
        assert now[j] == before[j];
      }
    }
  }

  /** Every address of a block is in some buffer. */
  lemma {:induction false} SomeOwner(bufs: seq<Buf>, blocks: seq<Range>, k: nat, block: nat, x: int) returns (j: nat)
    requires Tiled(bufs, blocks) && k < |bufs|
    requires bufs[k].block < block || (bufs[k].block == block && bufs[k].addr <= x)
    requires block < |blocks| && Covers(blocks[block], x)
    ensures j < |bufs| && bufs[j].block == block && bufs[j].Contains(x)
    decreases |bufs| - k
  {
    if bufs[k].block == block && x < bufs[k].End() {
      j := k;
    } else {
      if k < |bufs| - 1 { assert Joint(bufs[k], bufs[k + 1], blocks); }
      j := SomeOwner(bufs, blocks, k + 1, block, x);
    }
  }

  // ----------------------------------------- the older pool: free, then carve

  /** FindByKeepAddr: the buffer with the greatest start address that is not above x. */
  method LastAtOrBelow(bufs: seq<Buf>, x: int) returns (k: int)
    ensures -1 <= k < |bufs|
    ensures k >= 0 ==> bufs[k].addr <= x && forall i :: 0 <= i < |bufs| && bufs[i].addr <= x ==> bufs[i].addr <= bufs[k].addr
    ensures k == -1 ==> forall i :: 0 <= i < |bufs| ==> bufs[i].addr > x
  {
    k := -1;
    var i := 0;
    while i < |bufs|
      invariant 0 <= i <= |bufs| && -1 <= k < i
      invariant k >= 0 ==> bufs[k].addr <= x && forall j :: 0 <= j < i && bufs[j].addr <= x ==> bufs[j].addr <= bufs[k].addr
      invariant k == -1 ==> forall j :: 0 <= j < i ==> bufs[j].addr > x
    {
      if bufs[i].addr <= x && (k == -1 || bufs[k].addr < bufs[i].addr) {
        k := i;
      }
      i := i + 1;
    }
  }

  /** After the frees, the buffer found for a keep range is idle and holds all of it. */
  lemma KeepIsIdle(bufs: seq<Buf>, r: seq<Buf>, blocks: seq<Range>, freed: set<Buf>, keeps: seq<Range>, i: nat, k: int)
    requires Canonical(bufs, blocks) && Canonical(r, blocks) && BlocksDisjoint(blocks) && freed <= NotIdle(bufs)
    requires ValidKeeps(freed, keeps) && i < |keeps|
    requires NotIdle(r) == (NotIdle(bufs) - freed) + Kept(freed, keeps[..i])
    requires -1 <= k < |r|
    requires k >= 0 ==> r[k].addr <= keeps[i].addr &&
                        forall j :: 0 <= j < |r| && r[j].addr <= keeps[i].addr ==> r[j].addr <= r[k].addr
    requires k == -1 ==> forall j :: 0 <= j < |r| ==> r[j].addr > keeps[i].addr
    ensures k >= 0 && r[k].status == Idle && Inside(keeps[i], r[k])
    ensures forall f :: f in freed && Inside(keeps[i], f) ==> f.block == r[k].block
  {
    var keep := keeps[i];
    NotIdleApart(bufs, blocks);
    var f :| f in freed && Inside(keep, f);
    var b :| 0 <= b < |bufs| && bufs[b] == f;
    InBlock(bufs, blocks, b);
    var j := SomeOwner(r, blocks, 0, f.block, keep.addr);
    if k != j { OneOwner(r, blocks, k, j, r[k].addr); }
    if r[k].status != Idle {
      assert r[k] in NotIdle(r);
      KeepIsUntouched(NotIdle(bufs), freed, keeps, i, r[k], keep.addr);
    }
    IdleEnds(r, blocks, k);
    if keep.End() > r[k].End() {
      assert r[k + 1] in NotIdle(r);
      KeepIsUntouched(NotIdle(bufs), freed, keeps, i, r[k + 1], r[k].End());
      assert false;
    }
    forall g | g in freed && Inside(keep, g) ensures g.block == r[k].block {
      assert f.Contains(keep.addr) && g.Contains(keep.addr);
    }
  }

  lemma FreeIsCanonical(bufs: seq<Buf>, blocks: seq<Range>, k: nat)
    requires Canonical(bufs, blocks) && k < |bufs| && bufs[k].status == Used
    ensures Canonical(FreeAt(bufs, k, Idle), blocks)
    ensures NotIdle(FreeAt(bufs, k, Idle)) == NotIdle(bufs) - {bufs[k]}
  {
    FreeRetiles(bufs, blocks, k, Idle);
    FreeKeepsCoalesced(bufs, blocks, k, Idle);
    NotIdleAfterFree(bufs, blocks, k);
  }

  lemma CarveIsCanonical(bufs: seq<Buf>, blocks: seq<Range>, k: nat, keep: Range)
    requires Canonical(bufs, blocks) && k < |bufs| && Inside(keep, bufs[k])
    ensures Canonical(CarveAt(bufs, k, keep, bufs[k].status), blocks)
  {
    CarveTiled(bufs, blocks, k, keep, bufs[k].status);
    CarveCoalesced(bufs, k, keep, bufs[k].status);
  }

  /** The free addresses are those of distinct buffers in use. */
  ghost predicate ValidFrees(bufs: seq<Buf>, addrs: seq<int>) {
    && (forall i, j :: 0 <= i < j < |addrs| ==> addrs[i] != addrs[j])
    && (forall i :: 0 <= i < |addrs| ==> addrs[i] in Addrs(UsedSet(bufs)))
  }

  lemma FreeOneMore(bufs: seq<Buf>, r: seq<Buf>, blocks: seq<Range>, addrs: seq<int>, i: nat)
    requires Canonical(bufs, blocks) && Canonical(r, blocks) && BlocksDisjoint(blocks)
    requires ValidFrees(bufs, addrs) && i < |addrs|
    requires NotIdle(r) == NotIdle(bufs) - Freed(bufs, addrs[..i])
    ensures
      var k := IndexOf(r, addrs[i]);
      k >= 0 && Canonical(FreeAt(r, k, Idle), blocks) &&
      NotIdle(FreeAt(r, k, Idle)) == NotIdle(bufs) - Freed(bufs, addrs[..i + 1])
  {
    assert addrs[i] in Addrs(NotIdle(bufs));
    var b :| b in NotIdle(bufs) && b.addr == addrs[i];
    FreedGrows(bufs, blocks, addrs, i, b);
    FindNotIdle(r, blocks, b);
    FreeIsCanonical(r, blocks, IndexOf(r, addrs[i]));
  }

  lemma CarveOneMore(bufs: seq<Buf>, r: seq<Buf>, blocks: seq<Range>, freed: set<Buf>, keeps: seq<Range>, i: nat, k: nat)
    requires Canonical(bufs, blocks) && Canonical(r, blocks) && BlocksDisjoint(blocks) && freed <= NotIdle(bufs)
    requires ValidKeeps(freed, keeps) && i < |keeps|
    requires NotIdle(r) == (NotIdle(bufs) - freed) + Kept(freed, keeps[..i])
    requires k < |r| && r[k].status == Idle && Inside(keeps[i], r[k])
    requires forall f :: f in freed && Inside(keeps[i], f) ==> f.block == r[k].block
    ensures Canonical(CarveAt(r, k, keeps[i], Idle), blocks)
    ensures NotIdle(CarveAt(r, k, keeps[i], Idle)) == (NotIdle(bufs) - freed) + Kept(freed, keeps[..i + 1])
  {
    var f :| f in freed && Inside(keeps[i], f);
    NotIdleApart(bufs, blocks);
    KeptGrows(NotIdle(bufs), freed, keeps, i, f);
    CarveIsCanonical(r, blocks, k, keeps[i]);
    NotIdleAfterCarve(r, blocks, k, keeps[i], Idle);
    NotIdleInCarved(r[k], keeps[i]);
  }

  /**
    DynamicMemPoolBestFit::FreePartTensorMems: the exact result is the buffers in use
    before, less the freed ones, plus the kept ranges; buffers that are eager-free or wait
    for events stay as they are.
    */
  method FreeThenCarve(bufs: seq<Buf>, ghost blocks: seq<Range>, freeAddrs: seq<int>, keeps: seq<Range>) returns (r: seq<Buf>)
    requires Canonical(bufs, blocks) && BlocksDisjoint(blocks)
    requires ValidFrees(bufs, freeAddrs) && ValidKeeps(Freed(bufs, freeAddrs), keeps)
    ensures Canonical(r, blocks)
    ensures NotIdle(r) == (NotIdle(bufs) - Freed(bufs, freeAddrs)) + Kept(Freed(bufs, freeAddrs), keeps)
  {
    r := bufs;
    var i := 0;
    while i < |freeAddrs|
      invariant 0 <= i <= |freeAddrs|
      invariant Canonical(r, blocks)
      invariant NotIdle(r) == NotIdle(bufs) - Freed(bufs, freeAddrs[..i])
    {
      FreeOneMore(bufs, r, blocks, freeAddrs, i);
      r := FreeAt(r, IndexOf(r, freeAddrs[i]), Idle);
      i := i + 1;
    }
    assert freeAddrs[..i] == freeAddrs;
    ghost var freed := Freed(bufs, freeAddrs);
    i := 0;
    while i < |keeps|
      invariant 0 <= i <= |keeps|
      invariant Canonical(r, blocks)
      invariant NotIdle(r) == (NotIdle(bufs) - freed) + Kept(freed, keeps[..i])
    {
      var k := LastAtOrBelow(r, keeps[i].addr);
      KeepIsIdle(bufs, r, blocks, freed, keeps, i, k);
      CarveOneMore(bufs, r, blocks, freed, keeps, i, k);
      r := CarveAt(r, k, keeps[i], Idle);
      i := i + 1;
    }
    assert keeps[..i] == keeps;
  }

  lemma FreedGrows(bufs: seq<Buf>, blocks: seq<Range>, addrs: seq<int>, i: nat, b: Buf)
    requires Tiled(bufs, blocks) && BlocksDisjoint(blocks) && ValidFrees(bufs, addrs) && i < |addrs|
    requires b in NotIdle(bufs) && b.addr == addrs[i]
    ensures b !in Freed(bufs, addrs[..i]) && Freed(bufs, addrs[..i + 1]) == Freed(bufs, addrs[..i]) + {b}
  {
    var now, before := addrs[..i + 1], addrs[..i];
    assert now == before + [addrs[i]];
    forall c | c in NotIdle(bufs) && c.addr == addrs[i] ensures c == b {
      assert exists k :: 0 <= k < |bufs| && bufs[k] == c;
      assert exists k :: 0 <= k < |bufs| && bufs[k] == b;
      NotIdleApart(bufs, blocks);
      assert b.Contains(b.addr) && c.Contains(b.addr);
    }
  }

  // ------------------------------------------ the newer pool: split, then free

  /** c is what is left of a freed buffer, up to its end or up to a kept range. */
  ghost predicate IsRemainder(c: Buf, freed: set<Buf>, keeps: seq<Range>, i: nat)
    requires i <= |keeps|
  {
    exists f :: f in freed && f.block == c.block && f.addr <= c.addr && c.End() <= f.End() &&
      (c.End() == f.End() || exists j :: 0 <= j < i && keeps[j].addr == c.End())
  }

  ghost predicate CoversFreed(remainders: set<Buf>, freed: set<Buf>, keeps: seq<Range>, i: nat)
    requires i <= |keeps|
  {
    forall f, x :: f in freed && f.Contains(x) ==>
      (exists c :: c in remainders && c.Contains(x)) || exists j :: 0 <= j < i && Covers(keeps[j], x)
  }

  /**
    Where the split loop stands after i keep ranges: used are the buffers that were not idle
    before, now those that are not idle any more, and the remainders are still to be freed.
    */
  ghost predicate Halfway(used: set<Buf>, now: set<Buf>, freed: set<Buf>, keeps: seq<Range>, i: nat, remainders: set<Buf>)
    requires i <= |keeps|
  {
    && Accounted(used, now, freed, keeps, i, remainders)
    && (forall c :: c in remainders ==> c.status == Used && IsRemainder(c, freed, keeps, i))
    && CoversFreed(remainders, freed, keeps, i)
  }

  /** What is not idle is what was, without the freed buffers and with the ranges kept so far, and the remainders. */
  ghost predicate Accounted(used: set<Buf>, now: set<Buf>, freed: set<Buf>, keeps: seq<Range>, i: nat, remainders: set<Buf>)
    requires i <= |keeps|
  {
    remainders <= now && now - remainders == (used - freed) + Kept(freed, keeps[..i])
  }

  lemma HalfwayStarts(used: set<Buf>, freed: set<Buf>, keeps: seq<Range>)
    requires freed <= used && forall f :: f in freed ==> f.status == Used
    ensures Halfway(used, used, freed, keeps, 0, freed)
  {
    assert Kept(freed, keeps[..0]) == {};
  }

  /** Some remainder holds the first byte of the keep range; it is the last one not above it. */
  lemma KeepStartsInRemainder(now: set<Buf>, freed: set<Buf>, keeps: seq<Range>, i: nat,
                              remainders: set<Buf>, found: Option<int>) returns (c: Buf)
    requires NoOverlap(now) && remainders <= now && forall b :: b in remainders ==> b.size > 0
    requires ValidKeeps(freed, keeps) && i < |keeps|
    requires CoversFreed(remainders, freed, keeps, i)
    requires found == None ==> forall a :: a in Addrs(remainders) ==> a > keeps[i].addr
    requires found.Some? ==>
               && found.value in Addrs(remainders) && found.value <= keeps[i].addr
               && forall a :: a in Addrs(remainders) && a <= keeps[i].addr ==> a <= found.value
    ensures found.Some? && c in remainders && c.addr == found.value && c.Contains(keeps[i].addr)
  {
    var keep := keeps[i];
    var f :| f in freed && Inside(keep, f);
    assert forall j :: 0 <= j < i ==> !Covers(keeps[j], keep.addr) by {
      assert forall j :: 0 <= j < i ==> Apart(keeps[j], keep);
    }
    assert f.Contains(keep.addr);
    c :| c in remainders && c.Contains(keep.addr);
    assert c.addr in Addrs(remainders);
    var b :| b in remainders && b.addr == found.value;
    assert b.Contains(b.addr) && c.Contains(b.addr);
  }

  /** The remainder that holds the first byte of the keep range holds all of it. */
  lemma KeepEndsInRemainder(used: set<Buf>, freed: set<Buf>, keeps: seq<Range>, i: nat, c: Buf)
    requires NoOverlap(used) && freed <= used
    requires ValidKeeps(freed, keeps) && i < |keeps|
    requires IsRemainder(c, freed, keeps, i) && c.Contains(keeps[i].addr)
    ensures Inside(keeps[i], c)
    ensures forall f :: f in freed && Inside(keeps[i], f) ==> f.block == c.block
  {
    var keep := keeps[i];
    var g :| g in freed && g.block == c.block && g.addr <= c.addr && c.End() <= g.End() &&
             (c.End() == g.End() || exists j :: 0 <= j < i && keeps[j].addr == c.End());
    forall h | h in freed && Inside(keep, h) ensures h == g {
      assert g.Contains(keep.addr) && h.Contains(keep.addr);
    }
    assert forall j :: 0 <= j < i ==> Apart(keeps[j], keep) && keeps[j].size > 0;
  }

  function KeptIn(c: Buf, keep: Range): Buf {
    Buf(keep.addr, keep.size, Used, c.block)
  }

  /** What is left of the candidate c around the range, as buffers still to be freed. */
  function Rests(c: Buf, keep: Range): set<Buf> {
    (if keep.addr > c.addr then {Buf(c.addr, keep.addr - c.addr, Used, c.block)} else {})
    + (if keep.End() < c.End() then {Buf(keep.End(), c.End() - keep.End(), Used, c.block)} else {})
  }

  /** All that the candidate becomes. */
  function CutUp(c: Buf, keep: Range): set<Buf> {
    Rests(c, keep) + {KeptIn(c, keep)}
  }

  lemma SwapOne(used: set<Buf>, remainders: set<Buf>, c: Buf, rests: set<Buf>, kept: Buf)
    requires remainders <= used && c in remainders && kept !in rests && (kept in used ==> kept == c)
    requires forall p :: p in rests && p in used ==> p == c
    ensures remainders - {c} + rests <= used - {c} + rests + {kept}
    ensures (used - {c} + rests + {kept}) - (remainders - {c} + rests) == (used - remainders) + {kept}
  {
  }

  lemma PiecesAreNew(now: set<Buf>, c: Buf, keep: Range)
    requires NoOverlap(now) && c in now && Inside(keep, c)
    ensures forall p :: p in CutUp(c, keep) && p in now ==> p == c
  {
    forall p | p in CutUp(c, keep) && p in now ensures p == c {
      assert p.Contains(p.addr) && c.Contains(p.addr);
    }
  }

  lemma SplitSets(used: set<Buf>, now: set<Buf>, freed: set<Buf>, keeps: seq<Range>, i: nat, remainders: set<Buf>, c: Buf)
    requires NoOverlap(used) && NoOverlap(now) && freed <= used
    requires ValidKeeps(freed, keeps) && i < |keeps| && c in remainders && Inside(keeps[i], c)
    requires Accounted(used, now, freed, keeps, i, remainders)
    requires forall f :: f in freed && Inside(keeps[i], f) ==> f.block == c.block
    ensures Accounted(used, now - {c} + CutUp(c, keeps[i]), freed, keeps, i + 1,
                      remainders - {c} + Rests(c, keeps[i]))
  {
    var f :| f in freed && Inside(keeps[i], f);
    KeptGrows(used, freed, keeps, i, f);
    PiecesAreNew(now, c, keeps[i]);
    SwapOne(now, remainders, c, Rests(c, keeps[i]), KeptIn(c, keeps[i]));
  }

  lemma SplitNotIdle(r: seq<Buf>, blocks: seq<Range>, k: nat, keep: Range)
    requires Tiled(r, blocks) && k < |r| && r[k].status == Used && Inside(keep, r[k])
    ensures NotIdle(CarveAt(r, k, keep, Used)) == NotIdle(r) - {r[k]} + CutUp(r[k], keep)
  {
    NotIdleAfterCarve(r, blocks, k, keep, Used);
    NotIdleInCarved(r[k], keep);
  }

  lemma SplitRemainders(freed: set<Buf>, keeps: seq<Range>, i: nat, remainders: set<Buf>, c: Buf)
    requires i < |keeps| && c in remainders && Inside(keeps[i], c)
    requires forall b :: b in remainders ==> b.status == Used && IsRemainder(b, freed, keeps, i)
    requires CoversFreed(remainders, freed, keeps, i)
    ensures forall b :: b in remainders - {c} + Rests(c, keeps[i]) ==> b.status == Used && IsRemainder(b, freed, keeps, i + 1)
    ensures CoversFreed(remainders - {c} + Rests(c, keeps[i]), freed, keeps, i + 1)
  {
    var keep, after := keeps[i], remainders - {c} + Rests(c, keeps[i]);
    assert IsRemainder(c, freed, keeps, i);
    forall b | b in after ensures IsRemainder(b, freed, keeps, i + 1) {
      if b in remainders { assert IsRemainder(b, freed, keeps, i); }
    }
    forall f, x | f in freed && f.Contains(x)
      ensures (exists b :: b in after && b.Contains(x)) || exists j :: 0 <= j < i + 1 && Covers(keeps[j], x)
    {
      if b :| b in remainders && b.Contains(x) {
        if b != c {
          assert b in after;
        } else if x < keep.addr {
          assert Buf(c.addr, keep.addr - c.addr, Used, c.block) in after;
        } else if x >= keep.End() {
          assert Buf(keep.End(), c.End() - keep.End(), Used, c.block) in after;
        } else {
          assert Covers(keeps[i], x);
        }
      } else {
        var j :| 0 <= j < i && Covers(keeps[j], x);
      }
    }
  }

  lemma AddrsAfterSplit(now: set<Buf>, remainders: set<Buf>, c: Buf, keep: Range)
    requires NoOverlap(now) && remainders <= now && c in remainders && Inside(keep, c)
    requires forall b :: b in remainders ==> b.size > 0
    ensures
      Addrs(remainders - {c} + Rests(c, keep)) ==
      (if keep.addr == c.addr then Addrs(remainders) - {c.addr} else Addrs(remainders))
      + (if keep.End() < c.End() then {keep.End()} else {})
  {
    forall b | b in remainders && b.addr == c.addr ensures b == c {
      assert b.Contains(c.addr) && c.Contains(c.addr);
    }
    var after := remainders - {c} + Rests(c, keep);
    forall a | a in Addrs(remainders) && (a != c.addr || keep.addr != c.addr) ensures a in Addrs(after) {
      var b :| b in remainders && b.addr == a;
      if b == c { assert Buf(c.addr, keep.addr - c.addr, Used, c.block) in after; } else { assert b in after; }
    }
    if keep.End() < c.End() {
      assert Buf(keep.End(), c.End() - keep.End(), Used, c.block) in after;
    }
  }

  lemma HalfwayGoesOn(used: set<Buf>, now: set<Buf>, freed: set<Buf>, keeps: seq<Range>, i: nat, remainders: set<Buf>, c: Buf)
    requires NoOverlap(used) && NoOverlap(now) && freed <= used && ValidKeeps(freed, keeps) && i < |keeps|
    requires Halfway(used, now, freed, keeps, i, remainders) && c in remainders && Inside(keeps[i], c)
    requires forall f :: f in freed && Inside(keeps[i], f) ==> f.block == c.block
    ensures Halfway(used, now - {c} + CutUp(c, keeps[i]), freed, keeps, i + 1,
                    remainders - {c} + Rests(c, keeps[i]))
  {
    SplitSets(used, now, freed, keeps, i, remainders, c);
    SplitRemainders(freed, keeps, i, remainders, c);
  }

  /** Where the split loop stands in one tiling. */
  ghost predicate Splitting(bufs: seq<Buf>, r: seq<Buf>, blocks: seq<Range>, freed: set<Buf>, keeps: seq<Range>, i: nat, remainders: set<Buf>)
    requires i <= |keeps|
  {
    Canonical(r, blocks) && Halfway(NotIdle(bufs), NotIdle(r), freed, keeps, i, remainders)
  }

  lemma NotIdleHaveSize(bufs: seq<Buf>, blocks: seq<Range>)
    requires Tiled(bufs, blocks)
    ensures forall b :: b in NotIdle(bufs) ==> b.size > 0
  {
  }

  /** No listed address is that of a buffer kept only for its events. */
  predicate NoneWaits(bufs: seq<Buf>, addrs: seq<int>) {
    forall k :: 0 <= k < |bufs| && bufs[k].status == UsedByEvent ==> bufs[k].addr !in addrs
  }

  lemma ValidFreesDoNotWait(bufs: seq<Buf>, blocks: seq<Range>, addrs: seq<int>)
    requires Tiled(bufs, blocks) && BlocksDisjoint(blocks) && ValidFrees(bufs, addrs)
    ensures NoneWaits(bufs, addrs)
  {
    forall k, i | 0 <= k < |bufs| && bufs[k].status == UsedByEvent && 0 <= i < |addrs| ensures bufs[k].addr != addrs[i] {
      var b :| b in UsedSet(bufs) && b.addr == addrs[i];
      NotIdleApart(bufs, blocks);
      assert b.Contains(b.addr) && bufs[k].Contains(bufs[k].addr);
    }
  }

  /**
    AbstractDynamicMemPool::DoFreePartTensorMems.  candidates is the map of the buffers
    to free, by address; the frees at the end may come in any order.
    */
  method SplitThenFree(bufs: seq<Buf>, ghost blocks: seq<Range>, freeAddrs: seq<int>, keeps: seq<Range>) returns (r: seq<Buf>)
    requires Canonical(bufs, blocks) && BlocksDisjoint(blocks) && NoneWaits(bufs, freeAddrs)
    requires ValidKeeps(Freed(bufs, freeAddrs), keeps)
    ensures Canonical(r, blocks)
    ensures NotIdle(r) == (NotIdle(bufs) - Freed(bufs, freeAddrs)) + Kept(Freed(bufs, freeAddrs), keeps)
  {
    ghost var freed := Freed(bufs, freeAddrs);
    var candidates := Addrs(Freed(bufs, freeAddrs));
    ghost var remainders := freed;
    r := bufs;
    HalfwayStarts(NotIdle(bufs), freed, keeps);
    var i := 0;
    while i < |keeps|
      invariant 0 <= i <= |keeps|
      invariant Splitting(bufs, r, blocks, freed, keeps, i, remainders)
      invariant candidates == Addrs(remainders)
    {
      r, candidates, remainders := SplitOne(bufs, r, blocks, freed, keeps, i, candidates, remainders);
      i := i + 1;
    }
    assert keeps[..i] == keeps;
    r := FreeCandidates(r, blocks, candidates, remainders);
  }

  /** One round of the loop over the keep addresses. */
  method SplitOne(ghost bufs: seq<Buf>, before: seq<Buf>, ghost blocks: seq<Range>, ghost freed: set<Buf>, keeps: seq<Range>,
                  i: nat, candidates: set<int>, ghost remainders: set<Buf>)
    returns (r: seq<Buf>, candidates': set<int>, ghost remainders': set<Buf>)
    requires Canonical(bufs, blocks) && BlocksDisjoint(blocks) && freed <= NotIdle(bufs)
    requires ValidKeeps(freed, keeps) && i < |keeps|
    requires Splitting(bufs, before, blocks, freed, keeps, i, remainders) && candidates == Addrs(remainders)
    ensures Splitting(bufs, r, blocks, freed, keeps, i + 1, remainders') && candidates' == Addrs(remainders')
  {
    NotIdleApart(bufs, blocks);
    NotIdleApart(before, blocks);
    NotIdleHaveSize(before, blocks);
    var keep := keeps[i];
    var found := LastNotAbove(candidates, keep.addr);
    ghost var c := KeepStartsInRemainder(NotIdle(before), freed, keeps, i, remainders, found);
    KeepEndsInRemainder(NotIdle(bufs), freed, keeps, i, c);
    FindNotIdle(before, blocks, c);
    var k := IndexOf(before, found.value);
    SplitNotIdle(before, blocks, k, keep);
    HalfwayGoesOn(NotIdle(bufs), NotIdle(before), freed, keeps, i, remainders, c);
    CarveIsCanonical(before, blocks, k, keep);
    AddrsAfterSplit(NotIdle(before), remainders, c, keep);
    candidates' := CandidatesAfter(candidates, before[k], keep);
    remainders' := remainders - {c} + Rests(c, keep);
    r := CarveAt(before, k, keep, Used);
  }

  /** A keep range at the start takes the candidate away, and what is behind the range is a new one. */
  function CandidatesAfter(candidates: set<int>, c: Buf, keep: Range): set<int> {
    (if keep.addr == c.addr then candidates - {c.addr} else candidates)
    + (if keep.End() < c.End() then {keep.End()} else {})
  }

  method FreeCandidates(bufs: seq<Buf>, ghost blocks: seq<Range>, addrs: set<int>, ghost remainders: set<Buf>) returns (r: seq<Buf>)
    requires Canonical(bufs, blocks) && BlocksDisjoint(blocks)
    requires remainders <= UsedSet(bufs) && addrs == Addrs(remainders)
    ensures Canonical(r, blocks) && NotIdle(r) == NotIdle(bufs) - remainders
  {
    r := bufs;
    NotIdleApart(bufs, blocks);
    NotIdleHaveSize(bufs, blocks);
    var todo := addrs;
    ghost var left := remainders;
    while todo != {}
      invariant Canonical(r, blocks) && todo == Addrs(left) && left <= remainders
      invariant NotIdle(r) == NotIdle(bufs) - (remainders - left)
      decreases todo
    {
      var a :| a in todo;
      ghost var b :| b in left && b.addr == a;
      FindNotIdle(r, blocks, b);
      var k := IndexOf(r, a);
      FreeIsCanonical(r, blocks, k);
      AddrsWithout(NotIdle(bufs), left, b);
      r := FreeAt(r, k, Idle);
      todo := todo - {a};
      left := left - {b};
    }
    AddrsEmpty(left);
  }

  lemma AddrsEmpty(s: set<Buf>)
    ensures Addrs(s) == {} <==> s == {}
  {
    forall b | b in s ensures b.addr in Addrs(s) {
    }
  }

  lemma AddrsWithout(now: set<Buf>, s: set<Buf>, b: Buf)
    requires NoOverlap(now) && s <= now && b in s && forall c :: c in s ==> c.size > 0
    ensures Addrs(s - {b}) == Addrs(s) - {b.addr}
  {
    forall c | c in s && c.addr == b.addr ensures c == b {
      assert b.Contains(b.addr) && c.Contains(b.addr);
    }
    forall a | a in Addrs(s) - {b.addr} ensures a in Addrs(s - {b}) {
      var c :| c in s && c.addr == a;
      assert c in s - {b};
    }
  }

  /** Both algorithms leave every block with the same neighbour list. */
  method BothPoolsAgree(bufs: seq<Buf>, ghost blocks: seq<Range>, freeAddrs: seq<int>, keeps: seq<Range>) returns (old1: seq<Buf>, new1: seq<Buf>)
    requires Canonical(bufs, blocks) && BlocksDisjoint(blocks)
    requires ValidFrees(bufs, freeAddrs) && ValidKeeps(Freed(bufs, freeAddrs), keeps)
    ensures old1 == new1
    ensures NotIdle(new1) == (NotIdle(bufs) - Freed(bufs, freeAddrs)) + Kept(Freed(bufs, freeAddrs), keeps)
  {
    old1 := FreeThenCarve(bufs, blocks, freeAddrs, keeps);
    ValidFreesDoNotWait(bufs, blocks, freeAddrs);
    new1 := SplitThenFree(bufs, blocks, freeAddrs, keeps);
    CanonicalIsUnique(old1, new1, blocks);
  }
}
