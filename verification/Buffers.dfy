/**
  The memory buffers of one allocator as a value: the neighbour lists of its blocks,
  one behind the other.  The allocator class, the partial free and the pool are all
  stated in terms of the functions here.
  */
module Buffers {

  datatype Status = Idle | Used | EagerFree | UsedByEvent

  /** block is the position of the buffer's block in the allocator's list of blocks. */
  datatype Buf = Buf(addr: int, size: int, status: Status, block: nat) {
    function End(): int {
      addr + size
    }

    predicate Contains(x: int) {
      addr <= x < End()
    }
  }

  datatype Range = Range(addr: int, size: int) {
    function End(): int {
      addr + size
    }
  }

  /** kDynamicMemAlignSize */
  const ALIGN_SIZE := 512

  /** AlignMemorySize */
  function AlignMemorySize(size: nat): (r: nat)
    ensures r >= size && r >= 512 && r % 512 == 0
    ensures size > 0 ==> r < size + 512
  {
    if size == 0 then ALIGN_SIZE else (size + ALIGN_SIZE - 1) / ALIGN_SIZE * ALIGN_SIZE
  }

  // ----------------------------------------------------------------- the tiling

  /** b comes directly behind a: in the same block without a gap, or it opens the next block. */
  predicate Joint(a: Buf, b: Buf, blocks: seq<Range>) {
    if a.block == b.block then a.End() == b.addr
    else
      && b.block == a.block + 1 && b.block < |blocks|
      && a.End() == blocks[a.block].End() && b.addr == blocks[b.block].addr
  }

  /** The buffers cover every block from its start to its end, in order, with no gap and no overlap. */
  predicate Tiled(bufs: seq<Buf>, blocks: seq<Range>) {
    && (bufs == [] <==> blocks == [])
    && (forall k :: 0 <= k < |bufs| ==> bufs[k].size > 0 && bufs[k].block < |blocks|)
    && (forall k :: 0 <= k < |bufs| - 1 ==> Joint(bufs[k], bufs[k + 1], blocks))
    && (bufs != [] ==>
          var first, last := bufs[0], bufs[|bufs| - 1];
          && first.block == 0 && first.addr == blocks[0].addr
          && last.block == |blocks| - 1 && last.End() == blocks[|blocks| - 1].End())
  }

  predicate IsFree(status: Status) {
    status == Idle || status == EagerFree
  }

  /** No two neighbours are both idle or both eager-free. */
  predicate Coalesced(bufs: seq<Buf>) {
    forall k :: 0 <= k < |bufs| - 1 ==> Separate(bufs[k], bufs[k + 1])
  }

  predicate Separate(a: Buf, b: Buf) {
    a.block == b.block && a.status == b.status ==> !IsFree(a.status)
  }

  /** Earlier buffers are in earlier blocks or at smaller addresses. */
  predicate Before(a: Buf, b: Buf) {
    a.block < b.block || (a.block == b.block && a.End() <= b.addr)
  }

  lemma {:induction false} TiledIsOrdered(bufs: seq<Buf>, blocks: seq<Range>, i: nat, j: nat)
    requires Tiled(bufs, blocks) && i < j < |bufs|
    ensures Before(bufs[i], bufs[j])
  {
    assert Joint(bufs[j - 1], bufs[j], blocks);
    if i < j - 1 { TiledIsOrdered(bufs, blocks, i, j - 1); }
  }

  lemma {:induction false} TiledStartsAtBlock(bufs: seq<Buf>, blocks: seq<Range>, i: nat)
    requires Tiled(bufs, blocks) && i < |bufs|
    ensures bufs[i].addr >= blocks[bufs[i].block].addr
  {
    if i > 0 {
      assert Joint(bufs[i - 1], bufs[i], blocks);
      TiledStartsAtBlock(bufs, blocks, i - 1);
    }
  }

  lemma {:induction false} TiledEndsAtBlock(bufs: seq<Buf>, blocks: seq<Range>, i: nat)
    requires Tiled(bufs, blocks) && i < |bufs|
    ensures bufs[i].End() <= blocks[bufs[i].block].End()
    decreases |bufs| - i
  {
    if i < |bufs| - 1 {
      assert Joint(bufs[i], bufs[i + 1], blocks);
      TiledEndsAtBlock(bufs, blocks, i + 1);
    }
  }

  /** Blocks are reserved at disjoint addresses. */
  predicate Apart(a: Range, b: Range) {
    a.End() <= b.addr || b.End() <= a.addr
  }

  predicate BlocksDisjoint(blocks: seq<Range>) {
    forall i, j :: 0 <= i < j < |blocks| ==> blocks[i].End() <= blocks[j].addr || blocks[j].End() <= blocks[i].addr
  }

  lemma InBlock(bufs: seq<Buf>, blocks: seq<Range>, k: nat)
    requires Tiled(bufs, blocks) && k < |bufs|
    ensures blocks[bufs[k].block].addr <= bufs[k].addr && bufs[k].End() <= blocks[bufs[k].block].End()
  {
    TiledStartsAtBlock(bufs, blocks, k);
    TiledEndsAtBlock(bufs, blocks, k);
  }

  /** An address belongs to one buffer only. */
  lemma OneOwner(bufs: seq<Buf>, blocks: seq<Range>, i: nat, j: nat, x: int)
    requires Tiled(bufs, blocks) && BlocksDisjoint(blocks)
    requires i < |bufs| && j < |bufs| && bufs[i].Contains(x) && bufs[j].Contains(x)
    ensures i == j
  {
    if i < j { TiledIsOrdered(bufs, blocks, i, j); }
    if j < i { TiledIsOrdered(bufs, blocks, j, i); }
    InBlock(bufs, blocks, i);
    InBlock(bufs, blocks, j);
  }

  /** The lookup of a buffer by its start address. */
  function IndexOf(bufs: seq<Buf>, addr: int): (k: int)
    ensures -1 <= k < |bufs|
    ensures k >= 0 ==> bufs[k].addr == addr
    ensures k == -1 ==> forall i :: 0 <= i < |bufs| ==> bufs[i].addr != addr
  {
    if bufs == [] then -1
    else if bufs[0].addr == addr then 0
    else
      var k := IndexOf(bufs[1..], addr);
      assert forall i :: 1 <= i < |bufs| ==> bufs[i] == bufs[1..][i - 1];
      if k == -1 then -1 else k + 1
  }

  // ------------------------------------------------------------ local surgery

  /** mid tiles the same bytes of the same block as bufs[lo..hi]. */
  predicate Retiles(bufs: seq<Buf>, lo: nat, hi: nat, mid: seq<Buf>) {
    && lo < hi <= |bufs| && |mid| > 0
    && (forall k :: lo <= k < hi ==> bufs[k].block == bufs[lo].block)
    && (forall k :: 0 <= k < |mid| ==> mid[k].block == bufs[lo].block && mid[k].size > 0)
    && (forall k :: 0 <= k < |mid| - 1 ==> mid[k].End() == mid[k + 1].addr)
    && mid[0].addr == bufs[lo].addr && mid[|mid| - 1].End() == bufs[hi - 1].End()
  }

  function Replace(bufs: seq<Buf>, lo: nat, hi: nat, mid: seq<Buf>): seq<Buf>
    requires lo <= hi <= |bufs|
  {
    bufs[..lo] + mid + bufs[hi..]
  }

  lemma ReplaceTiled(bufs: seq<Buf>, blocks: seq<Range>, lo: nat, hi: nat, mid: seq<Buf>)
    requires Tiled(bufs, blocks) && Retiles(bufs, lo, hi, mid)
    ensures Tiled(Replace(bufs, lo, hi, mid), blocks)
  {
    var r := Replace(bufs, lo, hi, mid);
    var shift := |mid| - (hi - lo);
    forall k | 0 <= k < |r| ensures r[k].size > 0 && r[k].block < |blocks| {
      if k >= lo + |mid| { assert r[k] == bufs[k - shift]; }
    }
    forall k | 0 <= k < |r| - 1 ensures Joint(r[k], r[k + 1], blocks) {
      if k + 1 < lo {
        assert Joint(bufs[k], bufs[k + 1], blocks);
      } else if k + 1 == lo {
        assert Joint(bufs[k], bufs[lo], blocks);
      } else if k < lo + |mid| - 1 {
        assert r[k] == mid[k - lo] && r[k + 1] == mid[k - lo + 1];
      } else {
        assert r[k + 1] == bufs[k + 1 - shift];
        assert Joint(bufs[k - shift], bufs[k + 1 - shift], blocks);
      }
    }
  }

  /** Surgery keeps Coalesced if the new pieces are separate, inside and at both seams. */
  lemma ReplaceCoalesced(bufs: seq<Buf>, lo: nat, hi: nat, mid: seq<Buf>)
    requires Coalesced(bufs) && lo < hi <= |bufs| && |mid| > 0
    requires Coalesced(mid)
    requires lo > 0 ==> Separate(bufs[lo - 1], mid[0])
    requires hi < |bufs| ==> Separate(mid[|mid| - 1], bufs[hi])
    ensures Coalesced(Replace(bufs, lo, hi, mid))
  {
    var r := Replace(bufs, lo, hi, mid);
    var shift := |mid| - (hi - lo);
    forall k | 0 <= k < |r| - 1 ensures Separate(r[k], r[k + 1]) {
      if k + 1 < lo {
        assert Separate(bufs[k], bufs[k + 1]);
      } else if lo <= k < lo + |mid| - 1 {
        assert Separate(mid[k - lo], mid[k - lo + 1]);
      } else if k >= lo + |mid| {
        assert Separate(bufs[k - shift], bufs[k + 1 - shift]);
      }
    }
  }

  // ------------------------------------------------------------------- freeing

  /** Free merges with a neighbour of the same block that already has the target status. */
  predicate Merges(bufs: seq<Buf>, k: nat, other: int, target: Status)
    requires k < |bufs|
  {
    0 <= other < |bufs| && bufs[other].block == bufs[k].block && bufs[other].status == target
  }

  function MergeLow(bufs: seq<Buf>, k: nat, target: Status): (lo: nat)
    requires k < |bufs|
    ensures lo <= k <= lo + 1
    ensures lo < k ==> bufs[lo].status == target && bufs[lo].block == bufs[k].block
  {
    if Merges(bufs, k, k - 1, target) then k - 1 else k
  }

  function MergeHigh(bufs: seq<Buf>, k: nat, target: Status): (hi: nat)
    requires k < |bufs|
    ensures k < hi <= k + 2 && hi <= |bufs|
    ensures hi == k + 2 ==> bufs[k + 1].status == target && bufs[k + 1].block == bufs[k].block
  {
    if Merges(bufs, k, k + 1, target) then k + 2 else k + 1
  }

  function Merged(bufs: seq<Buf>, k: nat, target: Status): Buf
    requires k < |bufs|
  {
    var lo, hi := MergeLow(bufs, k, target), MergeHigh(bufs, k, target);
    Buf(bufs[lo].addr,
        (if lo < k then bufs[lo].size else 0) + bufs[k].size + (if hi == k + 2 then bufs[k + 1].size else 0),
        target, bufs[k].block)
  }

  /** MemBufAllocator::Free for a buffer without pending events. */
  function FreeAt(bufs: seq<Buf>, k: nat, target: Status): seq<Buf>
    requires k < |bufs|
  {
    Replace(bufs, MergeLow(bufs, k, target), MergeHigh(bufs, k, target), [Merged(bufs, k, target)])
  }

  lemma FreeRetiles(bufs: seq<Buf>, blocks: seq<Range>, k: nat, target: Status)
    requires Tiled(bufs, blocks) && k < |bufs|
    ensures Retiles(bufs, MergeLow(bufs, k, target), MergeHigh(bufs, k, target), [Merged(bufs, k, target)])
    ensures Tiled(FreeAt(bufs, k, target), blocks)
  {
    var lo, hi := MergeLow(bufs, k, target), MergeHigh(bufs, k, target);
    if lo < k { assert Joint(bufs[k - 1], bufs[k], blocks); }
    if hi == k + 2 { assert Joint(bufs[k], bufs[k + 1], blocks); }
    ReplaceTiled(bufs, blocks, lo, hi, [Merged(bufs, k, target)]);
  }

  lemma FreeKeepsCoalesced(bufs: seq<Buf>, blocks: seq<Range>, k: nat, target: Status)
    requires Tiled(bufs, blocks) && Coalesced(bufs) && k < |bufs| && IsFree(target)
    ensures Coalesced(FreeAt(bufs, k, target))
  {
    var lo, hi := MergeLow(bufs, k, target), MergeHigh(bufs, k, target);
    if lo < k && lo > 0 { assert Separate(bufs[lo - 1], bufs[lo]); assert Joint(bufs[lo - 1], bufs[lo], blocks); }
    if hi == k + 2 && hi < |bufs| { assert Separate(bufs[hi - 1], bufs[hi]); assert Joint(bufs[hi - 1], bufs[hi], blocks); }
    ReplaceCoalesced(bufs, lo, hi, [Merged(bufs, k, target)]);
  }

  /** A buffer in use that waits for events is still in use. */
  lemma MarkedStaysTiled(view: seq<Buf>, blocks: seq<Range>, k: nat)
    requires Tiled(view, blocks) && Coalesced(view) && k < |view| && !IsFree(view[k].status)
    ensures Tiled(view[k := view[k].(status := UsedByEvent)], blocks)
    ensures Coalesced(view[k := view[k].(status := UsedByEvent)])
  {
    var r := view[k := view[k].(status := UsedByEvent)];
    forall i | 0 <= i < |r| - 1 ensures Joint(r[i], r[i + 1], blocks) && Separate(r[i], r[i + 1]) {
      assert Joint(view[i], view[i + 1], blocks) && Separate(view[i], view[i + 1]);
    }
  }

  // ---------------------------------------------------------------- allocating

  /** What MapAndSplitMemBuf makes of a candidate of at least the wanted size. */
  function Pieces(b: Buf, size: int): (r: seq<Buf>)
    ensures r != [] && r[0].addr == b.addr && r[0].block == b.block && r[0].status == Used
    ensures b.size - size < 512 ==> |r| == 1 && r[0].size == b.size
    ensures b.size - size >= 512 ==> |r| == 2 && r[0].size == size && r[1].size == b.size - size && r[1].status == b.status
  {
    if b.size - size >= ALIGN_SIZE
    then [Buf(b.addr, size, Used, b.block), Buf(b.addr + size, b.size - size, b.status, b.block)]
    else [b.(status := Used)]
  }

  function SplitAt(bufs: seq<Buf>, k: nat, size: int): seq<Buf>
    requires k < |bufs|
  {
    Replace(bufs, k, k + 1, Pieces(bufs[k], size))
  }

  lemma SplitRetiles(bufs: seq<Buf>, blocks: seq<Range>, k: nat, size: int)
    requires Tiled(bufs, blocks) && k < |bufs| && 0 < size <= bufs[k].size
    ensures Retiles(bufs, k, k + 1, Pieces(bufs[k], size))
    ensures Tiled(SplitAt(bufs, k, size), blocks)
  {
    ReplaceTiled(bufs, blocks, k, k + 1, Pieces(bufs[k], size));
  }

  lemma SplitKeepsCoalesced(bufs: seq<Buf>, k: nat, size: int)
    requires Coalesced(bufs) && k < |bufs|
    ensures Coalesced(SplitAt(bufs, k, size))
  {
    if k + 1 < |bufs| { assert Separate(bufs[k], bufs[k + 1]); }
    ReplaceCoalesced(bufs, k, k + 1, Pieces(bufs[k], size));
  }

  /** a comes before b in a set ordered by MemBufComparator. */
  predicate Precedes(a: Buf, b: Buf) {
    if a.size != b.size then a.size < b.size else a.addr < b.addr
  }

  /** k is the answer of lower_bound(size) in the ordered set of the buffers with that status. */
  ghost predicate IsBestFit(bufs: seq<Buf>, status: Status, size: int, k: nat) {
    && k < |bufs| && bufs[k].status == status && bufs[k].size >= size
    && forall j :: 0 <= j < |bufs| && j != k && bufs[j].status == status && bufs[j].size >= size
                   ==> Precedes(bufs[k], bufs[j])
  }

  ghost predicate NoneFits(bufs: seq<Buf>, status: Status, size: int) {
    forall j :: 0 <= j < |bufs| && bufs[j].status == status ==> bufs[j].size < size
  }

  /** lower_bound(size) in the ordered set of the buffers with that status; -1 is end(). */
  function BestFit(bufs: seq<Buf>, status: Status, size: int): (k: int)
    ensures -1 <= k < |bufs|
    ensures k == -1 ==> NoneFits(bufs, status, size)
    ensures k >= 0 ==> bufs[k].status == status && bufs[k].size >= size
    ensures k >= 0 ==> forall j :: 0 <= j < |bufs| && bufs[j].status == status && bufs[j].size >= size
                                   ==> !Precedes(bufs[j], bufs[k])
  {
    if bufs == [] then -1
    else
      var n := |bufs| - 1;
      var j := BestFit(bufs[..n], status, size);
      assert forall i :: 0 <= i < n ==> bufs[..n][i] == bufs[i];
      if bufs[n].status == status && bufs[n].size >= size && (j == -1 || Precedes(bufs[n], bufs[j])) then n else j
  }

  lemma BestFitIsBest(bufs: seq<Buf>, blocks: seq<Range>, status: Status, size: int)
    requires Tiled(bufs, blocks) && BlocksDisjoint(blocks)
    ensures var k := BestFit(bufs, status, size); k >= 0 ==> IsBestFit(bufs, status, size, k)
    ensures var k := BestFit(bufs, status, size);
      k >= 0 ==> forall j :: 0 <= j < |bufs| && bufs[j].status == status && bufs[j].size >= size ==>
                   bufs[k].size < bufs[j].size || (bufs[k].size == bufs[j].size && bufs[k].addr <= bufs[j].addr)
  {
    var k := BestFit(bufs, status, size);
    if k >= 0 {
      forall j | 0 <= j < |bufs| && j != k && bufs[j].status == status && bufs[j].size >= size
        ensures Precedes(bufs[k], bufs[j])
      {
        if bufs[j].addr == bufs[k].addr { OneOwner(bufs, blocks, j, k, bufs[k].addr); }
      }
    }
  }

  /** A new block joins the allocator as one free buffer. */
  function Expand(bufs: seq<Buf>, blocks: seq<Range>, block: Range, status: Status): seq<Buf> {
    bufs + [Buf(block.addr, block.size, status, |blocks|)]
  }

  lemma ExpandTiled(bufs: seq<Buf>, blocks: seq<Range>, block: Range, status: Status)
    requires Tiled(bufs, blocks) && block.size > 0
    ensures Tiled(Expand(bufs, blocks, block, status), blocks + [block])
    ensures Coalesced(bufs) ==> Coalesced(Expand(bufs, blocks, block, status))
  {
    var r, all := Expand(bufs, blocks, block, status), blocks + [block];
    forall k | 0 <= k < |r| - 1 ensures Joint(r[k], r[k + 1], all) {
      if k < |bufs| - 1 { assert Joint(bufs[k], bufs[k + 1], blocks); }
    }
    if Coalesced(bufs) {
      forall k | 0 <= k < |r| - 1 ensures Separate(r[k], r[k + 1]) {
        if k < |bufs| - 1 { assert Separate(bufs[k], bufs[k + 1]); }
      }
    }
  }

  // ------------------------------------------------- what freeing leaves alone

  /** The buffers that are handed out, as a set. */
  function InUse(bufs: seq<Buf>): set<Buf> {
    set k | 0 <= k < |bufs| && !IsFree(bufs[k].status) :: bufs[k]
  }

  /** The bytes of one status. */
  function SizeOf(bufs: seq<Buf>, status: Status): int {
    if bufs == [] then 0
    else SizeOf(bufs[..|bufs| - 1], status) + if bufs[|bufs| - 1].status == status then bufs[|bufs| - 1].size else 0
  }

  lemma {:induction false} SizeOfConcat(a: seq<Buf>, b: seq<Buf>, status: Status)
    ensures SizeOf(a + b, status) == SizeOf(a, status) + SizeOf(b, status)
  {
    if b == [] {
      assert a + b == a;
    } else {
      assert (a + b)[..|a + b| - 1] == a + b[..|b| - 1];
      SizeOfConcat(a, b[..|b| - 1], status);
    }
  }

  lemma SizeOfReplace(bufs: seq<Buf>, lo: nat, hi: nat, mid: seq<Buf>, status: Status)
    requires lo <= hi <= |bufs|
    ensures SizeOf(Replace(bufs, lo, hi, mid), status) == SizeOf(bufs, status) - SizeOf(bufs[lo..hi], status) + SizeOf(mid, status)
  {
    assert bufs == (bufs[..lo] + bufs[lo..hi]) + bufs[hi..];
    SizeOfConcat(bufs[..lo] + bufs[lo..hi], bufs[hi..], status);
    SizeOfConcat(bufs[..lo], bufs[lo..hi], status);
    SizeOfConcat(bufs[..lo] + mid, bufs[hi..], status);
    SizeOfConcat(bufs[..lo], mid, status);
  }

  lemma {:induction false} InUseReplace(bufs: seq<Buf>, lo: nat, hi: nat, mid: seq<Buf>)
    requires lo <= hi <= |bufs|
    requires forall i :: lo <= i < hi ==> IsFree(bufs[i].status)
    requires forall i :: 0 <= i < |mid| ==> IsFree(mid[i].status)
    ensures InUse(Replace(bufs, lo, hi, mid)) == InUse(bufs)
  {
    var r := Replace(bufs, lo, hi, mid);
    forall b | b in InUse(r) ensures b in InUse(bufs) {
      var k :| 0 <= k < |r| && r[k] == b && !IsFree(b.status);
      assert b == bufs[if k < lo then k else k - |mid| + hi - lo];
    }
    forall b | b in InUse(bufs) ensures b in InUse(r) {
      var k :| 0 <= k < |bufs| && bufs[k] == b && !IsFree(b.status);
      assert b == r[if k < lo then k else k + |mid| - (hi - lo)];
    }
  }

  lemma {:induction false} SizeOfOthers(bufs: seq<Buf>, k: nat, status: Status)
    requires k < |bufs|
    requires forall i :: 0 <= i < |bufs| && i != k ==> bufs[i].status != status
    ensures SizeOf(bufs, status) == if bufs[k].status == status then bufs[k].size else 0
  {
    var front := bufs[..|bufs| - 1];
    if k < |front| {
      SizeOfOthers(front, k, status);
    } else if front != [] {
      SizeOfOthers(front, 0, status);
    }
  }

  lemma MergeRange(bufs: seq<Buf>, k: nat, target: Status)
    requires k < |bufs|
    ensures var lo, hi := MergeLow(bufs, k, target), MergeHigh(bufs, k, target);
            forall i :: 0 <= i < hi - lo && i != k - lo ==> bufs[lo..hi][i].status == target
  {
  }

  /** Releasing an idle buffer touches no buffer in use and takes its size from the idle total. */
  lemma ReleaseSparesInUse(bufs: seq<Buf>, k: nat)
    requires k < |bufs| && bufs[k].status == Idle
    ensures InUse(FreeAt(bufs, k, EagerFree)) == InUse(bufs)
    ensures SizeOf(FreeAt(bufs, k, EagerFree), Idle) == SizeOf(bufs, Idle) - bufs[k].size
  {
    var lo, hi, m := MergeLow(bufs, k, EagerFree), MergeHigh(bufs, k, EagerFree), Merged(bufs, k, EagerFree);
    InUseReplace(bufs, lo, hi, [m]);
    SizeOfReplace(bufs, lo, hi, [m], Idle);
    MergeRange(bufs, k, EagerFree);
    SizeOfOthers(bufs[lo..hi], k - lo, Idle);
    SizeOfOthers([m], 0, Idle);
  }

  // ----------------------------------------------- one idle buffer per block

  /** Without eager free, freeing everything leaves every block as one idle buffer. */
  lemma {:induction false} AllIdleIsOneBufPerBlock(bufs: seq<Buf>, blocks: seq<Range>, k: nat)
    requires Tiled(bufs, blocks) && Coalesced(bufs)
    requires forall i :: 0 <= i < |bufs| ==> bufs[i].status == Idle
    requires k < |bufs|
    ensures k < |blocks| && bufs[k] == Buf(blocks[k].addr, blocks[k].size, Idle, k)
  {
    if k > 0 {
      AllIdleIsOneBufPerBlock(bufs, blocks, k - 1);
      assert Joint(bufs[k - 1], bufs[k], blocks) && Separate(bufs[k - 1], bufs[k]);
    }
    if k < |bufs| - 1 {
      assert Joint(bufs[k], bufs[k + 1], blocks) && Separate(bufs[k], bufs[k + 1]);
    }
  }

  lemma AllIdleIsOnePerBlock(bufs: seq<Buf>, blocks: seq<Range>)
    requires Tiled(bufs, blocks) && Coalesced(bufs)
    requires forall i :: 0 <= i < |bufs| ==> bufs[i].status == Idle
    ensures bufs == seq(|blocks|, k requires 0 <= k < |blocks| => Buf(blocks[k].addr, blocks[k].size, Idle, k))
  {
    forall k | 0 <= k < |bufs|
      ensures k < |blocks| && bufs[k] == Buf(blocks[k].addr, blocks[k].size, Idle, k)
    {
      AllIdleIsOneBufPerBlock(bufs, blocks, k);
    }
  }

  // -------------------------------------------------------- canonical tilings

  /** All buffers but the idle ones, as a set. */
  function NotIdle(bufs: seq<Buf>): set<Buf> {
    set k | 0 <= k < |bufs| && bufs[k].status != Idle :: bufs[k]
  }

  ghost predicate Canonical(bufs: seq<Buf>, blocks: seq<Range>) {
    Tiled(bufs, blocks) && Coalesced(bufs)
  }

  lemma NotIdleIsUnique(bufs: seq<Buf>, blocks: seq<Range>, u: Buf, k: nat, x: int)
    requires Tiled(bufs, blocks) && u in NotIdle(bufs) && k < |bufs|
    requires bufs[k].block == u.block && bufs[k].Contains(x) && u.Contains(x)
    ensures bufs[k] == u
  {
    var j :| 0 <= j < |bufs| && bufs[j] == u;
    if j < k { TiledIsOrdered(bufs, blocks, j, k); }
    if k < j { TiledIsOrdered(bufs, blocks, k, j); }
  }

  /** Two tilings that agree so far go on at the same place of the same block. */
  lemma SamePlace(a: seq<Buf>, b: seq<Buf>, blocks: seq<Range>, k: nat)
    requires Tiled(a, blocks) && Tiled(b, blocks)
    requires k < |a| && k <= |b| && a[..k] == b[..k]
    ensures k < |b| && a[k].block == b[k].block && a[k].addr == b[k].addr
  {
    if k > 0 {
      assert a[k - 1] == a[..k][k - 1] == b[k - 1];
      assert Joint(a[k - 1], a[k], blocks);
      TiledEndsAtBlock(a, blocks, k);
      if k < |b| {
        assert Joint(b[k - 1], b[k], blocks);
        TiledEndsAtBlock(b, blocks, k);
      }
    }
  }

  /** An idle buffer ends where the block ends or where a buffer starts that is not idle. */
  lemma IdleEnds(bufs: seq<Buf>, blocks: seq<Range>, k: nat)
    requires Canonical(bufs, blocks) && k < |bufs| && bufs[k].status == Idle
    ensures bufs[k].End() <= blocks[bufs[k].block].End()
    ensures
      || bufs[k].End() == blocks[bufs[k].block].End()
      || (k + 1 < |bufs| && bufs[k + 1].status != Idle && bufs[k + 1].block == bufs[k].block &&
          bufs[k + 1].addr == bufs[k].End())
  {
    TiledEndsAtBlock(bufs, blocks, k);
    if k + 1 < |bufs| {
      assert Joint(bufs[k], bufs[k + 1], blocks) && Separate(bufs[k], bufs[k + 1]);
    }
  }

  lemma IdleNotLonger(a: seq<Buf>, b: seq<Buf>, blocks: seq<Range>, k: nat)
    requires Canonical(a, blocks) && Canonical(b, blocks) && NotIdle(a) == NotIdle(b)
    requires k < |a| && k < |b| && a[k].block == b[k].block && a[k].addr == b[k].addr
    requires a[k].status == b[k].status == Idle
    ensures a[k].size >= b[k].size
  {
    IdleEnds(a, blocks, k);
    IdleEnds(b, blocks, k);
    if a[k].size < b[k].size {
      var u := a[k + 1];
      assert u in NotIdle(a);
      NotIdleIsUnique(b, blocks, u, k, u.addr);
      assert false;
    }
  }

  lemma SameBuf(a: seq<Buf>, b: seq<Buf>, blocks: seq<Range>, k: nat)
    requires Canonical(a, blocks) && Canonical(b, blocks) && NotIdle(a) == NotIdle(b)
    requires k < |a| && k < |b| && a[k].block == b[k].block && a[k].addr == b[k].addr
    ensures a[k] == b[k]
  {
    if a[k].status != Idle {
      assert a[k] in NotIdle(a);
      NotIdleIsUnique(b, blocks, a[k], k, a[k].addr);
    } else if b[k].status != Idle {
      assert b[k] in NotIdle(b);
      NotIdleIsUnique(a, blocks, b[k], k, b[k].addr);
    } else {
      IdleNotLonger(a, b, blocks, k);
      IdleNotLonger(b, a, blocks, k);
    }
  }

  /**
    A coalesced tiling of given blocks is determined by the buffers that are not idle: two
    allocators that agree on these have the same neighbour lists.
    */
  lemma CanonicalIsUnique(a: seq<Buf>, b: seq<Buf>, blocks: seq<Range>)
    requires Canonical(a, blocks) && Canonical(b, blocks) && NotIdle(a) == NotIdle(b)
    ensures a == b
  {
    var k := 0;
    while k < |a|
      invariant 0 <= k <= |a| && k <= |b| && a[..k] == b[..k]
    {
      SamePlace(a, b, blocks, k);
      SameBuf(a, b, blocks, k);
      assert a[..k + 1] == a[..k] + [a[k]] && b[..k + 1] == b[..k] + [b[k]];
      k := k + 1;
    }
    if k < |b| { SamePlace(b, a, blocks, k); }
    assert a == a[..k] && b == b[..k];
  }
}
