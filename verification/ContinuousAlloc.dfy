/** AllocContinuousTensorMem: one buffer is cut into pieces of given sizes. */
module ContinuousAlloc {

  import opened Buffers

  function Sum(sizes: seq<nat>): nat {
    if sizes == [] then 0 else sizes[0] + Sum(sizes[1..])
  }

  lemma {:induction false} SumUpTo(sizes: seq<nat>, i: nat)
    requires i <= |sizes|
    ensures Sum(sizes) == Sum(sizes[..i]) + Sum(sizes[i..])
  {
    if i > 0 {
      SumUpTo(sizes[1..], i - 1);
      assert sizes[..i][1..] == sizes[1..][..i - 1] && sizes[i..] == sizes[1..][i - 1..];
    } else {
      assert sizes[0..] == sizes;
    }
  }

  lemma SumNext(sizes: seq<nat>, i: nat)
    requires i < |sizes|
    ensures Sum(sizes[..i + 1]) == Sum(sizes[..i]) + sizes[i] && Sum(sizes[i..]) == sizes[i] + Sum(sizes[i + 1..])
  {
    SumUpTo(sizes[..i + 1], i);
    assert sizes[..i + 1][..i] == sizes[..i] && sizes[..i + 1][i..] == [sizes[i]];
    assert Sum([sizes[i]]) == sizes[i] + Sum([sizes[i]][1..]);
    assert sizes[i..][1..] == sizes[i + 1..];
  }

  /** Used buffers of the given sizes, one behind the other. */
  function Laid(addr: int, block: nat, sizes: seq<nat>): (r: seq<Buf>)
    ensures |r| == |sizes|
    ensures forall i :: 0 <= i < |sizes| ==> r[i] == Buf(addr + Sum(sizes[..i]), sizes[i], Used, block)
  {
    seq(|sizes|, i requires 0 <= i < |sizes| => Buf(addr + Sum(sizes[..i]), sizes[i], Used, block))
  }

  /** The pieces of the buffer b that was allocated for the sum of the sizes; a single piece keeps all of it. */
  method CutContinuous(b: Buf, sizes: seq<nat>) returns (pieces: seq<Buf>)
    requires |sizes| > 0 && b.status == Used
    ensures pieces == if |sizes| == 1 then [b] else Laid(b.addr, b.block, sizes)
  {
    if |sizes| == 1 { return [b]; }
    var total := Sum(sizes);
    pieces := [b.(size := sizes[0])];
    var next := b.addr + sizes[0];
    SumNext(sizes, 0);
    assert sizes[0..] == sizes && sizes[..0] == [];
    total := total - sizes[0];
    for i := 1 to |sizes|
      invariant i < |sizes| ==> total == Sum(sizes[i..]) && next == b.addr + Sum(sizes[..i])
      invariant |pieces| == i && forall j :: 0 <= j < i ==> pieces[j] == Laid(b.addr, b.block, sizes)[j]
    {
      SumNext(sizes, i);
      var piece := Buf(next, sizes[i], Used, b.block);
      if i < |sizes| - 1 {
        next := next + sizes[i];
        total := total - sizes[i];
      } else if total != sizes[i] {
        piece := piece.(size := total);
      }
      pieces := pieces + [piece];
    }
  }

  lemma LaidEnds(addr: int, block: nat, sizes: seq<nat>)
    requires |sizes| > 0
    ensures var r := Laid(addr, block, sizes); r[0].addr == addr && r[|r| - 1].End() == addr + Sum(sizes)
    ensures var r := Laid(addr, block, sizes); forall i :: 0 <= i < |r| - 1 ==> r[i].End() == r[i + 1].addr
  {
    var n := |sizes|;
    forall i | 0 <= i < n ensures Sum(sizes[..i + 1]) == Sum(sizes[..i]) + sizes[i] { SumNext(sizes, i); }
    assert sizes[..n] == sizes && sizes[..0] == [];
  }

  /** Two or more pieces tile the block again exactly if they use up the buffer. */
  lemma CutTilesIff(bufs: seq<Buf>, blocks: seq<Range>, k: nat, sizes: seq<nat>)
    requires Tiled(bufs, blocks) && k < |bufs| && |sizes| > 1 && forall i :: 0 <= i < |sizes| ==> sizes[i] > 0
    ensures Tiled(Replace(bufs, k, k + 1, Laid(bufs[k].addr, bufs[k].block, sizes)), blocks) <==> Sum(sizes) == bufs[k].size
  {
    var b, n := bufs[k], |sizes|;
    var mid := Laid(b.addr, b.block, sizes);
    var r := Replace(bufs, k, k + 1, mid);
    LaidEnds(b.addr, b.block, sizes);
    if Sum(sizes) == b.size {
      ReplaceTiled(bufs, blocks, k, k + 1, mid);
    }
    if Tiled(r, blocks) {
      assert r[k + n - 1] == mid[n - 1];
      if k + 1 < |bufs| {
        assert r[k + n] == bufs[k + 1];
        assert Joint(b, bufs[k + 1], blocks) && Joint(r[k + n - 1], r[k + n], blocks);
      }
    }
  }

  lemma AlignedSizes(total: nat, size: nat)
    requires size % ALIGN_SIZE == 0 && AlignMemorySize(total) <= size < AlignMemorySize(total) + ALIGN_SIZE
    ensures total == size <==> total > 0 && total % ALIGN_SIZE == 0
  {
    var a := AlignMemorySize(total);
    assert a % ALIGN_SIZE == 0;
    assert a / ALIGN_SIZE * ALIGN_SIZE == a && size / ALIGN_SIZE * ALIGN_SIZE == size;
    assert size / ALIGN_SIZE == a / ALIGN_SIZE;
  }

  /**
    For the buffer that AllocTensorMem returns for the sum, when all sizes are kept aligned:
    the block stays tiled exactly if the sum of the sizes is a multiple of the alignment.
    Otherwise the bytes up to the next multiple belong to no buffer any more.
    */
  lemma ContinuousKeepsTilingIff(bufs: seq<Buf>, blocks: seq<Range>, k: nat, sizes: seq<nat>)
    requires Tiled(bufs, blocks) && k < |bufs| && |sizes| > 1 && forall i :: 0 <= i < |sizes| ==> sizes[i] > 0
    requires bufs[k].size % ALIGN_SIZE == 0
    requires AlignMemorySize(Sum(sizes)) <= bufs[k].size < AlignMemorySize(Sum(sizes)) + ALIGN_SIZE
    ensures Tiled(Replace(bufs, k, k + 1, Laid(bufs[k].addr, bufs[k].block, sizes)), blocks) <==> Sum(sizes) % ALIGN_SIZE == 0
  {
    CutTilesIff(bufs, blocks, k, sizes);
    AlignedSizes(Sum(sizes), bufs[k].size);
    SumUpTo(sizes, 1);
    assert sizes[..1] == [sizes[0]] && Sum([sizes[0]]) == sizes[0] + Sum([sizes[0]][1..]);
  }

  /** With a sum that is not a multiple the slack is lost. */
  lemma SlackIsLost()
    ensures var bufs, blocks := [Buf(0, 1024, Used, 0)], [Range(0, 1024)];
      Tiled(bufs, blocks) && !Tiled(Replace(bufs, 0, 1, Laid(0, 0, [512, 100])), blocks)
  {
    var bufs, blocks, sizes := [Buf(0, 1024, Used, 0)], [Range(0, 1024)], [512, 100];
    assert sizes[1..] == [100] && [100][1..] == [];
    assert Sum([100]) == 100 && Sum(sizes) == 612;
    CutTilesIff(bufs, blocks, 0, sizes);
  }
}
