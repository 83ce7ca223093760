/**
  Scatter-gather lists: what a partial transfer leaves of a list of buffers.  The element
  type is a byte string when sending and a buffer to be written when receiving.
  */
module Iovecs {

  import Codes

  /** len bytes of buf, from offset off on. */
  datatype Iov<B> = Iov(buf: B, off: nat, len: nat)

  /** One byte of a buffer. */
  datatype Cell<B> = Cell(buf: B, at: nat)

  function CellsOf<B>(v: Iov<B>): (r: seq<Cell<B>>)
    ensures |r| == v.len
  {
    seq(v.len, i requires 0 <= i < v.len => Cell(v.buf, v.off + i))
  }

  /** The bytes of all buffers, in order. */
  function Cells<B>(vs: seq<Iov<B>>): seq<Cell<B>> {
    if vs == [] then [] else CellsOf(vs[0]) + Cells(vs[1..])
  }

  lemma {:induction false} CellsConcat<B>(a: seq<Iov<B>>, b: seq<Iov<B>>)
    ensures Cells(a + b) == Cells(a) + Cells(b)
  {
    if a == [] {
      assert a + b == b;
    } else {
      CellsConcat(a[1..], b);
      assert (a + b)[1..] == a[1..] + b;
      Codes.Assoc(CellsOf(a[0]), Cells(a[1..]), Cells(b));
    }
  }

  lemma CellsCons<B>(v: Iov<B>, vs: seq<Iov<B>>)
    ensures Cells([v] + vs) == CellsOf(v) + Cells(vs)
  {
    assert ([v] + vs)[1..] == vs;
  }

  lemma CellsUpTo<B>(vs: seq<Iov<B>>, i: nat)
    requires i < |vs|
    ensures Cells(vs[..i + 1]) == Cells(vs[..i]) + CellsOf(vs[i])
  {
    assert vs[..i + 1] == vs[..i] + [vs[i]];
    CellsConcat(vs[..i], [vs[i]]);
    CellsCons(vs[i], []);
    assert [vs[i]] + [] == [vs[i]];
  }

  lemma CellsAround<B>(a: seq<Iov<B>>, v: Iov<B>, b: seq<Iov<B>>)
    ensures Cells(a + ([v] + b)) == Cells(a) + (CellsOf(v) + Cells(b))
  {
    CellsConcat(a, [v] + b);
    CellsCons(v, b);
  }

  lemma Around<T>(s: seq<T>, i: nat)
    requires i < |s|
    ensures s == s[..i] + ([s[i]] + s[i + 1..])
  {
  }

  /** The number of bytes in the first i buffers. */
  function Before<B>(vs: seq<Iov<B>>, i: nat): nat
    requires i <= |vs|
  {
    if i == 0 then 0 else Before(vs, i - 1) + vs[i - 1].len
  }

  lemma {:induction false} BeforeCounts<B>(vs: seq<Iov<B>>, i: nat)
    requires i <= |vs|
    ensures Before(vs, i) == |Cells(vs[..i])|
  {
    if i > 0 {
      BeforeCounts(vs, i - 1);
      CellsUpTo(vs, i - 1);
    }
  }

  lemma BeforeAll<B>(vs: seq<Iov<B>>)
    ensures Before(vs, |vs|) == |Cells(vs)|
  {
    BeforeCounts(vs, |vs|);
    assert vs[..|vs|] == vs;
  }

  /** The list without its first i buffers and without the first k bytes of the next one. */
  function CutAt<B>(vs: seq<Iov<B>>, i: nat, k: nat): seq<Iov<B>>
    requires i < |vs| && k <= vs[i].len
  {
    [Iov(vs[i].buf, vs[i].off + k, vs[i].len - k)] + vs[i + 1..]
  }

  lemma DropWithin<T>(a: seq<T>, b: seq<T>, c: seq<T>, k: nat)
    requires k <= |b|
    ensures (a + (b + c))[|a| + k..] == b[k..] + c
  {
  }

  lemma CutCells<B>(vs: seq<Iov<B>>, i: nat, k: nat)
    requires i < |vs| && k <= vs[i].len
    ensures Cells(CutAt(vs, i, k)) == CellsOf(vs[i])[k..] + Cells(vs[i + 1..])
  {
    var v := Iov(vs[i].buf, vs[i].off + k, vs[i].len - k);
    CellsCons(v, vs[i + 1..]);
    assert CellsOf(v) == CellsOf(vs[i])[k..];
  }

  lemma CutDrops<B>(vs: seq<Iov<B>>, i: nat, k: nat)
    requires i < |vs| && k <= vs[i].len
    ensures Before(vs, i) + k <= |Cells(vs)|
    ensures Cells(CutAt(vs, i, k)) == Cells(vs)[Before(vs, i) + k..]
  {
    Around(vs, i);
    CellsAround(vs[..i], vs[i], vs[i + 1..]);
    BeforeCounts(vs, i);
    DropWithin(Cells(vs[..i]), CellsOf(vs[i]), Cells(vs[i + 1..]), k);
    CutCells(vs, i, k);
  }

  /** struct msghdr: a window of an array of buffers. */
  class MsgHdr<B> {
    var vec: array<Iov<B>>
    var iov: nat
    var iovlen: nat

    ghost predicate Valid()
      reads this
    {
      iov + iovlen <= vec.Length
    }

    ghost function View(): (r: seq<Iov<B>>)
      reads this, vec
      requires Valid()
      ensures |r| == iovlen
    {
      vec[iov..iov + iovlen]
    }

    constructor (vec: array<Iov<B>>)
      ensures Valid() && this.vec == vec && iov == 0 && iovlen == vec.Length && View() == vec[..]
    {
      this.vec, iov, iovlen := vec, 0, vec.Length;
    }

    /** Buffer i is shortened by k bytes at its front, and the window starts there. */
    method Cut(i: nat, k: nat)
      requires Valid() && i < iovlen && k <= vec[iov + i].len
      modifies this`iov, this`iovlen, vec
      ensures Valid() && View() == old(CutAt(View(), i, k))
    {
      ghost var was := View();
      var v := vec[iov + i];
      vec[iov + i] := Iov(v.buf, v.off + k, v.len - k);
      iov := iov + i;
      iovlen := iovlen - i;
      assert View()[1..] == was[i + 1..];
      assert View() == CutAt(was, i, k);
    }

    /** After receiving: buffers that are full are passed over. */
    method AdvanceReceived(received: nat)
      requires Valid() && received < |Cells(View())|
      modifies this`iov, this`iovlen, vec
      ensures Valid() && Cells(View()) == old(Cells(View()))[received..]
    {
      ghost var was := View();
      BeforeAll(was);
      var i, passed := 0, 0;
      while i < iovlen && vec[iov + i].len + passed <= received
        modifies {}
        invariant i <= iovlen && passed == Before(was, i) <= received
      {
        passed := passed + vec[iov + i].len;
        i := i + 1;
      }
      CutDrops(was, i, received - passed);
      Cut(i, received - passed);
    }

    /** After sending: a buffer that has just been sent whole stays in front with length zero. */
    method AdvanceSent(sent: nat)
      requires Valid() && sent <= |Cells(View())|
      modifies this`iov, this`iovlen, vec
      ensures Valid() && Cells(View()) == old(Cells(View()))[sent..]
    {
      ghost var was := View();
      BeforeAll(was);
      var i, passed := 0, 0;
      while i < iovlen && vec[iov + i].len + passed < sent
        modifies {}
        invariant i <= iovlen && passed == Before(was, i) <= sent && (i > 0 ==> passed < sent)
      {
        passed := passed + vec[iov + i].len;
        i := i + 1;
      }
      if i < iovlen {
        CutDrops(was, i, sent - passed);
        Cut(i, sent - passed);
      }
    }
  }
}
