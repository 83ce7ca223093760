/** Where the bytes of a frame stand, and in which order those of a length. */
module FramingLayout {
  import opened Integers
  import opened Framing

  /** a comes before b: the first byte that differs is smaller. */
  predicate ComesBefore(a: seq<Byte>, b: seq<Byte>)
    requires |a| == |b| == 4
  {
    a[0] < b[0] || (a[0] == b[0] && (a[1] < b[1] || (a[1] == b[1] && (a[2] < b[2] || (a[2] == b[2] && a[3] < b[3])))))
  }

  /** The weight of the bytes, most significant first. */
  lemma Weights(n: nat)
    requires n < TWO32
    ensures var b := Be32(n);
      var b0: int, b1: int, b2: int, b3: int := b[0], b[1], b[2], b[3];
      n == 0x100_0000 * b0 + 0x1_0000 * b1 + 0x100 * b2 + b3
  {
    assert n % TWO32 == n;
    assert n / 0x1_0000 == n / 0x100_0000 * 256 + n / 0x1_0000 % 256;
    assert n / 256 == n / 0x1_0000 * 256 + n / 256 % 256;
  }

  /** Network byte order: numbers are ordered as their bytes are, compared from the first on. */
  lemma ByteOrder(m: nat, n: nat)
    requires m < TWO32 && n < TWO32
    ensures m < n <==> ComesBefore(Be32(m), Be32(n))
  {
    Weights(m);
    Weights(n);
    var a, b := Be32(m), Be32(n);
    OrderOfWeights(a[0], a[1], a[2], a[3], b[0], b[1], b[2], b[3]);
  }

  lemma OrderOfWeights(a0: Byte, a1: Byte, a2: Byte, a3: Byte, b0: Byte, b1: Byte, b2: Byte, b3: Byte)
    ensures 0x100_0000 * a0 + 0x1_0000 * a1 + 0x100 * a2 + a3 < 0x100_0000 * b0 + 0x1_0000 * b1 + 0x100 * b2 + b3 <==>
            ComesBefore([a0, a1, a2, a3], [b0, b1, b2, b3])
  {
  }

  lemma KnownBytes()
    ensures Be32(1) == [0, 0, 0, 1] && Be32(0x0102_0304) == [1, 2, 3, 4]
    ensures Num([0, 0, 0, 1]) == 1 && Num([1, 2, 3, 4]) == 0x0102_0304
  {
  }

  /** The frame begins with RPC0 and four lengths; the strings follow in the order of their lengths. */
  lemma Layout(r: Raw)
    ensures var f, n, t, s := Frame(r), |r.name|, |r.to|, |r.from|;
      && |f| == 20 + n + t + s + |r.body|
      && f[..4] == [82, 80, 67, 48]
      && f[4..8] == Be32(n) && f[8..12] == Be32(t) && f[12..16] == Be32(s) && f[16..20] == Be32(|r.body|)
      && f[20..20 + n] == r.name && f[20 + n..20 + n + t] == r.to
      && f[20 + n + t..20 + n + t + s] == r.from && f[20 + n + t + s..] == r.body
  {
    var h, f := Header(r), Frame(r);
    assert h[..4] == MAGIC && h[4..8] == Be32(|r.name|) && h[8..12] == Be32(|r.to|);
    assert h[12..16] == Be32(|r.from|) && h[16..20] == Be32(|r.body|);
    assert f[..20] == h && f[20..] == Content(r);
    Strings(r);
    assert f[..4] == f[..20][..4] && f[4..8] == f[..20][4..8] && f[8..12] == f[..20][8..12];
    assert f[12..16] == f[..20][12..16] && f[16..20] == f[..20][16..20];
    Shift(f, 20, 0, |r.name|);
    Shift(f, 20, |r.name|, |r.name| + |r.to|);
    Shift(f, 20, |r.name| + |r.to|, |r.name| + |r.to| + |r.from|);
    Shift(f, 20, |r.name| + |r.to| + |r.from|, |Content(r)|);
  }

  /** What is sent of a message: its name, the receiver and the sender as name@url, the body. */
  lemma MessageLayout(m: Message)
    ensures var f, to, from := Frame(Sent(m)), m.to.name + [64] + m.to.url, m.from.name + [64] + m.from.url;
      var n := 20 + |m.name|;
      && |f| == n + |to| + |from| + |m.body| && f[20..n] == m.name && f[n..n + |to|] == to
      && f[n + |to|..n + |to| + |from|] == from && f[n + |to| + |from|..] == m.body
  {
    Layout(Sent(m));
  }

  lemma Shift(f: seq<Byte>, k: nat, i: nat, j: nat)
    requires k <= |f| && i <= j <= |f| - k
    ensures f[k..][i..j] == f[k + i..k + j]
  {
  }

  lemma Strings(r: Raw)
    ensures var c, n, t, s := Content(r), |r.name|, |r.to|, |r.from|;
      && |c| == n + t + s + |r.body|
      && c[0..n] == r.name && c[n..n + t] == r.to && c[n + t..n + t + s] == r.from && c[n + t + s..|c|] == r.body
  {
  }
}
