/**
  Known answers of the block function and of the seeded generator.  Exclusive or is computed
  by hexadecimal digits, and the rounds are taken one by one.
  */
module PhiloxAnswers {
  import opened Integers
  import opened Philox

  // ------------------------------------------------------ the keys of the rounds

  lemma AddsMod(v: nat, step: Word)
    ensures Add(v % TWO32, step) == (v + step) % TWO32
  {
    var q, w: Word := v / TWO32, v % TWO32;
    assert v == q * TWO32 + w;
    RestOf(v + step, if w + step < TWO32 then q else q + 1, Add(w, step));
  }

  lemma RestOf(v: nat, q: nat, w: Word)
    requires v == q * TWO32 + w
    ensures v % TWO32 == w
  {
  }

  /** The key raised n times. */
  function Raised(k: Key, n: nat): Key {
    if n == 0 then k else RaiseKey(Raised(k, n - 1))
  }

  /** For all keys: what the steps add up to. */
  lemma {:induction false} KeyOfRound(k: Key, n: nat)
    ensures Raised(k, n) == Key((k.k0 + n * 0x9E37_79B9) % TWO32, (k.k1 + n * 0xBB67_AE85) % TWO32)
  {
    if n > 0 {
      KeyOfRound(k, n - 1);
      AddsMod(k.k0 + (n - 1) * 0x9E37_79B9, 0x9E37_79B9);
      AddsMod(k.k1 + (n - 1) * 0xBB67_AE85, 0xBB67_AE85);
    } else {
      RestOf(k.k0, 0, k.k0);
      RestOf(k.k1, 0, k.k1);
    }
  }

  lemma {:induction false} RaisedFirst(k: Key, n: nat)
    ensures Raised(RaiseKey(k), n) == Raised(k, n + 1)
  {
    if n > 0 { RaisedFirst(k, n - 1); }
  }

  /** Round n, counted from 0, uses the key raised n times. */
  lemma {:induction false} RoundUsesKey(c: Words, k: Key, n: nat)
    ensures Rounds(c, k, n + 1) == Compute(Rounds(c, k, n), Raised(k, n))
    decreases n
  {
    if n > 0 {
      RoundUsesKey(Compute(c, k), RaiseKey(k), n - 1);
      RaisedFirst(k, n - 1);
    }
  }

  // -------------------------------------------------- exclusive or, by digits

  /** Stated for all y, so that nothing is computed before it is asked for. */
  ghost predicate IsXor(a: nat, b: nat, x: nat) {
    forall y: nat :: y == b ==> XorBits(a, y) == x
  }

  lemma XorBit(a: nat, b: nat, x: nat, p: nat, q: nat)
    requires IsXor(a, b, x) && p < 2 && q < 2
    ensures IsXor(2 * a + p, 2 * b + q, 2 * x + if p == q then 0 else 1)
  {
    Halves(a, p);
    Halves(b, q);
    assert XorBits(a, b) == x;
    assert XorBits(2 * a + p, 2 * b + q) == 2 * x + if p == q then 0 else 1;
  }

  /** Exclusive or of two hexadecimal digits, bit by bit. */
  function Digit(p: nat, q: nat): nat {
    (if (p >= 8) == (q >= 8) then 0 else 8)
    + (if (4 <= p < 8 || p >= 12) == (4 <= q < 8 || q >= 12) then 0 else 4)
    + (if (2 <= p < 4 || 6 <= p < 8 || 10 <= p < 12 || p >= 14) == (2 <= q < 4 || 6 <= q < 8 || 10 <= q < 12 || q >= 14) then 0 else 2)
    + (if (p == 1 || p == 3 || p == 5 || p == 7 || p == 9 || p == 11 || p == 13 || p == 15)
         == (q == 1 || q == 3 || q == 5 || q == 7 || q == 9 || q == 11 || q == 13 || q == 15) then 0 else 1)
  }

  function Num(bit: bool): nat {
    if bit then 1 else 0
  }

  lemma XorFourBits(a: nat, b: nat, x: nat, p3: nat, p2: nat, p1: nat, p0: nat, q3: nat, q2: nat, q1: nat, q0: nat)
    requires IsXor(a, b, x) && p3 < 2 && p2 < 2 && p1 < 2 && p0 < 2 && q3 < 2 && q2 < 2 && q1 < 2 && q0 < 2
    ensures IsXor(2 * (2 * (2 * (2 * a + p3) + p2) + p1) + p0, 2 * (2 * (2 * (2 * b + q3) + q2) + q1) + q0,
                  2 * (2 * (2 * (2 * x + Num(p3 != q3)) + Num(p2 != q2)) + Num(p1 != q1)) + Num(p0 != q0))
  {
    var u, v, w := 2 * a + p3, 2 * b + q3, 2 * x + Num(p3 != q3);
    XorBit(a, b, x, p3, q3);
    XorBit(u, v, w, p2, q2);
    u, v, w := 2 * u + p2, 2 * v + q2, 2 * w + Num(p2 != q2);
    XorBit(u, v, w, p1, q1);
    u, v, w := 2 * u + p1, 2 * v + q1, 2 * w + Num(p1 != q1);
    XorBit(u, v, w, p0, q0);
  }

  lemma DigitIs(p: nat, q: nat, p3: nat, p2: nat, p1: nat, p0: nat, q3: nat, q2: nat, q1: nat, q0: nat)
    requires p == 8 * p3 + 4 * p2 + 2 * p1 + p0 && p3 < 2 && p2 < 2 && p1 < 2 && p0 < 2
    requires q == 8 * q3 + 4 * q2 + 2 * q1 + q0 && q3 < 2 && q2 < 2 && q1 < 2 && q0 < 2
    ensures Digit(p, q) == 8 * Num(p3 != q3) + 4 * Num(p2 != q2) + 2 * Num(p1 != q1) + Num(p0 != q0)
  {
    BitsOf(p, p3, p2, p1, p0);
    BitsOf(q, q3, q2, q1, q0);
  }

  lemma XorDigit(a: nat, b: nat, x: nat, p: nat, q: nat)
    requires IsXor(a, b, x) && p < 16 && q < 16
    ensures IsXor(16 * a + p, 16 * b + q, 16 * x + Digit(p, q))
  {
    var p3, q3 := Num(p >= 8), Num(q >= 8);
    var p2, q2 := Num(p - 8 * p3 >= 4), Num(q - 8 * q3 >= 4);
    var p1, q1 := Num(p - 8 * p3 - 4 * p2 >= 2), Num(q - 8 * q3 - 4 * q2 >= 2);
    var p0, q0 := p - 8 * p3 - 4 * p2 - 2 * p1, q - 8 * q3 - 4 * q2 - 2 * q1;
    DigitIs(p, q, p3, p2, p1, p0, q3, q2, q1, q0);
    XorFourBits(a, b, x, p3, p2, p1, p0, q3, q2, q1, q0);
  }

  lemma BitsOf(p: nat, p3: nat, p2: nat, p1: nat, p0: nat)
    requires p == 8 * p3 + 4 * p2 + 2 * p1 + p0 && p3 < 2 && p2 < 2 && p1 < 2 && p0 < 2
    ensures (p >= 8) == (p3 == 1) && (4 <= p < 8 || p >= 12) == (p2 == 1)
    ensures (2 <= p < 4 || 6 <= p < 8 || 10 <= p < 12 || p >= 14) == (p1 == 1)
    ensures (p == 1 || p == 3 || p == 5 || p == 7 || p == 9 || p == 11 || p == 13 || p == 15) == (p0 == 1)
  {
  }

  function Four(a: nat, d3: nat, d2: nat, d1: nat, d0: nat): nat {
    16 * (16 * (16 * (16 * a + d3) + d2) + d1) + d0
  }

  lemma XorFour(a: nat, b: nat, x: nat, a3: nat, a2: nat, a1: nat, a0: nat, b3: nat, b2: nat, b1: nat, b0: nat)
    requires IsXor(a, b, x) && a3 < 16 && a2 < 16 && a1 < 16 && a0 < 16 && b3 < 16 && b2 < 16 && b1 < 16 && b0 < 16
    ensures IsXor(Four(a, a3, a2, a1, a0), Four(b, b3, b2, b1, b0),
                  Four(x, Digit(a3, b3), Digit(a2, b2), Digit(a1, b1), Digit(a0, b0)))
  {
    XorDigit(a, b, x, a3, b3);
    var u, v, w := 16 * a + a3, 16 * b + b3, 16 * x + Digit(a3, b3);
    XorDigit(u, v, w, a2, b2);
    u, v, w := 16 * u + a2, 16 * v + b2, 16 * w + Digit(a2, b2);
    XorDigit(u, v, w, a1, b1);
    u, v, w := 16 * u + a1, 16 * v + b1, 16 * w + Digit(a1, b1);
    XorDigit(u, v, w, a0, b0);
  }

  lemma XorNothing()
    ensures IsXor(0, 0, 0)
  {
    assert XorBits(0, 0) == 0;
  }

  /** Exclusive or of two words given by their digits, most significant first. */
  lemma XorHex(a7: nat, a6: nat, a5: nat, a4: nat, a3: nat, a2: nat, a1: nat, a0: nat,
               b7: nat, b6: nat, b5: nat, b4: nat, b3: nat, b2: nat, b1: nat, b0: nat, a: nat, b: nat, x: nat)
    requires a7 < 16 && a6 < 16 && a5 < 16 && a4 < 16 && a3 < 16 && a2 < 16 && a1 < 16 && a0 < 16
    requires b7 < 16 && b6 < 16 && b5 < 16 && b4 < 16 && b3 < 16 && b2 < 16 && b1 < 16 && b0 < 16
    requires a == 0x1000_0000 * a7 + 0x100_0000 * a6 + 0x10_0000 * a5 + 0x1_0000 * a4 + 0x1000 * a3 + 0x100 * a2 + 0x10 * a1 + a0
    requires b == 0x1000_0000 * b7 + 0x100_0000 * b6 + 0x10_0000 * b5 + 0x1_0000 * b4 + 0x1000 * b3 + 0x100 * b2 + 0x10 * b1 + b0
    requires x == 0x1000_0000 * Digit(a7, b7) + 0x100_0000 * Digit(a6, b6) + 0x10_0000 * Digit(a5, b5) + 0x1_0000 * Digit(a4, b4)
                  + 0x1000 * Digit(a3, b3) + 0x100 * Digit(a2, b2) + 0x10 * Digit(a1, b1) + Digit(a0, b0)
    ensures IsXor(a, b, x)
  {
    XorNothing();
    XorFour(0, 0, 0, a7, a6, a5, a4, b7, b6, b5, b4);
    XorFour(Four(0, a7, a6, a5, a4), Four(0, b7, b6, b5, b4), Four(0, Digit(a7, b7), Digit(a6, b6), Digit(a5, b5), Digit(a4, b4)),
            a3, a2, a1, a0, b3, b2, b1, b0);
  }

  lemma {:induction false} XorZero(a: nat)
    ensures IsXor(a, 0, a) && IsXor(0, a, a)
  {
    if a == 0 {
      assert XorBits(0, 0) == 0;
    } else {
      XorZero(a / 2);
      XorBit(a / 2, 0, a / 2, a % 2, 0);
      XorBit(0, a / 2, a / 2, 0, a % 2);
    }
  }

  lemma {:induction false} XorSelf(a: nat)
    ensures IsXor(a, a, 0)
  {
    if a == 0 {
      assert XorBits(0, 0) == 0;
    } else {
      XorSelf(a / 2);
      XorBit(a / 2, a / 2, 0, a % 2, a % 2);
    }
  }

  // ------------------------------------------------------------ round by round

  /** One round leads from c to d; stated for all keys like k, as above. */
  ghost predicate Leads(c: Words, k: Key, d: Words) {
    forall j :: j == k ==> Compute(c, j) == d
  }

  /** h0 and h1 are the high words of the products; x0 and x1 are these, mixed with a word of c. */
  lemma RoundAnswer(c: Words, k: Key, d: Words, h0: Word, h1: Word, x0: Word, x1: Word)
    requires MAGIC0 * c.w0 == h0 * TWO32 + d.w3 && MAGIC1 * c.w2 == h1 * TWO32 + d.w1
    requires IsXor(h1, c.w1, x1) && IsXor(x1, k.k0, d.w0)
    requires IsXor(h0, c.w3, x0) && IsXor(x0, k.k1, d.w2)
    ensures Leads(c, k, d)
  {
    Product(MAGIC0, c.w0, h0, d.w3);
    Product(MAGIC1, c.w2, h1, d.w1);
  }

  lemma Product(m: Word, x: Word, high: Word, low: Word)
    requires m * x == high * TWO32 + low
    ensures High(m, x) == high && Low(m * x) == low
  {
  }

  /** n rounds lead from c and k to d and k'. */
  ghost predicate Turns(c: Words, k: Key, n: nat, d: Words, k': Key) {
    forall m: nat, p: nat :: p == n + m ==> Rounds(c, k, p) == Rounds(d, k', m)
  }

  lemma TurnsOn(c: Words, k: Key, n: nat, d: Words, k1: Key, d': Words, k2: Key)
    requires Turns(c, k, n, d, k1) && Leads(d, k1, d') && k2 == RaiseKey(k1)
    ensures Turns(c, k, n + 1, d', k2)
  {
    forall m: nat, p: nat | p == n + 1 + m ensures Rounds(c, k, p) == Rounds(d', k2, m) {
      assert Rounds(c, k, p) == Rounds(d, k1, m + 1);
      assert Compute(d, k1) == d';
    }
  }

  lemma TurnsDone(c: Words, k: Key, d: Words, k1: Key, e: Words, k2: Key)
    requires Turns(c, k, 5, d, k1) && Turns(d, k1, 5, e, k2)
    ensures Rounds(c, k, 10) == e
  {
    var five, ten := 5, 10;
    assert Rounds(c, k, ten) == Rounds(d, k1, five) == Rounds(e, k2, 0);
  }

  lemma ZeroRound0()
    ensures Leads(Words(0, 0, 0, 0), Key(0, 0),
                  Words(0, 0, 0, 0))
  {
    XorZero(0);
    XorZero(0);
    XorZero(0);
    XorZero(0);
    RoundAnswer(Words(0, 0, 0, 0), Key(0, 0),
                Words(0, 0, 0, 0), 0, 0, 0, 0);
  }

  lemma ZeroRound1()
    ensures Leads(Words(0, 0, 0, 0), Key(0x9E37_79B9, 0xBB67_AE85),
                  Words(0x9E37_79B9, 0, 0xBB67_AE85, 0))
  {
    XorZero(0);
    XorZero(0x9E37_79B9);
    XorZero(0);
    XorZero(0xBB67_AE85);
    RoundAnswer(Words(0, 0, 0, 0), Key(0x9E37_79B9, 0xBB67_AE85),
                Words(0x9E37_79B9, 0, 0xBB67_AE85, 0), 0, 0, 0, 0);
  }

  lemma ZeroRound2()
    ensures Leads(Words(0x9E37_79B9, 0, 0xBB67_AE85, 0), Key(0x3C6E_F372, 0x76CF_5D0A),
                  Words(0xAAE8_EB44, 0x0271_9033, 0xF734_F9C9, 0x4942_DDFB))
  {
    XorZero(0x9686_1836);
    XorHex(9, 6, 8, 6, 1, 8, 3, 6, 3, 12, 6, 14, 15, 3, 7, 2, 0x9686_1836, 0x3C6E_F372, 0xAAE8_EB44);
    XorZero(0x81FB_A4C3);
    XorHex(8, 1, 15, 11, 10, 4, 12, 3, 7, 6, 12, 15, 5, 13, 0, 10, 0x81FB_A4C3, 0x76CF_5D0A, 0xF734_F9C9);
    RoundAnswer(Words(0x9E37_79B9, 0, 0xBB67_AE85, 0), Key(0x3C6E_F372, 0x76CF_5D0A),
                Words(0xAAE8_EB44, 0x0271_9033, 0xF734_F9C9, 0x4942_DDFB), 0x81FB_A4C3, 0x9686_1836, 0x81FB_A4C3, 0x9686_1836);
  }

  lemma ZeroRound3()
    ensures Leads(Words(0xAAE8_EB44, 0x0271_9033, 0xF734_F9C9, 0x4942_DDFB), Key(0xDAA6_6D2B, 0x3237_0B8F),
                  Words(0x1E59_7A2C, 0x4FA2_984F, 0xF71C_EFED, 0xD685_830C))
  {
    XorHex(12, 6, 8, 14, 8, 7, 3, 4, 0, 2, 7, 1, 9, 0, 3, 3, 0xC68E_8734, 0x0271_9033, 0xC4FF_1707);
    XorHex(12, 4, 15, 15, 1, 7, 0, 7, 13, 10, 10, 6, 6, 13, 2, 11, 0xC4FF_1707, 0xDAA6_6D2B, 0x1E59_7A2C);
    XorHex(8, 12, 6, 9, 3, 9, 9, 9, 4, 9, 4, 2, 13, 13, 15, 11, 0x8C69_3999, 0x4942_DDFB, 0xC52B_E462);
    XorHex(12, 5, 2, 11, 14, 4, 6, 2, 3, 2, 3, 7, 0, 11, 8, 15, 0xC52B_E462, 0x3237_0B8F, 0xF71C_EFED);
    RoundAnswer(Words(0xAAE8_EB44, 0x0271_9033, 0xF734_F9C9, 0x4942_DDFB), Key(0xDAA6_6D2B, 0x3237_0B8F),
                Words(0x1E59_7A2C, 0x4FA2_984F, 0xF71C_EFED, 0xD685_830C), 0x8C69_3999, 0xC68E_8734, 0xC52B_E462, 0xC4FF_1707);
  }

  lemma ZeroRound4()
    ensures Leads(Words(0x1E59_7A2C, 0x4FA2_984F, 0xF71C_EFED, 0xD685_830C), Key(0x78DD_E6E4, 0xED9E_BA14),
                  Words(0xF104_46C0, 0xC841_128B, 0x23F4_3D26, 0x6CB9_F044))
  {
    XorHex(12, 6, 7, 11, 3, 8, 6, 11, 4, 15, 10, 2, 9, 8, 4, 15, 0xC67B_386B, 0x4FA2_984F, 0x89D9_A024);
    XorHex(8, 9, 13, 9, 10, 0, 2, 4, 7, 8, 13, 13, 14, 6, 14, 4, 0x89D9_A024, 0x78DD_E6E4, 0xF104_46C0);
    XorHex(1, 8, 14, 15, 0, 4, 3, 14, 13, 6, 8, 5, 8, 3, 0, 12, 0x18EF_043E, 0xD685_830C, 0xCE6A_8732);
    XorHex(12, 14, 6, 10, 8, 7, 3, 2, 14, 13, 9, 14, 11, 10, 1, 4, 0xCE6A_8732, 0xED9E_BA14, 0x23F4_3D26);
    RoundAnswer(Words(0x1E59_7A2C, 0x4FA2_984F, 0xF71C_EFED, 0xD685_830C), Key(0x78DD_E6E4, 0xED9E_BA14),
                Words(0xF104_46C0, 0xC841_128B, 0x23F4_3D26, 0x6CB9_F044), 0x18EF_043E, 0xC67B_386B, 0xCE6A_8732, 0x89D9_A024);
  }

  lemma ZeroRound5()
    ensures Leads(Words(0xF104_46C0, 0xC841_128B, 0x23F4_3D26, 0x6CB9_F044), Key(0x1715_609D, 0xA906_6899),
                  Words(0xC3B4_AB98, 0xE922_B5EA, 0x03BE_793C, 0x8BB4_3040))
  {
    XorHex(1, 12, 14, 0, 13, 9, 8, 14, 12, 8, 4, 1, 1, 2, 8, 11, 0x1CE0_D98E, 0xC841_128B, 0xD4A1_CB05);
    XorHex(13, 4, 10, 1, 12, 11, 0, 5, 1, 7, 1, 5, 6, 0, 9, 13, 0xD4A1_CB05, 0x1715_609D, 0xC3B4_AB98);
    XorHex(12, 6, 0, 1, 14, 1, 14, 1, 6, 12, 11, 9, 15, 0, 4, 4, 0xC601_E1E1, 0x6CB9_F044, 0xAAB8_11A5);
    XorHex(10, 10, 11, 8, 1, 1, 10, 5, 10, 9, 0, 6, 6, 8, 9, 9, 0xAAB8_11A5, 0xA906_6899, 0x03BE_793C);
    RoundAnswer(Words(0xF104_46C0, 0xC841_128B, 0x23F4_3D26, 0x6CB9_F044), Key(0x1715_609D, 0xA906_6899),
                Words(0xC3B4_AB98, 0xE922_B5EA, 0x03BE_793C, 0x8BB4_3040), 0xC601_E1E1, 0x1CE0_D98E, 0xAAB8_11A5, 0xD4A1_CB05);
  }

  lemma ZeroRound6()
    ensures Leads(Words(0xC3B4_AB98, 0xE922_B5EA, 0x03BE_793C, 0x8BB4_3040), Key(0xB54C_DA56, 0x646E_171E),
                  Words(0x5F6F_B709, 0x0D89_3F64, 0x4F12_1F81, 0x4F73_0A48))
  {
    XorHex(0, 3, 0, 1, 13, 8, 11, 5, 14, 9, 2, 2, 11, 5, 14, 10, 0x0301_D8B5, 0xE922_B5EA, 0xEA23_6D5F);
    XorHex(14, 10, 2, 3, 6, 13, 5, 15, 11, 5, 4, 12, 13, 10, 5, 6, 0xEA23_6D5F, 0xB54C_DA56, 0x5F6F_B709);
    XorHex(10, 0, 12, 8, 3, 8, 13, 15, 8, 11, 11, 4, 3, 0, 4, 0, 0xA0C8_38DF, 0x8BB4_3040, 0x2B7C_089F);
    XorHex(2, 11, 7, 12, 0, 8, 9, 15, 6, 4, 6, 14, 1, 7, 1, 14, 0x2B7C_089F, 0x646E_171E, 0x4F12_1F81);
    RoundAnswer(Words(0xC3B4_AB98, 0xE922_B5EA, 0x03BE_793C, 0x8BB4_3040), Key(0xB54C_DA56, 0x646E_171E),
                Words(0x5F6F_B709, 0x0D89_3F64, 0x4F12_1F81, 0x4F73_0A48), 0xA0C8_38DF, 0x0301_D8B5, 0x2B7C_089F, 0xEA23_6D5F);
  }

  lemma ZeroRound7()
    ensures Leads(Words(0x5F6F_B709, 0x0D89_3F64, 0x4F12_1F81, 0x4F73_0A48), Key(0x5384_540F, 0x1FD5_C5A3),
                  Words(0x618F_177A, 0x9920_C1D7, 0x1EC1_2DC0, 0xC43B_6EEB))
  {
    XorHex(3, 15, 8, 2, 7, 12, 1, 1, 0, 13, 8, 9, 3, 15, 6, 4, 0x3F82_7C11, 0x0D89_3F64, 0x320B_4375);
    XorHex(3, 2, 0, 11, 4, 3, 7, 5, 5, 3, 8, 4, 5, 4, 0, 15, 0x320B_4375, 0x5384_540F, 0x618F_177A);
    XorHex(4, 14, 6, 7, 14, 2, 2, 11, 4, 15, 7, 3, 0, 10, 4, 8, 0x4E67_E22B, 0x4F73_0A48, 0x0114_E863);
    XorHex(0, 1, 1, 4, 14, 8, 6, 3, 1, 15, 13, 5, 12, 5, 10, 3, 0x0114_E863, 0x1FD5_C5A3, 0x1EC1_2DC0);
    RoundAnswer(Words(0x5F6F_B709, 0x0D89_3F64, 0x4F12_1F81, 0x4F73_0A48), Key(0x5384_540F, 0x1FD5_C5A3),
                Words(0x618F_177A, 0x9920_C1D7, 0x1EC1_2DC0, 0xC43B_6EEB), 0x4E67_E22B, 0x3F82_7C11, 0x0114_E863, 0x320B_4375);
  }

  lemma ZeroRound8()
    ensures Leads(Words(0x618F_177A, 0x9920_C1D7, 0x1EC1_2DC0, 0xC43B_6EEB), Key(0xF1BB_CDC8, 0xDB3D_7428),
                  Words(0x7028_B1C8, 0xD659_4C40, 0x4F20_51BB, 0x76D6_628E))
  {
    XorHex(1, 8, 11, 3, 11, 13, 13, 7, 9, 9, 2, 0, 12, 1, 13, 7, 0x18B3_BDD7, 0x9920_C1D7, 0x8193_7C00);
    XorHex(8, 1, 9, 3, 7, 12, 0, 0, 15, 1, 11, 11, 12, 13, 12, 8, 0x8193_7C00, 0xF1BB_CDC8, 0x7028_B1C8);
    XorHex(5, 0, 2, 6, 4, 11, 7, 8, 12, 4, 3, 11, 6, 14, 14, 11, 0x5026_4B78, 0xC43B_6EEB, 0x941D_2593);
    XorHex(9, 4, 1, 13, 2, 5, 9, 3, 13, 11, 3, 13, 7, 4, 2, 8, 0x941D_2593, 0xDB3D_7428, 0x4F20_51BB);
    RoundAnswer(Words(0x618F_177A, 0x9920_C1D7, 0x1EC1_2DC0, 0xC43B_6EEB), Key(0xF1BB_CDC8, 0xDB3D_7428),
                Words(0x7028_B1C8, 0xD659_4C40, 0x4F20_51BB, 0x76D6_628E), 0x5026_4B78, 0x18B3_BDD7, 0x941D_2593, 0x8193_7C00);
  }

  lemma ZeroRound9()
    ensures Leads(Words(0x7028_B1C8, 0xD659_4C40, 0x4F20_51BB, 0x76D6_628E), Key(0x8FF3_4781, 0x96A5_22AD),
                  Words(0x6627_E8D5, 0xE169_C58D, 0xBC57_AC4C, 0x9B00_DBD8))
  {
    XorHex(3, 15, 8, 13, 14, 3, 1, 4, 13, 6, 5, 9, 4, 12, 4, 0, 0x3F8D_E314, 0xD659_4C40, 0xE9D4_AF54);
    XorHex(14, 9, 13, 4, 10, 15, 5, 4, 8, 15, 15, 3, 4, 7, 8, 1, 0xE9D4_AF54, 0x8FF3_4781, 0x6627_E8D5);
    XorHex(5, 12, 2, 4, 14, 12, 6, 15, 7, 6, 13, 6, 6, 2, 8, 14, 0x5C24_EC6F, 0x76D6_628E, 0x2AF2_8EE1);
    XorHex(2, 10, 15, 2, 8, 14, 14, 1, 9, 6, 10, 5, 2, 2, 10, 13, 0x2AF2_8EE1, 0x96A5_22AD, 0xBC57_AC4C);
    RoundAnswer(Words(0x7028_B1C8, 0xD659_4C40, 0x4F20_51BB, 0x76D6_628E), Key(0x8FF3_4781, 0x96A5_22AD),
                Words(0x6627_E8D5, 0xE169_C58D, 0xBC57_AC4C, 0x9B00_DBD8), 0x5C24_EC6F, 0x3F8D_E314, 0x2AF2_8EE1, 0xE9D4_AF54);
  }

  lemma ZeroFirst(c: Words, k: Key)
    requires c == Words(0, 0, 0, 0) && k == Key(0, 0)
    ensures Turns(c, k, 5, Words(0xF104_46C0, 0xC841_128B, 0x23F4_3D26, 0x6CB9_F044), Key(0x1715_609D, 0xA906_6899))
  {
    ZeroRound0();
    TurnsOn(c, k, 0, c, k, Words(0, 0, 0, 0), Key(0x9E37_79B9, 0xBB67_AE85));
    ZeroRound1();
    TurnsOn(c, k, 1, Words(0, 0, 0, 0), Key(0x9E37_79B9, 0xBB67_AE85), Words(0x9E37_79B9, 0, 0xBB67_AE85, 0), Key(0x3C6E_F372, 0x76CF_5D0A));
    ZeroRound2();
    TurnsOn(c, k, 2, Words(0x9E37_79B9, 0, 0xBB67_AE85, 0), Key(0x3C6E_F372, 0x76CF_5D0A), Words(0xAAE8_EB44, 0x0271_9033, 0xF734_F9C9, 0x4942_DDFB), Key(0xDAA6_6D2B, 0x3237_0B8F));
    ZeroRound3();
    TurnsOn(c, k, 3, Words(0xAAE8_EB44, 0x0271_9033, 0xF734_F9C9, 0x4942_DDFB), Key(0xDAA6_6D2B, 0x3237_0B8F), Words(0x1E59_7A2C, 0x4FA2_984F, 0xF71C_EFED, 0xD685_830C), Key(0x78DD_E6E4, 0xED9E_BA14));
    ZeroRound4();
    TurnsOn(c, k, 4, Words(0x1E59_7A2C, 0x4FA2_984F, 0xF71C_EFED, 0xD685_830C), Key(0x78DD_E6E4, 0xED9E_BA14), Words(0xF104_46C0, 0xC841_128B, 0x23F4_3D26, 0x6CB9_F044), Key(0x1715_609D, 0xA906_6899));
  }

  lemma ZeroLast(c: Words, k: Key)
    requires c == Words(0xF104_46C0, 0xC841_128B, 0x23F4_3D26, 0x6CB9_F044) && k == Key(0x1715_609D, 0xA906_6899)
    ensures Turns(c, k, 5, Words(0x6627_E8D5, 0xE169_C58D, 0xBC57_AC4C, 0x9B00_DBD8), Key(0x2E2A_C13A, 0x520C_D132))
  {
    ZeroRound5();
    TurnsOn(c, k, 0, c, k, Words(0xC3B4_AB98, 0xE922_B5EA, 0x03BE_793C, 0x8BB4_3040), Key(0xB54C_DA56, 0x646E_171E));
    ZeroRound6();
    TurnsOn(c, k, 1, Words(0xC3B4_AB98, 0xE922_B5EA, 0x03BE_793C, 0x8BB4_3040), Key(0xB54C_DA56, 0x646E_171E), Words(0x5F6F_B709, 0x0D89_3F64, 0x4F12_1F81, 0x4F73_0A48), Key(0x5384_540F, 0x1FD5_C5A3));
    ZeroRound7();
    TurnsOn(c, k, 2, Words(0x5F6F_B709, 0x0D89_3F64, 0x4F12_1F81, 0x4F73_0A48), Key(0x5384_540F, 0x1FD5_C5A3), Words(0x618F_177A, 0x9920_C1D7, 0x1EC1_2DC0, 0xC43B_6EEB), Key(0xF1BB_CDC8, 0xDB3D_7428));
    ZeroRound8();
    TurnsOn(c, k, 3, Words(0x618F_177A, 0x9920_C1D7, 0x1EC1_2DC0, 0xC43B_6EEB), Key(0xF1BB_CDC8, 0xDB3D_7428), Words(0x7028_B1C8, 0xD659_4C40, 0x4F20_51BB, 0x76D6_628E), Key(0x8FF3_4781, 0x96A5_22AD));
    ZeroRound9();
    TurnsOn(c, k, 4, Words(0x7028_B1C8, 0xD659_4C40, 0x4F20_51BB, 0x76D6_628E), Key(0x8FF3_4781, 0x96A5_22AD), Words(0x6627_E8D5, 0xE169_C58D, 0xBC57_AC4C, 0x9B00_DBD8), Key(0x2E2A_C13A, 0x520C_D132));
  }

  /** The block of counter 0 and key 0. */
  lemma ZeroBlock(c: Words, k: Key, n: nat)
    requires c == Words(0, 0, 0, 0) && k == Key(0, 0) && n == 10
    ensures Rounds(c, k, n) == Words(0x6627_E8D5, 0xE169_C58D, 0xBC57_AC4C, 0x9B00_DBD8)
  {
    ZeroFirst(c, k);
    ZeroLast(Words(0xF104_46C0, 0xC841_128B, 0x23F4_3D26, 0x6CB9_F044), Key(0x1715_609D, 0xA906_6899));
    TurnsDone(c, k, Words(0xF104_46C0, 0xC841_128B, 0x23F4_3D26, 0x6CB9_F044), Key(0x1715_609D, 0xA906_6899), Words(0x6627_E8D5, 0xE169_C58D, 0xBC57_AC4C, 0x9B00_DBD8), Key(0x2E2A_C13A, 0x520C_D132));
  }

  lemma SeedRound0()
    ensures Leads(Words(1, 0, 0xA409_3822, 0x299F_31D0), Key(0xA409_3822, 0x299F_31D0),
                  Words(0x27C9_C216, 0xB208_CD8E, 0, 0xD251_1F53))
  {
    XorZero(0x83C0_FA34);
    XorHex(8, 3, 12, 0, 15, 10, 3, 4, 10, 4, 0, 9, 3, 8, 2, 2, 0x83C0_FA34, 0xA409_3822, 0x27C9_C216);
    XorZero(0x299F_31D0);
    XorSelf(0x299F_31D0);
    RoundAnswer(Words(1, 0, 0xA409_3822, 0x299F_31D0), Key(0xA409_3822, 0x299F_31D0),
                Words(0x27C9_C216, 0xB208_CD8E, 0, 0xD251_1F53), 0, 0x83C0_FA34, 0x299F_31D0, 0x83C0_FA34);
  }

  lemma SeedRound1()
    ensures Leads(Words(0x27C9_C216, 0xB208_CD8E, 0, 0xD251_1F53), Key(0x4240_B1DB, 0xE506_E055),
                  Words(0xF048_7C55, 0, 0x17E7_E3EC, 0xC9E0_9722))
  {
    XorZero(0xB208_CD8E);
    XorHex(11, 2, 0, 8, 12, 13, 8, 14, 4, 2, 4, 0, 11, 1, 13, 11, 0xB208_CD8E, 0x4240_B1DB, 0xF048_7C55);
    XorHex(2, 0, 11, 0, 1, 12, 14, 10, 13, 2, 5, 1, 1, 15, 5, 3, 0x20B0_1CEA, 0xD251_1F53, 0xF2E1_03B9);
    XorHex(15, 2, 14, 1, 0, 3, 11, 9, 14, 5, 0, 6, 14, 0, 5, 5, 0xF2E1_03B9, 0xE506_E055, 0x17E7_E3EC);
    RoundAnswer(Words(0x27C9_C216, 0xB208_CD8E, 0, 0xD251_1F53), Key(0x4240_B1DB, 0xE506_E055),
                Words(0xF048_7C55, 0, 0x17E7_E3EC, 0xC9E0_9722), 0x20B0_1CEA, 0, 0xF2E1_03B9, 0xB208_CD8E);
  }

  lemma SeedRound2()
    ensures Leads(Words(0xF048_7C55, 0, 0x17E7_E3EC, 0xC9E0_9722), Key(0xE078_2B94, 0xA06E_8EDA),
                  Words(0xF34B_5441, 0x7FFF_7134, 0xACE9_83AB, 0xBF73_9A8F))
  {
    XorZero(0x1333_7FD5);
    XorHex(1, 3, 3, 3, 7, 15, 13, 5, 14, 0, 7, 8, 2, 11, 9, 4, 0x1333_7FD5, 0xE078_2B94, 0xF34B_5441);
    XorHex(12, 5, 6, 7, 9, 10, 5, 3, 12, 9, 14, 0, 9, 7, 2, 2, 0xC567_9A53, 0xC9E0_9722, 0x0C87_0D71);
    XorHex(0, 12, 8, 7, 0, 13, 7, 1, 10, 0, 6, 14, 8, 14, 13, 10, 0x0C87_0D71, 0xA06E_8EDA, 0xACE9_83AB);
    RoundAnswer(Words(0xF048_7C55, 0, 0x17E7_E3EC, 0xC9E0_9722), Key(0xE078_2B94, 0xA06E_8EDA),
                Words(0xF34B_5441, 0x7FFF_7134, 0xACE9_83AB, 0xBF73_9A8F), 0xC567_9A53, 0x1333_7FD5, 0x0C87_0D71, 0x1333_7FD5);
  }

  lemma SeedRound3()
    ensures Leads(Words(0xF34B_5441, 0x7FFF_7134, 0xACE9_83AB, 0xBF73_9A8F), Key(0x7EAF_A54D, 0x5BD6_3D5F),
                  Words(0x8BB2_C27F, 0x936A_EE1D, 0x2345_4467, 0xFB31_3013))
  {
    XorHex(8, 10, 14, 2, 1, 6, 0, 6, 7, 15, 15, 15, 7, 1, 3, 4, 0x8AE2_1606, 0x7FFF_7134, 0xF51D_6732);
    XorHex(15, 5, 1, 13, 6, 7, 3, 2, 7, 14, 10, 15, 10, 5, 4, 13, 0xF51D_6732, 0x7EAF_A54D, 0x8BB2_C27F);
    XorHex(12, 7, 14, 0, 14, 3, 11, 7, 11, 15, 7, 3, 9, 10, 8, 15, 0xC7E0_E3B7, 0xBF73_9A8F, 0x7893_7938);
    XorHex(7, 8, 9, 3, 7, 9, 3, 8, 5, 11, 13, 6, 3, 13, 5, 15, 0x7893_7938, 0x5BD6_3D5F, 0x2345_4467);
    RoundAnswer(Words(0xF34B_5441, 0x7FFF_7134, 0xACE9_83AB, 0xBF73_9A8F), Key(0x7EAF_A54D, 0x5BD6_3D5F),
                Words(0x8BB2_C27F, 0x936A_EE1D, 0x2345_4467, 0xFB31_3013), 0xC7E0_E3B7, 0x8AE2_1606, 0x7893_7938, 0xF51D_6732);
  }

  lemma SeedRound4()
    ensures Leads(Words(0x8BB2_C27F, 0x936A_EE1D, 0x2345_4467, 0xFB31_3013), Key(0x1CE7_1F06, 0x173D_EBE4),
                  Words(0x93D9_BEE4, 0xD5C8_FA01, 0x9EC8_33C4, 0xA8B1_702D))
  {
    XorHex(1, 12, 5, 4, 4, 15, 15, 15, 9, 3, 6, 10, 14, 14, 1, 13, 0x1C54_4FFF, 0x936A_EE1D, 0x8F3E_A1E2);
    XorHex(8, 15, 3, 14, 10, 1, 14, 2, 1, 12, 14, 7, 1, 15, 0, 6, 0x8F3E_A1E2, 0x1CE7_1F06, 0x93D9_BEE4);
    XorHex(7, 2, 12, 4, 14, 8, 3, 3, 15, 11, 3, 1, 3, 0, 1, 3, 0x72C4_E833, 0xFB31_3013, 0x89F5_D820);
    XorHex(8, 9, 15, 5, 13, 8, 2, 0, 1, 7, 3, 13, 14, 11, 14, 4, 0x89F5_D820, 0x173D_EBE4, 0x9EC8_33C4);
    RoundAnswer(Words(0x8BB2_C27F, 0x936A_EE1D, 0x2345_4467, 0xFB31_3013), Key(0x1CE7_1F06, 0x173D_EBE4),
                Words(0x93D9_BEE4, 0xD5C8_FA01, 0x9EC8_33C4, 0xA8B1_702D), 0x72C4_E833, 0x1C54_4FFF, 0x89F5_D820, 0x8F3E_A1E2);
  }

  lemma SeedRound5()
    ensures Leads(Words(0x93D9_BEE4, 0xD5C8_FA01, 0x9EC8_33C4, 0xA8B1_702D), Key(0xBB1E_98BF, 0xD2A5_9A69),
                  Words(0x115E_CA10, 0x2184_8B9C, 0x0363_92D7, 0xBBDA_7FEC))
  {
    XorHex(7, 15, 8, 8, 10, 8, 10, 14, 13, 5, 12, 8, 15, 10, 0, 1, 0x7F88_A8AE, 0xD5C8_FA01, 0xAA40_52AF);
    XorHex(10, 10, 4, 0, 5, 2, 10, 15, 11, 11, 1, 14, 9, 8, 11, 15, 0xAA40_52AF, 0xBB1E_98BF, 0x115E_CA10);
    XorHex(7, 9, 7, 7, 7, 8, 9, 3, 10, 8, 11, 1, 7, 0, 2, 13, 0x7977_7893, 0xA8B1_702D, 0xD1C6_08BE);
    XorHex(13, 1, 12, 6, 0, 8, 11, 14, 13, 2, 10, 5, 9, 10, 6, 9, 0xD1C6_08BE, 0xD2A5_9A69, 0x0363_92D7);
    RoundAnswer(Words(0x93D9_BEE4, 0xD5C8_FA01, 0x9EC8_33C4, 0xA8B1_702D), Key(0xBB1E_98BF, 0xD2A5_9A69),
                Words(0x115E_CA10, 0x2184_8B9C, 0x0363_92D7, 0xBBDA_7FEC), 0x7977_7893, 0x7F88_A8AE, 0xD1C6_08BE, 0xAA40_52AF);
  }

  lemma SeedRound6()
    ensures Leads(Words(0x115E_CA10, 0x2184_8B9C, 0x0363_92D7, 0xBBDA_7FEC), Key(0x5956_1278, 0x8E0D_48EE),
                  Words(0x7A6A_4C0D, 0xCA69_5211, 0x3B92_75DD, 0x2B43_7330))
  {
    XorHex(0, 2, 11, 8, 13, 5, 14, 9, 2, 1, 8, 4, 8, 11, 9, 12, 0x02B8_D5E9, 0x2184_8B9C, 0x233C_5E75);
    XorHex(2, 3, 3, 12, 5, 14, 7, 5, 5, 9, 5, 6, 1, 2, 7, 8, 0x233C_5E75, 0x5956_1278, 0x7A6A_4C0D);
    XorHex(0, 14, 4, 5, 4, 2, 13, 15, 11, 11, 13, 10, 7, 15, 14, 12, 0x0E45_42DF, 0xBBDA_7FEC, 0xB59F_3D33);
    XorHex(11, 5, 9, 15, 3, 13, 3, 3, 8, 14, 0, 13, 4, 8, 14, 14, 0xB59F_3D33, 0x8E0D_48EE, 0x3B92_75DD);
    RoundAnswer(Words(0x115E_CA10, 0x2184_8B9C, 0x0363_92D7, 0xBBDA_7FEC), Key(0x5956_1278, 0x8E0D_48EE),
                Words(0x7A6A_4C0D, 0xCA69_5211, 0x3B92_75DD, 0x2B43_7330), 0x0E45_42DF, 0x02B8_D5E9, 0xB59F_3D33, 0x233C_5E75);
  }

  lemma SeedRound7()
    ensures Leads(Words(0x7A6A_4C0D, 0xCA69_5211, 0x3B92_75DD, 0x2B43_7330), Key(0xF78D_8C31, 0x4974_F773),
                  Words(0x123D_F38A, 0xA116_C71B, 0x06A6_78BC, 0x49C9_3B37))
  {
    XorHex(2, 15, 13, 9, 2, 13, 10, 10, 12, 10, 6, 9, 5, 2, 1, 1, 0x2FD9_2DAA, 0xCA69_5211, 0xE5B0_7FBB);
    XorHex(14, 5, 11, 0, 7, 15, 11, 11, 15, 7, 8, 13, 8, 12, 3, 1, 0xE5B0_7FBB, 0xF78D_8C31, 0x123D_F38A);
    XorHex(6, 4, 9, 1, 15, 12, 15, 15, 2, 11, 4, 3, 7, 3, 3, 0, 0x6491_FCFF, 0x2B43_7330, 0x4FD2_8FCF);
    XorHex(4, 15, 13, 2, 8, 15, 12, 15, 4, 9, 7, 4, 15, 7, 7, 3, 0x4FD2_8FCF, 0x4974_F773, 0x06A6_78BC);
    RoundAnswer(Words(0x7A6A_4C0D, 0xCA69_5211, 0x3B92_75DD, 0x2B43_7330), Key(0xF78D_8C31, 0x4974_F773),
                Words(0x123D_F38A, 0xA116_C71B, 0x06A6_78BC, 0x49C9_3B37), 0x6491_FCFF, 0x2FD9_2DAA, 0x4FD2_8FCF, 0xE5B0_7FBB);
  }

  lemma SeedRound8()
    ensures Leads(Words(0x123D_F38A, 0xA116_C71B, 0x06A6_78BC, 0x49C9_3B37), Key(0x95C5_05EA, 0x04DC_A5F8),
                  Words(0x3184_AFE8, 0x031A_93E4, 0x43E9_0753, 0xAD3D_ABBE))
  {
    XorHex(0, 5, 5, 7, 6, 13, 1, 9, 10, 1, 1, 6, 12, 7, 1, 11, 0x0557_6D19, 0xA116_C71B, 0xA441_AA02);
    XorHex(10, 4, 4, 1, 10, 10, 0, 2, 9, 5, 12, 5, 0, 5, 14, 10, 0xA441_AA02, 0x95C5_05EA, 0x3184_AFE8);
    XorHex(0, 14, 15, 12, 9, 9, 9, 12, 4, 9, 12, 9, 3, 11, 3, 7, 0x0EFC_999C, 0x49C9_3B37, 0x4735_A2AB);
    XorHex(4, 7, 3, 5, 10, 2, 10, 11, 0, 4, 13, 12, 10, 5, 15, 8, 0x4735_A2AB, 0x04DC_A5F8, 0x43E9_0753);
    RoundAnswer(Words(0x123D_F38A, 0xA116_C71B, 0x06A6_78BC, 0x49C9_3B37), Key(0x95C5_05EA, 0x04DC_A5F8),
                Words(0x3184_AFE8, 0x031A_93E4, 0x43E9_0753, 0xAD3D_ABBE), 0x0EFC_999C, 0x0557_6D19, 0x4735_A2AB, 0xA441_AA02);
  }

  lemma SeedRound9()
    ensures Leads(Words(0x3184_AFE8, 0x031A_93E4, 0x43E9_0753, 0xAD3D_ABBE), Key(0x33FC_7FA3, 0xC044_547D),
                  Words(0x066D_4669, 0x6974_3435, 0x45D7_7694, 0x17BA_2038))
  {
    XorHex(3, 6, 8, 11, 10, 10, 2, 14, 0, 3, 1, 10, 9, 3, 14, 4, 0x368B_AA2E, 0x031A_93E4, 0x3591_39CA);
    XorHex(3, 5, 9, 1, 3, 9, 12, 10, 3, 3, 15, 12, 7, 15, 10, 3, 0x3591_39CA, 0x33FC_7FA3, 0x066D_4669);
    XorHex(2, 8, 10, 14, 8, 9, 5, 7, 10, 13, 3, 13, 10, 11, 11, 14, 0x28AE_8957, 0xAD3D_ABBE, 0x8593_22E9);
    XorHex(8, 5, 9, 3, 2, 2, 14, 9, 12, 0, 4, 4, 5, 4, 7, 13, 0x8593_22E9, 0xC044_547D, 0x45D7_7694);
    RoundAnswer(Words(0x3184_AFE8, 0x031A_93E4, 0x43E9_0753, 0xAD3D_ABBE), Key(0x33FC_7FA3, 0xC044_547D),
                Words(0x066D_4669, 0x6974_3435, 0x45D7_7694, 0x17BA_2038), 0x28AE_8957, 0x368B_AA2E, 0x8593_22E9, 0x3591_39CA);
  }

  lemma SeedFirst(c: Words, k: Key)
    requires c == Words(1, 0, 0xA409_3822, 0x299F_31D0) && k == Key(0xA409_3822, 0x299F_31D0)
    ensures Turns(c, k, 5, Words(0x93D9_BEE4, 0xD5C8_FA01, 0x9EC8_33C4, 0xA8B1_702D), Key(0xBB1E_98BF, 0xD2A5_9A69))
  {
    SeedRound0();
    TurnsOn(c, k, 0, c, k, Words(0x27C9_C216, 0xB208_CD8E, 0, 0xD251_1F53), Key(0x4240_B1DB, 0xE506_E055));
    SeedRound1();
    TurnsOn(c, k, 1, Words(0x27C9_C216, 0xB208_CD8E, 0, 0xD251_1F53), Key(0x4240_B1DB, 0xE506_E055), Words(0xF048_7C55, 0, 0x17E7_E3EC, 0xC9E0_9722), Key(0xE078_2B94, 0xA06E_8EDA));
    SeedRound2();
    TurnsOn(c, k, 2, Words(0xF048_7C55, 0, 0x17E7_E3EC, 0xC9E0_9722), Key(0xE078_2B94, 0xA06E_8EDA), Words(0xF34B_5441, 0x7FFF_7134, 0xACE9_83AB, 0xBF73_9A8F), Key(0x7EAF_A54D, 0x5BD6_3D5F));
    SeedRound3();
    TurnsOn(c, k, 3, Words(0xF34B_5441, 0x7FFF_7134, 0xACE9_83AB, 0xBF73_9A8F), Key(0x7EAF_A54D, 0x5BD6_3D5F), Words(0x8BB2_C27F, 0x936A_EE1D, 0x2345_4467, 0xFB31_3013), Key(0x1CE7_1F06, 0x173D_EBE4));
    SeedRound4();
    TurnsOn(c, k, 4, Words(0x8BB2_C27F, 0x936A_EE1D, 0x2345_4467, 0xFB31_3013), Key(0x1CE7_1F06, 0x173D_EBE4), Words(0x93D9_BEE4, 0xD5C8_FA01, 0x9EC8_33C4, 0xA8B1_702D), Key(0xBB1E_98BF, 0xD2A5_9A69));
  }

  lemma SeedLast(c: Words, k: Key)
    requires c == Words(0x93D9_BEE4, 0xD5C8_FA01, 0x9EC8_33C4, 0xA8B1_702D) && k == Key(0xBB1E_98BF, 0xD2A5_9A69)
    ensures Turns(c, k, 5, Words(0x066D_4669, 0x6974_3435, 0x45D7_7694, 0x17BA_2038), Key(0xD233_F95C, 0x7BAC_0302))
  {
    SeedRound5();
    TurnsOn(c, k, 0, c, k, Words(0x115E_CA10, 0x2184_8B9C, 0x0363_92D7, 0xBBDA_7FEC), Key(0x5956_1278, 0x8E0D_48EE));
    SeedRound6();
    TurnsOn(c, k, 1, Words(0x115E_CA10, 0x2184_8B9C, 0x0363_92D7, 0xBBDA_7FEC), Key(0x5956_1278, 0x8E0D_48EE), Words(0x7A6A_4C0D, 0xCA69_5211, 0x3B92_75DD, 0x2B43_7330), Key(0xF78D_8C31, 0x4974_F773));
    SeedRound7();
    TurnsOn(c, k, 2, Words(0x7A6A_4C0D, 0xCA69_5211, 0x3B92_75DD, 0x2B43_7330), Key(0xF78D_8C31, 0x4974_F773), Words(0x123D_F38A, 0xA116_C71B, 0x06A6_78BC, 0x49C9_3B37), Key(0x95C5_05EA, 0x04DC_A5F8));
    SeedRound8();
    TurnsOn(c, k, 3, Words(0x123D_F38A, 0xA116_C71B, 0x06A6_78BC, 0x49C9_3B37), Key(0x95C5_05EA, 0x04DC_A5F8), Words(0x3184_AFE8, 0x031A_93E4, 0x43E9_0753, 0xAD3D_ABBE), Key(0x33FC_7FA3, 0xC044_547D));
    SeedRound9();
    TurnsOn(c, k, 4, Words(0x3184_AFE8, 0x031A_93E4, 0x43E9_0753, 0xAD3D_ABBE), Key(0x33FC_7FA3, 0xC044_547D), Words(0x066D_4669, 0x6974_3435, 0x45D7_7694, 0x17BA_2038), Key(0xD233_F95C, 0x7BAC_0302));
  }

  /** The second block of the generator with seed 0x299F31D0A4093822. */
  lemma SeedBlock(c: Words, k: Key, n: nat)
    requires c == Words(1, 0, 0xA409_3822, 0x299F_31D0) && k == Key(0xA409_3822, 0x299F_31D0) && n == 10
    ensures Rounds(c, k, n) == Words(0x066D_4669, 0x6974_3435, 0x45D7_7694, 0x17BA_2038)
  {
    SeedFirst(c, k);
    SeedLast(Words(0x93D9_BEE4, 0xD5C8_FA01, 0x9EC8_33C4, 0xA8B1_702D), Key(0xBB1E_98BF, 0xD2A5_9A69));
    TurnsDone(c, k, Words(0x93D9_BEE4, 0xD5C8_FA01, 0x9EC8_33C4, 0xA8B1_702D), Key(0xBB1E_98BF, 0xD2A5_9A69), Words(0x066D_4669, 0x6974_3435, 0x45D7_7694, 0x17BA_2038), Key(0xD233_F95C, 0x7BAC_0302));
  }

  // ------------------------------------------------------- the seeded generator

  /** The fifth to the eighth word from this seed: words, halves of the seed and counter are in their places. */
  lemma SeedAnswer(seed: nat, j: nat)
    requires seed == 0x299F_31D0_A409_3822 && j < 4
    ensures Output(Drawn(Seeded(seed), 4 + j)) ==
            if j == 0 then 0x066D_4669 else if j == 1 then 0x6974_3435 else if j == 2 then 0x45D7_7694 else 0x17BA_2038
  {
    SeedWords(seed);
    BlockWord(Seeded(seed), 1, j, 4 + j);
  }

  lemma SeedWords(seed: nat)
    requires seed == 0x299F_31D0_A409_3822
    ensures var s := Seeded(seed);
      Rounds(Skips(s.counter, 1), s.key, s.rounds) == Words(0x066D_4669, 0x6974_3435, 0x45D7_7694, 0x17BA_2038)
  {
    SeedIs(seed);
    SeedBlock(Skips(Seeded(seed).counter, 1), Seeded(seed).key, Seeded(seed).rounds);
  }

  lemma SeedIs(seed: nat)
    requires seed == 0x299F_31D0_A409_3822
    ensures Skips(Seeded(seed).counter, 1) == Words(1, 0, 0xA409_3822, 0x299F_31D0) && Seeded(seed).key == Key(0xA409_3822, 0x299F_31D0) && Seeded(seed).rounds == 10
  {
    assert seed % TWO32 == 0xA409_3822 && seed / TWO32 == 0x299F_31D0;
    assert Skips(Seeded(seed).counter, 0) == Seeded(seed).counter;
  }
}
