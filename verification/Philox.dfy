/**
  The counter-based generator: ten rounds turn a 128-bit counter into a block of four
  words, and discard jumps ahead by counter arithmetic.
  */
module Philox {
  import opened Integers

  const TWO128 := 0x1_0000_0000_0000_0000_0000_0000_0000_0000

  type Word = x: int | 0 <= x < TWO32

  datatype Words = Words(w0: Word, w1: Word, w2: Word, w3: Word)

  datatype Key = Key(k0: Word, k1: Word)

  const MAGIC0: Word := 0xD251_1F53
  const MAGIC1: Word := 0xCD9E_8D57
  const STEP0: Word := 0x9E37_79B9
  const STEP1: Word := 0xBB67_AE85

  /** Unsigned 32-bit addition. */
  function Add(a: Word, b: Word): Word {
    if a + b < TWO32 then a + b else a + b - TWO32
  }

  // ------------------------------------------------------------- exclusive or

  function Pow2(n: nat): (r: nat)
    ensures r > 0
  {
    if n == 0 then 1 else 2 * Pow2(n - 1)
  }

  lemma Pow32()
    ensures Pow2(32) == TWO32
  {
    assert Pow2(8) == 0x100;
    assert Pow2(16) == 0x1_0000;
    assert Pow2(24) == 0x100_0000;
  }

  /** Bit by bit. */
  function XorBits(a: nat, b: nat): nat
    decreases a + b
  {
    if a == 0 && b == 0 then 0 else 2 * XorBits(a / 2, b / 2) + (a % 2 + b % 2) % 2
  }

  lemma {:induction false} XorBitsFits(a: nat, b: nat, n: nat)
    requires a < Pow2(n) && b < Pow2(n)
    ensures XorBits(a, b) < Pow2(n)
  {
    if n > 0 && (a != 0 || b != 0) { XorBitsFits(a / 2, b / 2, n - 1); }
  }

  lemma {:induction false} XorBitsCommutes(a: nat, b: nat)
    ensures XorBits(a, b) == XorBits(b, a)
    decreases a + b
  {
    if a != 0 || b != 0 { XorBitsCommutes(a / 2, b / 2); }
  }

  lemma Halves(y: nat, d: nat)
    requires d < 2
    ensures (2 * y + d) / 2 == y && (2 * y + d) % 2 == d
  {
  }

  lemma OddTwice(p: nat, q: nat)
    requires p < 2 && q < 2
    ensures ((p + q) % 2 + q) % 2 == p
  {
  }

  lemma {:induction false} XorBitsCancels(a: nat, b: nat)
    ensures XorBits(XorBits(a, b), b) == a
    decreases a + b
  {
    if a != 0 || b != 0 {
      var y, d := XorBits(a / 2, b / 2), (a % 2 + b % 2) % 2;
      XorBitsCancels(a / 2, b / 2);
      Halves(y, d);
      OddTwice(a % 2, b % 2);
    }
  }

  function Xor(a: Word, b: Word): Word {
    Pow32();
    XorBitsFits(a, b, 32);
    XorBits(a, b)
  }

  lemma XorCancels(a: Word, b: Word)
    ensures Xor(Xor(a, b), b) == a && Xor(a, b) == Xor(b, a) && Xor(b, Xor(b, a)) == a
  {
    XorBitsCancels(a, b);
    XorBitsCommutes(a, b);
    XorBitsCommutes(b, XorBits(b, a));
  }

  // ------------------------------------------------------------------ a round

  function Low(t: nat): Word {
    t % TWO32
  }

  function High(m: Word, x: Word): Word {
    HighFits(m, x);
    m * x / TWO32
  }

  lemma ProductGrows(m: nat, n: nat, x: nat)
    requires m <= n
    ensures 0 <= m * x <= n * x
  {
    var d: nat := n - m;
    assert d * x >= 0 && n * x == m * x + d * x;
  }

  lemma QuotientFits(t: nat)
    requires t < TWO64
    ensures 0 <= t / TWO32 < TWO32
  {
  }

  lemma HighFits(m: Word, x: Word)
    ensures 0 <= m * x / TWO32 < TWO32
  {
    ProductGrows(m, TWO32 - 1, x);
    QuotientFits(m * x);
  }

  function Compute(c: Words, k: Key): Words {
    Words(Xor(Xor(High(MAGIC1, c.w2), c.w1), k.k0),
          Low(MAGIC1 * c.w2),
          Xor(Xor(High(MAGIC0, c.w0), c.w3), k.k1),
          Low(MAGIC0 * c.w0))
  }

  function RaiseKey(k: Key): Key {
    Key(Add(k.k0, STEP0), Add(k.k1, STEP1))
  }

  /** The inverses of the odd multipliers modulo 2^32. */
  const INVERSE0: Word := 0x991A_7CDB
  const INVERSE1: Word := 0x6D7C_AE67

  /** Multiplication by an odd number modulo 2^32 can be undone. */
  lemma MulUndone(x: Word)
    ensures Low(INVERSE0 * Low(MAGIC0 * x)) == x
    ensures Low(INVERSE1 * Low(MAGIC1 * x)) == x
    ensures Low(MAGIC0 * Low(INVERSE0 * x)) == x
    ensures Low(MAGIC1 * Low(INVERSE1 * x)) == x
  {
    var q0, q1 := MAGIC0 * x / TWO32, MAGIC1 * x / TWO32;
    Remainder(INVERSE0 * Low(MAGIC0 * x), 0x7DC8_3E89 * x - INVERSE0 * q0, x);
    Remainder(INVERSE1 * Low(MAGIC1 * x), 0x57F0_A70F * x - INVERSE1 * q1, x);
    var p0, p1 := INVERSE0 * x / TWO32, INVERSE1 * x / TWO32;
    Remainder(MAGIC0 * Low(INVERSE0 * x), 0x7DC8_3E89 * x - MAGIC0 * p0, x);
    Remainder(MAGIC1 * Low(INVERSE1 * x), 0x57F0_A70F * x - MAGIC1 * p1, x);
  }

  lemma Remainder(t: nat, q: int, x: Word)
    requires t == q * TWO32 + x
    ensures t % TWO32 == x
  {
  }

  /** The round run backwards. */
  function Uncompute(d: Words, k: Key): Words {
    var w0, w2 := Low(INVERSE0 * d.w3), Low(INVERSE1 * d.w1);
    Words(w0, Xor(High(MAGIC1, w2), Xor(d.w0, k.k0)), w2, Xor(High(MAGIC0, w0), Xor(d.w2, k.k1)))
  }

  /** For every key a round is a bijection on the four words. */
  lemma RoundIsBijective(c: Words, k: Key)
    ensures Uncompute(Compute(c, k), k) == c
    ensures Compute(Uncompute(c, k), k) == c
  {
    MulUndone(c.w0);
    MulUndone(c.w1);
    MulUndone(c.w2);
    MulUndone(c.w3);
    var h0, h1 := High(MAGIC0, c.w0), High(MAGIC1, c.w2);
    XorCancels(Xor(h1, c.w1), k.k0);
    XorCancels(Xor(h0, c.w3), k.k1);
    XorCancels(c.w1, h1);
    XorCancels(c.w3, h0);
    var u := Uncompute(c, k);
    var g0, g1 := High(MAGIC0, u.w0), High(MAGIC1, u.w2);
    XorCancels(Xor(c.w0, k.k0), g1);
    XorCancels(Xor(c.w2, k.k1), g0);
    XorCancels(c.w0, k.k0);
    XorCancels(c.w2, k.k1);
  }

  lemma RoundIsInjective(c: Words, d: Words, k: Key)
    requires Compute(c, k) == Compute(d, k)
    ensures c == d
  {
    RoundIsBijective(c, k);
    RoundIsBijective(d, k);
  }

  /** n rounds, the key raised in between. */
  function Rounds(c: Words, k: Key, n: nat): Words
    decreases n
  {
    if n == 0 then c else Rounds(Compute(c, k), RaiseKey(k), n - 1)
  }

  lemma {:induction false} RoundsAreInjective(c: Words, d: Words, k: Key, n: nat)
    requires Rounds(c, k, n) == Rounds(d, k, n)
    ensures c == d
    decreases n
  {
    if n > 0 {
      RoundsAreInjective(Compute(c, k), Compute(d, k), RaiseKey(k), n - 1);
      RoundIsInjective(c, d, k);
    }
  }

  // -------------------------------------------------------------- the counter

  function Join(low: Word, high: nat): nat {
    low + high * TWO32
  }

  /** The 128-bit number that the counter words stand for. */
  function Val(c: Words): nat {
    Join(c.w0, Join(c.w1, Join(c.w2, c.w3)))
  }

  lemma JoinIsInjective(a: Word, x: nat, b: Word, y: nat)
    requires Join(a, x) == Join(b, y)
    ensures a == b && x == y
  {
  }

  lemma ValIsInjective(c: Words, d: Words)
    requires Val(c) == Val(d)
    ensures c == d
  {
    JoinIsInjective(c.w0, Join(c.w1, Join(c.w2, c.w3)), d.w0, Join(d.w1, Join(d.w2, d.w3)));
    JoinIsInjective(c.w1, Join(c.w2, c.w3), d.w1, Join(d.w2, d.w3));
    JoinIsInjective(c.w2, c.w3, d.w2, d.w3);
  }

  lemma ValFits(c: Words)
    ensures Val(c) < TWO128
  {
  }

  function SkipOne(c: Words): Words {
    var w0 := Add(c.w0, 1);
    if w0 != 0 then c.(w0 := w0)
    else
      var w1 := Add(c.w1, 1);
      if w1 != 0 then c.(w0 := w0, w1 := w1)
      else
        var w2 := Add(c.w2, 1);
        if w2 != 0 then c.(w0 := w0, w1 := w1, w2 := w2) else Words(w0, w1, w2, Add(c.w3, 1))
  }

  lemma SkipOneCounts(c: Words)
    ensures Val(SkipOne(c)) == if Val(c) + 1 == TWO128 then 0 else Val(c) + 1
  {
    if c == Words(TWO32 - 1, TWO32 - 1, TWO32 - 1, TWO32 - 1) {
      assert Val(c) + 1 == TWO128;
    }
  }

  /** n single increments. */
  function Skips(c: Words, n: nat): Words {
    if n == 0 then c else SkipOne(Skips(c, n - 1))
  }

  function Wrap(v: nat): nat {
    v % TWO128
  }

  lemma WrapNext(v: nat)
    ensures Wrap(v + 1) == if Wrap(v) + 1 == TWO128 then 0 else Wrap(v) + 1
  {
  }

  lemma WrapOnce(v: nat)
    ensures v < TWO128 ==> Wrap(v) == v
    ensures TWO128 <= v < 2 * TWO128 ==> Wrap(v) == v - TWO128
  {
  }

  lemma {:induction false} SkipsCount(c: Words, n: nat)
    ensures Val(Skips(c, n)) == Wrap(Val(c) + n)
  {
    if n == 0 {
      ValFits(c);
      WrapOnce(Val(c));
    } else {
      SkipsCount(c, n - 1);
      SkipOneCounts(Skips(c, n - 1));
      WrapNext(Val(c) + n - 1);
    }
  }

  /** The carry that skip loses: the high word is full and the low word overflows into it. */
  predicate LosesCarry(c: Words, lo: Word, hi: Word) {
    hi == TWO32 - 1 && c.w0 + lo >= TWO32
  }

  /** skip for the low and the high word of the count */
  function SkipWords(c: Words, lo: Word, hi: Word): Words {
    var w0 := Add(c.w0, lo);
    var high := if w0 < lo then Add(hi, 1) else hi;
    var w1 := Add(c.w1, high);
    if w1 < high then
      var w2 := Add(c.w2, 1);
      if w2 == 0 then Words(w0, w1, w2, Add(c.w3, 1)) else Words(w0, w1, w2, c.w3)
    else c.(w0 := w0, w1 := w1)
  }

  lemma SkipAdds(c: Words, lo: Word, hi: Word)
    ensures !LosesCarry(c, lo, hi) ==>
              var v := Val(SkipWords(c, lo, hi)); v == Val(c) + Join(lo, hi) || v == Val(c) + Join(lo, hi) - TWO128
    ensures LosesCarry(c, lo, hi) ==> Val(SkipWords(c, lo, hi)) == Val(c) + Join(lo, hi) - TWO64
  {
  }

  /** skip is that many single increments exactly if it loses no carry. */
  lemma SkipIsSkips(c: Words, lo: Word, hi: Word)
    ensures SkipWords(c, lo, hi) == Skips(c, Join(lo, hi)) <==> !LosesCarry(c, lo, hi)
  {
    var n, d := Join(lo, hi), SkipWords(c, lo, hi);
    SkipAdds(c, lo, hi);
    SkipsCount(c, n);
    ValFits(c);
    ValFits(d);
    WrapOnce(Val(c) + n);
    if !LosesCarry(c, lo, hi) { ValIsInjective(d, Skips(c, n)); }
  }

  function Skip(c: Words, count: nat): Words
    requires count < TWO64
  {
    SkipWords(c, count % TWO32, count / TWO32)
  }

  /** Below 2^62 skip never loses a carry: discard divides by four first. */
  lemma SkipQuarter(c: Words, count: nat)
    requires count < 0x4000_0000_0000_0000
    ensures Skip(c, count) == Skips(c, count)
  {
    SkipIsSkips(c, count % TWO32, count / TWO32);
  }

  lemma WrapDiffers(v: nat, w: nat)
    requires v < w < v + TWO128
    ensures Wrap(v) != Wrap(w)
  {
  }

  lemma CountersDiffer(c: Words, i: nat, j: nat)
    requires i < j < i + TWO128
    ensures Skips(c, i) != Skips(c, j)
  {
    SkipsCount(c, i);
    SkipsCount(c, j);
    WrapDiffers(Val(c) + i, Val(c) + j);
  }

  /** The blocks of 2^128 successive counters are all different, for any number of rounds. */
  lemma BlocksDiffer(c: Words, k: Key, i: nat, j: nat, n: nat)
    requires i < j < i + TWO128
    ensures Rounds(Skips(c, i), k, n) != Rounds(Skips(c, j), k, n)
  {
    CountersDiffer(c, i, j);
    if Rounds(Skips(c, i), k, n) == Rounds(Skips(c, j), k, n) {
      RoundsAreInjective(Skips(c, i), Skips(c, j), k, n);
    }
  }

  // ------------------------------------------------------------ the generator

  /**
    The fields of a generator; index counts the words of results already taken.  The
    number of rounds is fixed to ten by the class; nothing here depends on it.
    */
  datatype State = State(rounds: nat, key: Key, counter: Words, results: Words, index: nat) {
    predicate Valid() {
      index <= 4
    }
  }

  function At(w: Words, i: nat): Word
    requires i < 4
  {
    if i == 0 then w.w0 else if i == 1 then w.w1 else if i == 2 then w.w2 else w.w3
  }

  /** The state before a word is taken: a used-up block is replaced. */
  function Filled(s: State): State {
    if s.index == 4 then s.(results := Rounds(s.counter, s.key, s.rounds), counter := SkipOne(s.counter), index := 0) else s
  }

  function Output(s: State): Word
    requires s.Valid()
  {
    At(Filled(s).results, Filled(s).index)
  }

  function Draw(s: State): (r: State)
    requires s.Valid()
    ensures r.Valid()
  {
    Filled(s).(index := Filled(s).index + 1)
  }

  /** n calls of the generator */
  function Drawn(s: State, n: nat): (r: State)
    requires s.Valid()
    ensures r.Valid()
  {
    if n == 0 then s else Draw(Drawn(s, n - 1))
  }

  /** The states differ at most in words that have already been taken. */
  ghost predicate Same(s: State, t: State)
    requires s.Valid() && t.Valid()
  {
    && s.rounds == t.rounds && s.key == t.key && s.counter == t.counter && s.index == t.index
    && forall i :: s.index <= i < 4 ==> At(s.results, i) == At(t.results, i)
  }

  /** Such states produce the same words for ever. */
  lemma SameOutput(s: State, t: State)
    requires s.Valid() && t.Valid() && Same(s, t)
    ensures Output(s) == Output(t) && Same(Draw(s), Draw(t))
  {
  }

  lemma {:induction false} SameOutputs(s: State, t: State, n: nat)
    requires s.Valid() && t.Valid() && Same(s, t)
    ensures Same(Drawn(s, n), Drawn(t, n)) && Output(Drawn(s, n)) == Output(Drawn(t, n))
  {
    if n > 0 { SameOutputs(s, t, n - 1); }
    SameOutput(Drawn(s, n), Drawn(t, n));
  }

  lemma {:induction false} DrawnAdds(s: State, m: nat, n: nat)
    requires s.Valid()
    ensures Drawn(Drawn(s, m), n) == Drawn(s, m + n)
  {
    if n > 0 { DrawnAdds(s, m, n - 1); }
  }

  /** The state when i words of the block that is q blocks ahead have been taken. */
  function AtBlock(s: State, q: nat, i: nat): State {
    State(s.rounds, s.key, Skips(s.counter, q + 1), Rounds(Skips(s.counter, q), s.key, s.rounds), i)
  }

  /** The state at position p, where positions 0 to 4 are those of the block at hand. */
  function Position(s: State, p: nat): (r: State)
    ensures r.Valid()
  {
    if p <= 4 then s.(index := p)
    else AtBlock(s, (p - 1) / 4 - 1, (p - 1) % 4 + 1)
  }

  lemma {:induction false} DrawnIsPosition(s: State, n: nat, p: nat)
    requires s.Valid() && p == s.index + n
    ensures Drawn(s, n) == Position(s, p)
  {
    if n > 0 {
      DrawnIsPosition(s, n - 1, p - 1);
      NextPosition(s, p - 1, p);
    }
  }

  lemma NextPosition(s: State, p: nat, p': nat)
    requires s.Valid() && p' == p + 1
    ensures Draw(Position(s, p)) == Position(s, p')
  {
    if p > 4 {
      var q, i := (p - 1) / 4, (p - 1) % 4;
      if i < 3 { QuotientAndRest(p, q, i + 1); } else { QuotientAndRest(p, q + 1, 0); }
    }
  }

  // ------------------------------------------------------------------ discard

  /** The next block is computed, and the first words of it count as taken. */
  function Opened(s: State, index: nat): State {
    State(s.rounds, s.key, SkipOne(s.counter), Rounds(s.counter, s.key, s.rounds), index)
  }

  /** Blocks are skipped, and the next one is opened if a rest remains. */
  function Landed(s: State, count: nat, remain: nat): State
    requires count < TWO64
  {
    var t := s.(counter := Skip(s.counter, count));
    if remain > 0 then Opened(t, remain) else t.(index := 4)
  }

  function Discard(s: State, step: nat): (r: State)
    requires s.Valid() && step < TWO64
    ensures r.Valid()
  {
    if s.index == 4 then Landed(s, step / 4, step % 4)
    else
      var pos := (s.index + step) % TWO64;
      if pos <= 4 then s.(index := pos) else Landed(s, (pos - 4) / 4, pos % 4)
  }

  /** The sum of index and step wraps around. */
  predicate Wraps(s: State, step: nat) {
    s.index < 4 && s.index + step >= TWO64
  }

  lemma OpenedIsPosition(s: State, p: nat, q: nat, r: nat)
    requires p == 4 * q + 4 + r && 0 < r <= 4
    ensures Position(s, p) == Opened(s.(counter := Skips(s.counter, q)), r)
  {
    QuotientAndRest(p - 1, q + 1, r - 1);
    AtBlockIsOpened(s, q, r);
  }

  lemma AtBlockIsOpened(s: State, q: nat, i: nat)
    ensures AtBlock(s, q, i) == Opened(s.(counter := Skips(s.counter, q)), i)
  {
  }

  lemma EndIsPosition(s: State, p: nat, q: nat)
    requires s.Valid() && p == 4 * q + 4
    ensures Same(Position(s, p), s.(counter := Skips(s.counter, q), index := 4))
  {
    if q > 0 { OpenedIsPosition(s, p, q - 1, 4); }
  }

  lemma QuotientAndRest(n: nat, q: nat, r: nat)
    requires n == 4 * q + r && r < 4
    ensures n / 4 == q && n % 4 == r
  {
  }

  lemma Unwrapped(n: nat)
    requires n < TWO64
    ensures n % TWO64 == n
  {
  }

  lemma DiscardLands(s: State, step: nat, p: nat)
    requires s.index < 4 && step < TWO64 && p == s.index + step && 4 < p < TWO64
    ensures Discard(s, step) == Landed(s, (p - 4) / 4, p % 4)
  {
    Unwrapped(p);
  }

  /** discard from position p, the last position of a block counting as 4 */
  lemma DiscardParts(s: State, step: nat, q: nat, r: nat)
    requires s.Valid() && step < TWO64 && !Wraps(s, step)
    requires s.index + step == 4 * q + 4 + r && r < 4 && (s.index == 4 || s.index + step > 4)
    ensures q < 0x4000_0000_0000_0000
    ensures Discard(s, step) == Landed(s, q, r)
  {
    var p := s.index + step;
    QuotientAndRest(p - 4, q, r);
    if s.index < 4 {
      DiscardLands(s, step, p);
      QuotientAndRest(p, q + 1, r);
    }
  }

  lemma DiscardIsPosition(s: State, step: nat)
    requires s.Valid() && step < TWO64 && !Wraps(s, step)
    ensures Same(Discard(s, step), Position(s, s.index + step))
  {
    var p := s.index + step;
    if p > 4 || s.index == 4 {
      var q, r := (p - 4) / 4, (p - 4) % 4;
      DiscardParts(s, step, q, r);
      SkipQuarter(s.counter, q);
      if r > 0 { OpenedIsPosition(s, p, q, r); } else { EndIsPosition(s, p, q); }
    }
  }

  /** Word j of the block that is q blocks ahead. */
  lemma BlockWord(s: State, q: nat, j: nat, n: nat)
    requires s.Valid() && j < 4 && s.index + n == 4 * q + 4 + j
    ensures Output(Drawn(s, n)) == At(Rounds(Skips(s.counter, q), s.key, s.rounds), j)
  {
    var p := s.index + n;
    DrawnIsPosition(s, n, p);
    if j > 0 { QuotientAndRest(p - 1, q + 1, j - 1); } else if q > 0 { QuotientAndRest(p - 1, q, 3); }
  }

  lemma SomeWordDiffers(a: Words, b: Words) returns (j: nat)
    requires a != b
    ensures j < 4 && At(a, j) != At(b, j)
  {
    j := if a.w0 != b.w0 then 0 else if a.w1 != b.w1 then 1 else if a.w2 != b.w2 then 2 else 3;
  }

  /**
    A wrapped sum leads back into the block at hand, step calls lead 2^62 blocks ahead:
    within the next eight words there is one that differs.
    */
  lemma WrappedDiffers(s: State, step: nat) returns (n: nat)
    requires s.Valid() && step < TWO64 && Wraps(s, step)
    ensures n < 8 && Output(Drawn(Discard(s, step), n)) != Output(Drawn(s, step + n))
  {
    var t, q := Discard(s, step), 0x4000_0000_0000_0000;
    assert t == s.(index := s.index + step - TWO64) by { assert (s.index + step) % TWO64 == s.index + step - TWO64; }
    BlocksDiffer(s.counter, s.key, 0, q, s.rounds);
    var j := SomeWordDiffers(Rounds(s.counter, s.key, s.rounds), Rounds(Skips(s.counter, q), s.key, s.rounds));
    n := 4 - t.index + j;
    BlockWord(t, 0, j, n);
    BlockWord(s, q, j, step + n);
  }

  /**
    discard(step) does what step calls do, as far as all later words tell, exactly if the
    sum of index and step does not wrap around.  From any state that is so for every step
    below 2^64 - 3.
    */
  lemma DiscardIsDrawing(s: State, step: nat)
    requires s.Valid() && step < TWO64
    ensures (forall n: nat :: Output(Drawn(Discard(s, step), n)) == Output(Drawn(s, step + n))) <==> !Wraps(s, step)
  {
    if Wraps(s, step) {
      var n := WrappedDiffers(s, step);
    } else {
      DrawnIsPosition(s, step, s.index + step);
      DiscardIsPosition(s, step);
      forall n: nat ensures Output(Drawn(Discard(s, step), n)) == Output(Drawn(s, step + n)) {
        SameOutputs(Discard(s, step), Drawn(s, step), n);
        DrawnAdds(s, step, n);
      }
    }
  }

  /** A case that wraps around: after one call, the largest step leads back to the word of that call. */
  lemma LargestStepGoesBack(s: State)
    requires s.index == 4
    ensures Wraps(Draw(s), TWO64 - 1) && Output(Discard(Draw(s), TWO64 - 1)) == Output(s)
  {
  }

  // ------------------------------------------------------------------ the class

  class Philox {
    const rounds: nat
    var key: Key
    var counter: Words
    var results: Words
    var index: nat

    ghost function Abstract(): State
      reads this
    {
      State(rounds, key, counter, results, index)
    }

    constructor (seed: nat)
      requires seed < TWO64
      ensures Abstract() == Seeded(seed)
    {
      rounds := 10;
      key, counter, results, index := Key(seed % TWO32, seed / TWO32), Words(0, 0, seed % TWO32, seed / TWO32), Words(0, 0, 0, 0), 4;
    }

    method SkipOneBlock()
      modifies this`counter
      ensures counter == SkipOne(old(counter))
    {
      counter := SkipOne(counter);
    }

    /** Ten rounds, with the key raised in between; the source writes them out. */
    method Next() returns (result: Words)
      modifies this`counter
      ensures result == Rounds(old(counter), key, rounds) && counter == SkipOne(old(counter))
    {
      result := counter;
      var k, left := key, rounds;
      while left > 0
        invariant Rounds(result, k, left) == Rounds(old(counter), key, rounds)
        invariant counter == old(counter)
      {
        result := Compute(result, k);
        k := RaiseKey(k);
        left := left - 1;
      }
      SkipOneBlock();
    }

    /** operator() */
    method Call() returns (word: Word)
      requires Abstract().Valid()
      modifies this
      ensures word == Output(old(Abstract())) && Abstract() == Draw(old(Abstract()))
    {
      if index == 4 {
        results := Next();
        index := 0;
      }
      word := At(results, index);
      index := index + 1;
    }

    method Advance(count: nat)
      requires count < TWO64
      modifies this`counter
      ensures counter == Skip(old(counter), count)
    {
      var lo: Word := count % TWO32;
      var hi: Word := count / TWO32;
      var w0 := Add(counter.w0, lo);
      if w0 < lo { hi := Add(hi, 1); }
      var w1 := Add(counter.w1, hi);
      var w2, w3 := counter.w2, counter.w3;
      if w1 < hi {
        w2 := Add(w2, 1);
        if w2 == 0 { w3 := Add(w3, 1); }
      }
      counter := Words(w0, w1, w2, w3);
    }

    /** Whole blocks are skipped, and the next one is opened if a rest remains. */
    method JumpBlocks(count: nat, remain: nat)
      requires Abstract().Valid() && count < TWO64 && remain < 4
      modifies this
      ensures Abstract() == Landed(old(Abstract()), count, remain)
    {
      Advance(count);
      if remain > 0 {
        results := Next();
        index := remain;
      } else {
        index := 4;
      }
    }

    /** discard */
    method Jump(step: nat)
      requires Abstract().Valid() && step < TWO64
      modifies this
      ensures Abstract() == Discard(old(Abstract()), step)
    {
      if index == 4 {
        JumpBlocks(step / 4, step % 4);
      } else {
        var pos := (index + step) % TWO64;
        if pos <= 4 {
          index := pos;
        } else {
          JumpBlocks((pos - 4) / 4, pos % 4);
        }
      }
    }
  }

  function Seeded(seed: nat): (s: State)
    requires seed < TWO64
    ensures s.Valid()
  {
    State(10, Key(seed % TWO32, seed / TWO32), Words(0, 0, seed % TWO32, seed / TWO32), Words(0, 0, 0, 0), 4)
  }
}
