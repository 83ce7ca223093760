/**
  Filling a buffer with random numbers, alone or cut into tasks.  The distributions turn
  words into values by functions that are not looked into.
  */
module RandomFill {
  import opened Integers
  import opened Options
  import opened Philox

  // ---------------------------------------------------------- distributions

  /**
    A distribution object: in state d the next value needs need(d) words, is value(d, words),
    and leaves the object in state next(d, words).
    */
  datatype Dist<!D, !T> = Dist(init: D, need: D -> nat, value: (D, seq<Word>) -> T, next: (D, seq<Word>) -> D)

  function Take(w: nat -> Word, from: nat, n: nat): seq<Word> {
    seq(n, i requires 0 <= i < n => w(from + i))
  }

  /** State and position in the word stream after n values. */
  function Run<D, T>(dist: Dist<D, T>, w: nat -> Word, d: D, p: nat, n: nat): (D, nat) {
    if n == 0 then (d, p)
    else
      var (e, q) := Run(dist, w, d, p, n - 1);
      (dist.next(e, Take(w, q, dist.need(e))), q + dist.need(e))
  }

  /** The value after n others. */
  function Out<D, T>(dist: Dist<D, T>, w: nat -> Word, start: nat, n: nat): T {
    var (e, q) := Run(dist, w, dist.init, start, n);
    dist.value(e, Take(w, q, dist.need(e)))
  }

  function Fill<D, T>(dist: Dist<D, T>, w: nat -> Word, start: nat, size: nat): (r: seq<T>)
    ensures |r| == size && forall n :: 0 <= n < size ==> r[n] == Out(dist, w, start, n)
  {
    seq(size, n requires 0 <= n < size => Out(dist, w, start, n))
  }

  /** After every four values the object is as it was, and has drawn four words. */
  ghost predicate FourCycle<D(!new), T(!new)>(dist: Dist<D, T>) {
    forall w: nat -> Word, p: nat :: Run(dist, w, dist.init, p, 4) == (dist.init, p + 4)
  }

  lemma {:induction false} RunAdds<D, T>(dist: Dist<D, T>, w: nat -> Word, d: D, p: nat, a: nat, b: nat)
    ensures var (e, q) := Run(dist, w, d, p, a); Run(dist, w, d, p, a + b) == Run(dist, w, e, q, b)
  {
    if b > 0 { RunAdds(dist, w, d, p, a, b - 1); }
  }

  lemma {:induction false} FourCycles<D(!new), T(!new)>(dist: Dist<D, T>, w: nat -> Word, p: nat, k: nat)
    requires FourCycle(dist)
    ensures Run(dist, w, dist.init, p, 4 * k) == (dist.init, p + 4 * k)
  {
    if k > 0 {
      FourCycles(dist, w, p, k - 1);
      RunAdds(dist, w, dist.init, p, 4 * (k - 1), 4);
      assert 4 * (k - 1) + 4 == 4 * k;
    }
  }

  /** A fill that starts 4 * k words later continues the first one after 4 * k values. */
  lemma FillContinues<D(!new), T(!new)>(dist: Dist<D, T>, w: nat -> Word, p: nat, k: nat, n: nat)
    requires FourCycle(dist)
    ensures Out(dist, w, p, 4 * k + n) == Out(dist, w, p + 4 * k, n)
  {
    FourCycles(dist, w, p, k);
    RunAdds(dist, w, dist.init, p, 4 * k, n);
  }

  /** One word for each value: the uniform and the truncated normal distribution. */
  function OneWord<T>(f: Word -> T, none: T): Dist<(), T> {
    Dist((), (d: ()) => 1, (d: (), ws: seq<Word>) => if |ws| == 1 then f(ws[0]) else none, (d: (), ws: seq<Word>) => ())
  }

  lemma OneWordCycles<T(!new)>(f: Word -> T, none: T)
    ensures FourCycle(OneWord(f, none))
  {
    var dist := OneWord(f, none);
    forall w: nat -> Word, p: nat ensures Run(dist, w, (), p, 4) == ((), p + 4) {
      assert Run(dist, w, (), p, 1) == ((), p + 1);
      assert Run(dist, w, (), p, 2) == ((), p + 2);
      assert Run(dist, w, (), p, 3) == ((), p + 3);
    }
  }

  /** The value at a position comes from the word at that position. */
  lemma {:induction false} OneWordValue<T(!new)>(f: Word -> T, none: T, w: nat -> Word, p: nat, n: nat)
    ensures Run(OneWord(f, none), w, (), p, n) == ((), p + n)
    ensures Out(OneWord(f, none), w, p, n) == f(w(p + n))
  {
    if n > 0 { OneWordValue(f, none, w, p, n - 1); }
  }

  /** Two words for two values, the second of which is kept: the Box-Muller transform. */
  function Paired<T>(first: (Word, Word) -> T, second: (Word, Word) -> T, none: T): Dist<Option<T>, T> {
    Dist(None,
         (d: Option<T>) => if d.None? then 2 else 0,
         (d: Option<T>, ws: seq<Word>) => if d.Some? then d.value else if |ws| == 2 then first(ws[0], ws[1]) else none,
         (d: Option<T>, ws: seq<Word>) => if d.Some? then None else if |ws| == 2 then Some(second(ws[0], ws[1])) else None)
  }

  lemma PairedCycles<T(!new)>(first: (Word, Word) -> T, second: (Word, Word) -> T, none: T)
    ensures FourCycle(Paired(first, second, none))
  {
    var dist := Paired(first, second, none);
    forall w: nat -> Word, p: nat ensures Run(dist, w, None, p, 4) == (None, p + 4) {
      assert Run(dist, w, None, p, 1) == (Some(second(w(p), w(p + 1))), p + 2);
      assert Run(dist, w, None, p, 2) == (None, p + 2);
      assert Run(dist, w, None, p, 3) == (Some(second(w(p + 2), w(p + 3))), p + 4);
    }
  }

  /** Values come in pairs from two words: first the one, then the kept other. */
  lemma {:induction false} PairedValues<T(!new)>(first: (Word, Word) -> T, second: (Word, Word) -> T, none: T, w: nat -> Word, p: nat, k: nat)
    ensures var dist := Paired(first, second, none);
      && Run(dist, w, None, p, 2 * k) == (None, p + 2 * k)
      && Out(dist, w, p, 2 * k) == first(w(p + 2 * k), w(p + 2 * k + 1))
      && Out(dist, w, p, 2 * k + 1) == second(w(p + 2 * k), w(p + 2 * k + 1))
  {
    var dist := Paired(first, second, none);
    if k > 0 { PairedValues(first, second, none, w, p, k - 1); }
    assert Run(dist, w, None, p, 2 * k) == (None, p + 2 * k);
    assert Run(dist, w, None, p, 2 * k + 1) == (Some(second(w(p + 2 * k), w(p + 2 * k + 1))), p + 2 * k + 2);
  }

  // ---------------------------------------------------------- filling a part

  /** The words that a generator in this state produces. */
  function Stream(s: State): nat -> Word
    requires s.Valid()
  {
    (n: nat) => WordAt(s, n)
  }

  function WordAt(s: State, n: nat): Word
    requires s.Valid()
  {
    Output(Drawn(s, n))
  }

  /** From now on the generator produces the words of the stream from position p on. */
  ghost predicate Produces(s: State, w: nat -> Word, p: nat) {
    s.Valid() && forall n: nat {:trigger Drawn(s, n)} :: Output(Drawn(s, n)) == w(p + n)
  }

  lemma ProducesNext(s: State, w: nat -> Word, p: nat)
    requires Produces(s, w, p)
    ensures Output(s) == w(p) && Produces(Draw(s), w, p + 1)
  {
    assert Drawn(s, 0) == s && Drawn(s, 1) == Draw(s);
    forall n: nat ensures Output(Drawn(Draw(s), n)) == w(p + 1 + n) {
      DrawnAdds(s, 1, n);
      assert Drawn(Draw(s), n) == Drawn(s, 1 + n);
    }
  }

  /** After discard the generator goes on as if it had produced the words. */
  lemma ProducesAfterDiscard(s0: State, skip: nat)
    requires s0.index == 4 && skip < TWO64
    ensures Produces(Discard(s0, skip), Stream(s0), skip)
  {
    DiscardIsDrawing(s0, skip);
    forall n: nat ensures Output(Drawn(Discard(s0, skip), n)) == Stream(s0)(skip + n) {
      assert Stream(s0)(skip + n) == WordAt(s0, skip + n);
    }
  }

  method DrawWord(gen: Philox, ghost w: nat -> Word, ghost p: nat) returns (word: Word)
    requires Produces(gen.Abstract(), w, p)
    modifies gen
    ensures word == w(p) && Produces(gen.Abstract(), w, p + 1)
  {
    ProducesNext(gen.Abstract(), w, p);
    word := gen.Call();
  }

  method DrawWords(gen: Philox, n: nat, ghost w: nat -> Word, ghost p: nat) returns (ws: seq<Word>)
    requires Produces(gen.Abstract(), w, p)
    modifies gen
    ensures ws == Take(w, p, n) && Produces(gen.Abstract(), w, p + n)
  {
    ws := [];
    for i := 0 to n
      invariant ws == Take(w, p, i) && Produces(gen.Abstract(), w, p + i)
    {
      var word := DrawWord(gen, w, p + i);
      ws := ws + [word];
    }
  }

  /** Generate size values into the buffer from at on. */
  method FillFrom<D, T>(gen: Philox, buf: array<T>, at: nat, size: nat, dist: Dist<D, T>,
                        ghost w: nat -> Word, ghost skip: nat)
    requires Produces(gen.Abstract(), w, skip) && at + size <= buf.Length
    modifies gen, buf
    ensures forall j :: 0 <= j < size ==> buf[at + j] == Out(dist, w, skip, j)
    ensures forall j :: 0 <= j < buf.Length && !(at <= j < at + size) ==> buf[j] == old(buf[j])
  {
    var d := dist.init;
    ghost var p: nat := skip;
    for i := 0 to size
      invariant Run(dist, w, dist.init, skip, i) == (d, p)
      invariant Produces(gen.Abstract(), w, p)
      invariant forall j :: 0 <= j < i ==> buf[at + j] == Out(dist, w, skip, j)
      invariant forall j :: 0 <= j < buf.Length && !(at <= j < at + size) ==> buf[j] == old(buf[j])
    {
      var ws := DrawWords(gen, dist.need(d), w, p);
      p := p + dist.need(d);
      buf[at + i] := dist.value(d, ws);
      d := dist.next(d, ws);
    }
  }

  /** The part of the buffer from at on gets the values of a new generator that has skipped some words. */
  method GenerateRandoms<D, T>(seed: nat, skip: nat, buf: array<T>, at: nat, size: nat, dist: Dist<D, T>)
    requires seed < TWO64 && skip < TWO64 && at + size <= buf.Length
    modifies buf
    ensures forall j :: 0 <= j < size ==> buf[at + j] == Out(dist, Stream(Seeded(seed)), skip, j)
    ensures forall j :: 0 <= j < buf.Length && !(at <= j < at + size) ==> buf[j] == old(buf[j])
  {
    var gen := new Philox(seed);
    ghost var s0 := gen.Abstract();
    gen.Jump(skip);
    ProducesAfterDiscard(s0, skip);
    FillFrom(gen, buf, at, size, dist, Stream(s0), skip);
  }

  // ------------------------------------------------------------------- tasks

  /** Rounded up. */
  function CeilDiv(a: nat, b: nat): (r: nat)
    requires b > 0
    ensures (r - 1) * b < a <= r * b || (a == 0 && r == 0)
  {
    var q := (a + b - 1) / b;
    DivBounds(a + b - 1, b, q);
    q
  }

  lemma DivBounds(x: nat, b: nat, q: nat)
    requires b > 0 && q == x / b
    ensures q * b <= x < q * b + b && (q - 1) * b == q * b - b
  {
  }

  const MIN_PARALLEL := 1024
  const BLOCK := 4

  /** How many tasks, and how large. */
  function ComputeTaskNumSize(total: nat, threads: nat): (r: (nat, nat))
    ensures threads == 0 || total <= 1024 ==> r == (1, total)
    ensures r.0 > 0 && (total > 0 ==> (r.0 - 1) * r.1 < total <= r.0 * r.1)
    ensures r.0 > 1 ==> r.1 % 4 == 0 && r.0 <= threads
  {
    if threads == 0 || total <= MIN_PARALLEL then (1, total)
    else
      var blocks := CeilDiv(total, BLOCK);
      if blocks <= threads then (blocks, BLOCK)
      else
        var perThread := CeilDiv(blocks, threads);
        var tasks := CeilDiv(blocks, perThread);
        TasksFit(total, blocks, threads, perThread, tasks);
        (tasks, perThread * BLOCK)
  }

  /** A large fill is shared as soon as there are two threads. */
  lemma LargeFillIsShared(total: nat, threads: nat)
    requires threads > 1 && total > 1024
    ensures ComputeTaskNumSize(total, threads).0 > 1
  {
    var blocks := CeilDiv(total, BLOCK);
    if blocks > threads { ShareIsLess(blocks, threads, CeilDiv(blocks, threads)); }
  }

  lemma ShareIsLess(blocks: nat, threads: nat, share: nat)
    requires 1 < threads < blocks && (share - 1) * threads < blocks <= share * threads
    ensures share < blocks
  {
    if share > 0 { MulMonotone(2, threads, share - 1); }
  }

  lemma TasksFit(total: nat, blocks: nat, threads: nat, perThread: nat, tasks: nat)
    requires threads > 0 && perThread > 0 && (blocks - 1) * BLOCK < total <= blocks * BLOCK
    requires blocks <= perThread * threads && (tasks - 1) * perThread < blocks <= tasks * perThread
    ensures (tasks - 1) * (perThread * BLOCK) < total <= tasks * (perThread * BLOCK)
    ensures (perThread * BLOCK) % BLOCK == 0 && tasks <= threads
  {
    TimesBlock(tasks - 1, perThread);
    TimesBlock(tasks, perThread);
    if tasks > threads { MulMonotone(threads, tasks - 1, perThread); }
  }

  lemma TimesBlock(x: int, y: nat)
    ensures x * (y * BLOCK) == (x * y) * BLOCK && (y * BLOCK) % BLOCK == 0
  {
  }

  lemma MulMonotone(a: nat, b: nat, c: nat)
    requires a <= b
    ensures c * a <= b * c
  {
    assert b * c == a * c + (b - a) * c;
  }
}
