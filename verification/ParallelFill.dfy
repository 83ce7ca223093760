/** The parallel fill: the tasks it hands to the thread pool, and what is in the buffer afterwards. */
module ParallelFill {
  import opened Integers
  import opened Options
  import opened Philox
  import opened RandomFill
  import opened ThreadPool

  /** A task's share: it skips as many words as there are values before it. */
  datatype Part = Part(skip: nat, size: nat)

  function PartAt(total: nat, tasks: nat, batch: nat, i: nat): Part
    requires i < tasks && (tasks - 1) * batch <= total
  {
    Part(i * batch, if i == tasks - 1 then total - (tasks - 1) * batch else batch)
  }

  /** The loop of GenerateRandomsParallel that prepares the tasks. */
  method PrepareTasks(total: nat, tasks: nat, batch: nat) returns (parts: seq<Part>)
    requires tasks > 0 && (tasks - 1) * batch <= total
    ensures |parts| == tasks && forall i :: 0 <= i < tasks ==> parts[i] == PartAt(total, tasks, batch, i)
  {
    parts := [];
    var skip := 0;
    for i := 0 to tasks
      invariant |parts| == i && forall j :: 0 <= j < i ==> parts[j] == PartAt(total, tasks, batch, j)
      invariant i < tasks ==> skip == i * batch
    {
      var size := if i == tasks - 1 then total - (tasks - 1) * batch else batch;
      parts := parts + [Part(skip, size)];
      NextOffset(i, batch);
      skip := skip + size;
    }
  }

  lemma NextOffset(i: nat, batch: nat)
    ensures (i + 1) * batch == i * batch + batch
  {
  }

  /** What the tasks write, for words w. */
  function Jobs<D, T>(dist: Dist<D, T>, w: nat -> Word, total: nat, tasks: nat, batch: nat): (r: seq<Job<T>>)
    requires tasks > 0 && (tasks - 1) * batch <= total
    ensures |r| == tasks
    ensures forall i :: 0 <= i < tasks ==>
              var p := PartAt(total, tasks, batch, i); r[i] == Job(p.skip, Fill(dist, w, p.skip, p.size))
  {
    seq(tasks, i requires 0 <= i < tasks =>
      var p := PartAt(total, tasks, batch, i); Job(p.skip, Fill(dist, w, p.skip, p.size)))
  }

  /** What a task runs: GenerateRandoms for its part writes the values of its job, and nothing else. */
  method RunPart<D, T>(dist: Dist<D, T>, seed: nat, buf: array<T>, tasks: nat, batch: nat, i: nat)
    requires seed < TWO64 && buf.Length < TWO64
    requires i < tasks && (tasks - 1) * batch <= buf.Length
    modifies buf
    ensures var job := Jobs(dist, Stream(Seeded(seed)), buf.Length, tasks, batch)[i];
      && Wrote(buf[..], job, |job.values|)
      && forall j :: 0 <= j < buf.Length && !(job.offset <= j < job.End()) ==> buf[j] == old(buf[j])
  {
    var part := PartAt(buf.Length, tasks, batch, i);
    PartFits(buf.Length, tasks, batch, i);
    GenerateRandoms(seed, part.skip, buf, part.skip, part.size, dist);
  }

  lemma PartFits(total: nat, tasks: nat, batch: nat, i: nat)
    requires i < tasks && (tasks - 1) * batch <= total
    ensures var part := PartAt(total, tasks, batch, i); part.skip + part.size <= total
  {
    if i < tasks - 1 { OffsetsGrow(i, tasks - 1, batch); }
  }

  lemma OffsetsGrow(i: nat, j: nat, batch: nat)
    requires i < j
    ensures i * batch + batch <= j * batch
  {
    assert j * batch == i * batch + (j - i) * batch;
    assert (j - i - 1) * batch >= 0;
  }

  lemma JobsDoNotOverlap<D, T>(dist: Dist<D, T>, w: nat -> Word, total: nat, tasks: nat, batch: nat)
    requires tasks > 0 && (tasks - 1) * batch <= total
    ensures JobsFit(Jobs(dist, w, total, tasks, batch), total)
  {
    var jobs := Jobs(dist, w, total, tasks, batch);
    forall t | 0 <= t < tasks ensures jobs[t].End() <= total { PartFits(total, tasks, batch, t); }
    forall t, u | 0 <= t < u < tasks ensures Disjoint(jobs[t], jobs[u]) { OffsetsGrow(t, u, batch); }
  }

  /** The task that writes position x. */
  lemma WriterOf(total: nat, tasks: nat, batch: nat, x: nat) returns (i: nat)
    requires tasks > 0 && (tasks - 1) * batch < total <= tasks * batch && x < total
    ensures i < tasks
    ensures var p := PartAt(total, tasks, batch, i); p.skip <= x < p.skip + p.size
  {
    i := tasks - 1;
    while x < i * batch
      invariant i < tasks && (i < tasks - 1 ==> x < i * batch + batch)
    {
      NextOffset(i - 1, batch);
      i := i - 1;
    }
  }

  lemma OffsetIsFourfold(i: nat, batch: nat)
    requires batch % 4 == 0
    ensures i * batch == 4 * (i * (batch / 4))
  {
    assert batch == 4 * (batch / 4);
  }

  /** The buffer after GenerateRandomsParallel, if it returns: one part is run by the caller, several by the pool. */
  function Result<D, T>(dist: Dist<D, T>, w: nat -> Word, total: nat, threads: nat, s: ThreadPool.State<T>, used: nat, turns: seq<Turn>)
    : Option<seq<T>>
    requires used <= |s.slots|
  {
    var (tasks, batch) := ComputeTaskNumSize(total, threads);
    var jobs := Jobs(dist, w, total, tasks, batch);
    if tasks == 1 then Some(jobs[0].values)
    else
      var r := Steps(s, jobs, used, turns);
      if r.place.Returned? then Some(r.buf) else None
  }

  /**
    For every distribution that is back at its start after four values, every size and number
    of threads and every interleaving: when the parallel fill has returned, the buffer holds
    what one thread alone would have written.
    */
  lemma ParallelIsSequential<D(!new), T(!new)>(
    dist: Dist<D, T>, seed: nat, total: nat, threads: nat, s: ThreadPool.State<T>, used: nat, turns: seq<Turn>)
    requires FourCycle(dist) && seed < TWO64 && |s.buf| == total && used <= |s.slots|
    requires ComputeTaskNumSize(total, threads).0 > 1 ==> Start(s, ComputeTaskNumSize(total, threads).0, used)
    ensures var w := Stream(Seeded(seed));
            var r := Result(dist, w, total, threads, s, used, turns);
            r.Some? ==> r.value == Fill(dist, w, 0, total)
  {
    var (tasks, batch) := ComputeTaskNumSize(total, threads);
    if tasks > 1 { AnyWordsParallel(dist, Stream(Seeded(seed)), total, tasks, batch, s, used, turns); }
  }

  lemma AnyWordsParallel<D(!new), T(!new)>(
    dist: Dist<D, T>, w: nat -> Word, total: nat, tasks: nat, batch: nat, s: ThreadPool.State<T>, used: nat, turns: seq<Turn>)
    requires FourCycle(dist) && |s.buf| == total
    requires tasks > 0 && (tasks - 1) * batch < total <= tasks * batch && batch % 4 == 0
    requires Start(s, tasks, used)
    ensures var r := Steps(s, Jobs(dist, w, total, tasks, batch), used, turns);
            r.place.Returned? ==> r.buf == Fill(dist, w, 0, total)
  {
    var jobs := Jobs(dist, w, total, tasks, batch);
    var r := Steps(s, jobs, used, turns);
    JobsDoNotOverlap(dist, w, total, tasks, batch);
    ReturnedMeansDone(s, jobs, used, turns);
    StartInv(s, jobs, used);
    StepsKeepInv(s, jobs, used, turns);
    if r.place.Returned? {
      forall x | 0 <= x < total ensures r.buf[x] == Out(dist, w, 0, x) {
        WrittenAt(dist, w, total, tasks, batch, r.buf, x);
      }
      assert r.buf == Fill(dist, w, 0, total);
    }
  }

  lemma WrittenAt<D(!new), T(!new)>(dist: Dist<D, T>, w: nat -> Word, total: nat, tasks: nat, batch: nat, buf: seq<T>, x: nat)
    requires FourCycle(dist) && |buf| == total && x < total
    requires tasks > 0 && (tasks - 1) * batch < total <= tasks * batch && batch % 4 == 0
    requires var jobs := Jobs(dist, w, total, tasks, batch);
             forall t :: 0 <= t < tasks ==> Wrote(buf, jobs[t], |jobs[t].values|)
    ensures buf[x] == Out(dist, w, 0, x)
  {
    var i := WriterOf(total, tasks, batch, x);
    var p := PartAt(total, tasks, batch, i);
    var jobs := Jobs(dist, w, total, tasks, batch);
    assert Wrote(buf, jobs[i], |jobs[i].values|);
    OffsetIsFourfold(i, batch);
    FillContinues(dist, w, 0, i * (batch / 4), x - p.skip);
  }
}
