/**
  SyncRun and its workers as interleaved steps.  A task writes its values into a shared
  buffer, one element a step.  The dispatcher looks at one worker slot after the other;
  a worker that has found no task for long enough sleeps on its condition variable.
  */
module ThreadPool {
  import opened Options

  /** A task: it writes these values from the offset on. */
  datatype Job<T> = Job(offset: nat, values: seq<T>) {
    function End(): nat {
      offset + |values|
    }
  }

  /** kYieldThreshold */
  const YIELD_THRESHOLD := 1000

  /** Where a worker is in its loop. */
  datatype Phase =
    | Looking(tries: nat)  // about to read the slot's task
    | Locking               // about to lock the slot's mutex before it waits
    | Deciding              // has the mutex and evaluates the wait predicate
    | Asleep                // waits on the condition variable, without the mutex
    | Woken                 // must get the mutex back
    | Starting              // has seen a task
    | Running(done: nat)
    | Ran                   // about to clear the slot

  datatype Owner = Nobody | TheWorker | TheDispatcher

  datatype Slot = Slot(task: Option<nat>, owner: Owner, worker: Phase)

  /** Where the dispatcher is, and at which slot. */
  datatype Place =
    | Reading(i: nat)
    | Wanting(i: nat)    // about to lock the slot's mutex
    | Setting(i: nat)
    | Notifying(i: nat)
    | Releasing(i: nat)
    | Returned

  /** runs counts, for each task, how often it has been run to its end. */
  datatype State<T> = State(slots: seq<Slot>, place: Place, index: nat, running: bool, runs: seq<nat>, buf: seq<T>)

  /** Whose step it is; a sleeping worker may wake up spuriously. */
  datatype Turn = Dispatcher | Worker(i: nat)

  // -------------------------------------------------------------------- steps

  function PutSlot<T>(s: State<T>, i: nat, slot: Slot): State<T>
    requires i < |s.slots|
  {
    s.(slots := s.slots[i := slot])
  }

  function DispatcherStep<T>(s: State<T>, jobs: seq<Job<T>>, used: nat): State<T>
    requires used <= |s.slots|
  {
    match s.place
    case Reading(i) =>
      if i >= used then (if s.running then s.(place := Reading(0), running := false) else s.(place := Returned))
      else if s.slots[i].task.Some? then s.(place := Reading(i + 1), running := true)
      else if s.index < |jobs| then s.(place := Wanting(i))
      else s.(place := Reading(i + 1))
    case Wanting(i) =>
      if i < used && s.slots[i].owner == Nobody then
        PutSlot(s, i, s.slots[i].(owner := TheDispatcher)).(place := Setting(i))
      else s
    case Setting(i) =>
      if i < used then PutSlot(s, i, s.slots[i].(task := Some(s.index))).(place := Notifying(i)) else s
    case Notifying(i) =>
      if i < used then
        var slot := s.slots[i];
        PutSlot(s, i, if slot.worker == Asleep then slot.(worker := Woken) else slot).(place := Releasing(i))
      else s
    case Releasing(i) =>
      if i < used then
        PutSlot(s, i, s.slots[i].(owner := Nobody)).(place := Reading(i + 1), running := true, index := s.index + 1)
      else s
    case Returned => s
  }

  function WorkerStep<T>(s: State<T>, jobs: seq<Job<T>>, i: nat): State<T>
    requires i < |s.slots|
  {
    var slot := s.slots[i];
    match slot.worker
    case Looking(tries) =>
      if slot.task.Some? then PutSlot(s, i, slot.(worker := Starting))
      else if tries + 1 > YIELD_THRESHOLD then PutSlot(s, i, slot.(worker := Locking))
      else PutSlot(s, i, slot.(worker := Looking(tries + 1)))
    case Locking =>
      if slot.owner == Nobody then PutSlot(s, i, slot.(owner := TheWorker, worker := Deciding)) else s
    case Deciding =>
      PutSlot(s, i, slot.(owner := Nobody, worker := if slot.task.Some? then Starting else Asleep))
    case Asleep => PutSlot(s, i, slot.(worker := Woken))
    case Woken =>
      if slot.owner == Nobody then PutSlot(s, i, slot.(owner := TheWorker, worker := Deciding)) else s
    case Starting => PutSlot(s, i, slot.(worker := Running(0)))
    case Running(done) =>
      if slot.task.None? || slot.task.value >= |jobs| || slot.task.value >= |s.runs| then s
      else
        var t := slot.task.value;
        var job := jobs[t];
        if done < |job.values| then
          if job.offset + done < |s.buf| then
            PutSlot(s, i, slot.(worker := Running(done + 1))).(buf := s.buf[job.offset + done := job.values[done]])
          else s
        else PutSlot(s, i, slot.(worker := Ran)).(runs := s.runs[t := s.runs[t] + 1])
    case Ran => PutSlot(s, i, slot.(task := None, worker := Looking(0)))
  }

  function Step<T>(s: State<T>, jobs: seq<Job<T>>, used: nat, turn: Turn): (r: State<T>)
    requires used <= |s.slots|
    ensures |r.slots| == |s.slots|
  {
    match turn
    case Dispatcher => DispatcherStep(s, jobs, used)
    case Worker(i) => if i < |s.slots| then WorkerStep(s, jobs, i) else s
  }

  function Steps<T>(s: State<T>, jobs: seq<Job<T>>, used: nat, turns: seq<Turn>): (r: State<T>)
    requires used <= |s.slots|
    ensures |r.slots| == |s.slots|
  {
    if turns == [] then s else Step(Steps(s, jobs, used, turns[..|turns| - 1]), jobs, used, turns[|turns| - 1])
  }

  // ---------------------------------------------------------------- invariant

  /** The tasks that have been put into a slot are those below. */
  function Issued<T>(s: State<T>): nat {
    if s.place.Notifying? || s.place.Releasing? then s.index + 1 else s.index
  }

  ghost predicate Wrote<T>(buf: seq<T>, job: Job<T>, n: nat) {
    n <= |job.values| && job.End() <= |buf| && forall k :: 0 <= k < n ==> buf[job.offset + k] == job.values[k]
  }

  predicate Disjoint<T>(a: Job<T>, b: Job<T>) {
    a.End() <= b.offset || b.End() <= a.offset
  }

  /** What is true of one slot, given the dispatcher's place. */
  ghost predicate SlotOk<T>(slot: Slot, i: nat, place: Place, issued: nat, jobs: seq<Job<T>>, runs: seq<nat>, buf: seq<T>)
    requires issued <= |jobs| == |runs|
  {
    && (slot.task.Some? ==> slot.task.value < issued && runs[slot.task.value] == if slot.worker.Ran? then 1 else 0)
    && (slot.worker.Starting? || slot.worker.Running? || slot.worker.Ran? ==> slot.task.Some?)
    && (slot.worker.Running? ==> Wrote(buf, jobs[slot.task.value], slot.worker.done))
    && (slot.worker.Deciding? <==> slot.owner == TheWorker)
    && (slot.owner == TheDispatcher <==> place == Setting(i) || place == Notifying(i) || place == Releasing(i))
    // A sleeping worker that has a task is just being notified.
    && (slot.worker.Asleep? && slot.task.Some? ==> place == Notifying(i))
  }

  ghost predicate PlaceOk(slots: seq<Slot>, place: Place, index: nat, running: bool, n: nat, used: nat) {
    && used <= |slots| && index <= n
    && (place.Reading? ==> place.i <= used && (!running ==> Idle(slots, place.i) && (place.i > 0 ==> index == n)))
    && (place.Wanting? || place.Setting? || place.Notifying? || place.Releasing? ==> place.i < used && index < n)
    && (place.Wanting? || place.Setting? ==> slots[place.i].task.None?)
    && (place.Returned? ==> Idle(slots, used) && index == n)
  }

  predicate Idle(slots: seq<Slot>, n: nat)
    requires n <= |slots|
  {
    forall j :: 0 <= j < n ==> slots[j].task.None?
  }

  /** A task has been run exactly once, or is in a slot, or has not been issued. */
  ghost predicate TaskOk(slots: seq<Slot>, issued: nat, runs: seq<nat>, t: nat)
    requires t < |runs|
  {
    && runs[t] <= 1
    && (t >= issued ==> runs[t] == 0)
    && (t < issued && runs[t] == 0 ==> exists i :: 0 <= i < |slots| && slots[i].task == Some(t))
  }

  ghost predicate Inv<T>(s: State<T>, jobs: seq<Job<T>>, used: nat) {
    && |s.runs| == |jobs| && used > 0
    && PlaceOk(s.slots, s.place, s.index, s.running, |jobs|, used)
    && (forall i :: 0 <= i < |s.slots| ==> SlotOk(s.slots[i], i, s.place, Issued(s), jobs, s.runs, s.buf))
    && (forall i :: used <= i < |s.slots| ==> s.slots[i].task.None?)
    && (forall i, j :: 0 <= i < j < |s.slots| && s.slots[i].task.Some? ==> s.slots[i].task != s.slots[j].task)
    && (forall t :: 0 <= t < |jobs| ==> TaskOk(s.slots, Issued(s), s.runs, t))
    && (forall t :: 0 <= t < |jobs| && s.runs[t] == 1 ==> Wrote(s.buf, jobs[t], |jobs[t].values|))
  }

  ghost predicate JobsFit<T>(jobs: seq<Job<T>>, size: nat) {
    && (forall t :: 0 <= t < |jobs| ==> jobs[t].End() <= size)
    && (forall t, u :: 0 <= t < u < |jobs| ==> Disjoint(jobs[t], jobs[u]))
  }

  // ------------------------------------------------------------ every step

  /** A task in a slot stays there while other slots, or this slot's worker and owner, change. */
  lemma HeldStays(slots: seq<Slot>, i: nat, slot: Slot, issued: nat, runs: seq<nat>, t: nat)
    requires i < |slots| && slot.task == slots[i].task && t < |runs| && TaskOk(slots, issued, runs, t)
    ensures TaskOk(slots[i := slot], issued, runs, t)
  {
    if t < issued && runs[t] == 0 {
      var j :| 0 <= j < |slots| && slots[j].task == Some(t);
      assert slots[i := slot][j].task == Some(t);
    }
  }

  /** The worker goes on without touching task or buffer. */
  lemma MoveKeepsInv<T>(s: State<T>, jobs: seq<Job<T>>, used: nat, i: nat, slot: Slot)
    requires Inv(s, jobs, used) && i < |s.slots| && slot.task == s.slots[i].task
    requires SlotOk(slot, i, s.place, Issued(s), jobs, s.runs, s.buf)
    ensures Inv(PutSlot(s, i, slot), jobs, used)
  {
    forall t | 0 <= t < |jobs| ensures TaskOk(PutSlot(s, i, slot).slots, Issued(s), s.runs, t) {
      assert TaskOk(s.slots, Issued(s), s.runs, t);
      HeldStays(s.slots, i, slot, Issued(s), s.runs, t);
    }
  }

  /** One element of one task is written: what other tasks have written stays. */
  lemma WriteSpares<T>(buf: seq<T>, jobs: seq<Job<T>>, t: nat, k: nat, u: nat, n: nat)
    requires JobsFit(jobs, |buf|) && t < |jobs| && u < |jobs| && k < |jobs[t].values| && Wrote(buf, jobs[u], n)
    ensures Wrote(buf[jobs[t].offset + k := jobs[t].values[k]], jobs[u], n)
  {
    if t < u { assert Disjoint(jobs[t], jobs[u]); }
    if u < t { assert Disjoint(jobs[u], jobs[t]); }
  }

  lemma WriteKeepsInv<T>(s: State<T>, jobs: seq<Job<T>>, used: nat, i: nat)
    requires Inv(s, jobs, used) && JobsFit(jobs, |s.buf|) && i < |s.slots|
    requires s.slots[i].worker.Running? && s.slots[i].worker.done < |jobs[s.slots[i].task.value].values|
    ensures Inv(WorkerStep(s, jobs, i), jobs, used)
  {
    var t, k := s.slots[i].task.value, s.slots[i].worker.done;
    var r := WorkerStep(s, jobs, i);
    var mid := s.(buf := r.buf);
    forall j | 0 <= j < |s.slots| ensures SlotOk(s.slots[j], j, s.place, Issued(s), jobs, s.runs, r.buf) {
      if s.slots[j].worker.Running? { WriteSpares(s.buf, jobs, t, k, s.slots[j].task.value, s.slots[j].worker.done); }
    }
    forall u | 0 <= u < |jobs| && s.runs[u] == 1 ensures Wrote(r.buf, jobs[u], |jobs[u].values|) {
      WriteSpares(s.buf, jobs, t, k, u, |jobs[u].values|);
    }
    WriteSpares(s.buf, jobs, t, k, t, k);
    MoveKeepsInv(mid, jobs, used, i, r.slots[i]);
  }

  /** The task has written all its values and has been run. */
  lemma EndKeepsInv<T>(s: State<T>, jobs: seq<Job<T>>, used: nat, i: nat)
    requires Inv(s, jobs, used) && i < |s.slots|
    requires s.slots[i].worker.Running? && s.slots[i].worker.done >= |jobs[s.slots[i].task.value].values|
    ensures Inv(WorkerStep(s, jobs, i), jobs, used)
  {
    var t, r := s.slots[i].task.value, WorkerStep(s, jobs, i);
    forall u | 0 <= u < |jobs| ensures TaskOk(r.slots, Issued(r), r.runs, u) {
      assert TaskOk(s.slots, Issued(s), s.runs, u);
      if u != t { HeldStays(s.slots, i, r.slots[i], Issued(s), s.runs, u); }
    }
    forall j | 0 <= j < |s.slots| && j != i && s.slots[j].task.Some? ensures s.slots[j].task.value != t {}
  }

  lemma ClearKeepsInv<T>(s: State<T>, jobs: seq<Job<T>>, used: nat, i: nat)
    requires Inv(s, jobs, used) && i < |s.slots| && s.slots[i].worker.Ran?
    ensures Inv(WorkerStep(s, jobs, i), jobs, used)
  {
    var t, r := s.slots[i].task.value, WorkerStep(s, jobs, i);
    forall u | 0 <= u < |jobs| ensures TaskOk(r.slots, Issued(r), r.runs, u) {
      assert TaskOk(s.slots, Issued(s), s.runs, u);
      if u < Issued(s) && s.runs[u] == 0 {
        var j :| 0 <= j < |s.slots| && s.slots[j].task == Some(u);
        assert r.slots[j].task == Some(u);
      }
    }
  }

  lemma WorkerKeepsInv<T>(s: State<T>, jobs: seq<Job<T>>, used: nat, i: nat)
    requires Inv(s, jobs, used) && JobsFit(jobs, |s.buf|) && i < |s.slots|
    ensures Inv(WorkerStep(s, jobs, i), jobs, used)
  {
    assert SlotOk(s.slots[i], i, s.place, Issued(s), jobs, s.runs, s.buf);
    match s.slots[i].worker
    case Running(done) =>
      if done < |jobs[s.slots[i].task.value].values| { WriteKeepsInv(s, jobs, used, i); } else { EndKeepsInv(s, jobs, used, i); }
    case Ran => ClearKeepsInv(s, jobs, used, i);
    case _ => MoveKeepsInv(s, jobs, used, i, WorkerStep(s, jobs, i).slots[i]);
  }

  /** The dispatcher puts the next task into an empty slot. */
  lemma SetKeepsInv<T>(s: State<T>, jobs: seq<Job<T>>, used: nat)
    requires Inv(s, jobs, used) && s.place.Setting?
    ensures Inv(DispatcherStep(s, jobs, used), jobs, used)
  {
    var i, r := s.place.i, DispatcherStep(s, jobs, used);
    assert TaskOk(s.slots, Issued(s), s.runs, s.index);
    forall u | 0 <= u < |jobs| ensures TaskOk(r.slots, Issued(r), r.runs, u) {
      assert TaskOk(s.slots, Issued(s), s.runs, u);
      if u == s.index {
        assert r.slots[i].task == Some(u);
      } else if u < s.index && s.runs[u] == 0 {
        var j :| 0 <= j < |s.slots| && s.slots[j].task == Some(u);
        assert r.slots[j].task == Some(u);
      }
    }
  }

  /** The dispatcher locks, notifies or unlocks: no task moves. */
  lemma LockStepKeepsInv<T>(s: State<T>, jobs: seq<Job<T>>, used: nat)
    requires Inv(s, jobs, used) && (s.place.Wanting? || s.place.Notifying? || s.place.Releasing?)
    ensures Inv(DispatcherStep(s, jobs, used), jobs, used)
  {
    var i, r := s.place.i, DispatcherStep(s, jobs, used);
    forall u | 0 <= u < |jobs| ensures TaskOk(r.slots, Issued(r), r.runs, u) {
      assert TaskOk(s.slots, Issued(s), s.runs, u);
      HeldStays(s.slots, i, r.slots[i], Issued(s), s.runs, u);
    }
  }

  lemma DispatcherKeepsInv<T>(s: State<T>, jobs: seq<Job<T>>, used: nat)
    requires Inv(s, jobs, used)
    ensures Inv(DispatcherStep(s, jobs, used), jobs, used)
  {
    if s.place.Setting? {
      SetKeepsInv(s, jobs, used);
    } else if s.place.Wanting? || s.place.Notifying? || s.place.Releasing? {
      LockStepKeepsInv(s, jobs, used);
    } else {
      var r := DispatcherStep(s, jobs, used);
      forall u | 0 <= u < |jobs| ensures TaskOk(r.slots, Issued(r), r.runs, u) {
        assert TaskOk(s.slots, Issued(s), s.runs, u);
      }
    }
  }

  lemma {:induction false} StepsKeepInv<T>(s: State<T>, jobs: seq<Job<T>>, used: nat, turns: seq<Turn>)
    requires Inv(s, jobs, used) && JobsFit(jobs, |s.buf|)
    ensures Inv(Steps(s, jobs, used, turns), jobs, used) && |Steps(s, jobs, used, turns).buf| == |s.buf|
  {
    if turns != [] {
      var mid, turn := Steps(s, jobs, used, turns[..|turns| - 1]), turns[|turns| - 1];
      StepsKeepInv(s, jobs, used, turns[..|turns| - 1]);
      if turn == Dispatcher {
        DispatcherKeepsInv(mid, jobs, used);
      } else if turn.i < |mid.slots| {
        WorkerKeepsInv(mid, jobs, used, turn.i);
      }
    }
  }

  // ---------------------------------------------------------------- theorems

  /** The state in which SyncRun starts to dispatch: every slot is empty, its worker anywhere in its loop. */
  ghost predicate Start<T>(s: State<T>, n: nat, used: nat) {
    && s.place == Reading(0) && s.index == 0 && s.running == false
    && 0 < used <= |s.slots| && |s.runs| == n && (forall t :: 0 <= t < n ==> s.runs[t] == 0)
    && forall i :: 0 <= i < |s.slots| ==> s.slots[i].task == None && s.slots[i].owner != TheDispatcher &&
                                          (s.slots[i].owner == TheWorker <==> s.slots[i].worker.Deciding?) &&
                                          !(s.slots[i].worker.Starting? || s.slots[i].worker.Running? || s.slots[i].worker.Ran?)
  }

  lemma StartInv<T>(s: State<T>, jobs: seq<Job<T>>, used: nat)
    requires Start(s, |jobs|, used)
    ensures Inv(s, jobs, used)
  {
  }

  /**
    In every interleaving: when SyncRun has returned, every task has been run exactly once,
    and the buffer holds what the tasks write.
    */
  lemma {:induction false} ReturnedMeansDone<T>(s: State<T>, jobs: seq<Job<T>>, used: nat, turns: seq<Turn>)
    requires Start(s, |jobs|, used) && JobsFit(jobs, |s.buf|)
    ensures var r := Steps(s, jobs, used, turns);
            r.place.Returned? ==>
              forall t :: 0 <= t < |jobs| ==> |r.runs| == |jobs| && r.runs[t] == 1 && Wrote(r.buf, jobs[t], |jobs[t].values|)
  {
    StartInv(s, jobs, used);
    StepsKeepInv(s, jobs, used, turns);
    var r := Steps(s, jobs, used, turns);
    if r.place.Returned? {
      forall t | 0 <= t < |jobs| ensures r.runs[t] == 1 {
        assert TaskOk(r.slots, Issued(r), r.runs, t);
      }
    }
  }

  /** In every interleaving no task is held by two workers and none is run twice. */
  lemma {:induction false} NoTaskIsShared<T>(s: State<T>, jobs: seq<Job<T>>, used: nat, turns: seq<Turn>, i: nat, j: nat)
    requires Start(s, |jobs|, used) && JobsFit(jobs, |s.buf|) && i < j < |s.slots|
    ensures var r := Steps(s, jobs, used, turns);
            && (r.slots[i].task.Some? ==> r.slots[i].task != r.slots[j].task)
            && forall t :: 0 <= t < |r.runs| ==> r.runs[t] <= 1
  {
    StartInv(s, jobs, used);
    StepsKeepInv(s, jobs, used, turns);
    var r := Steps(s, jobs, used, turns);
    forall t | 0 <= t < |r.runs| ensures r.runs[t] <= 1 {
      assert TaskOk(r.slots, Issued(r), r.runs, t);
    }
  }

  /** No wake-up is lost: a sleeping worker with a task is about to be notified by the dispatcher, which holds its mutex. */
  lemma {:induction false} SleeperIsNotified<T>(s: State<T>, jobs: seq<Job<T>>, used: nat, turns: seq<Turn>, i: nat)
    requires Start(s, |jobs|, used) && JobsFit(jobs, |s.buf|) && i < |s.slots|
    ensures var r := Steps(s, jobs, used, turns);
            r.slots[i].worker.Asleep? && r.slots[i].task.Some? ==>
              && r.place == Notifying(i)
              && Step(r, jobs, used, Dispatcher).slots[i].worker.Woken?
  {
    StartInv(s, jobs, used);
    StepsKeepInv(s, jobs, used, turns);
    var r := Steps(s, jobs, used, turns);
    assert SlotOk(r.slots[i], i, r.place, Issued(r), jobs, r.runs, r.buf);
  }

  /** Until it returns, the dispatcher can take a step, or the worker that holds the mutex it wants can. */
  lemma {:induction false} DispatcherIsNotStuck<T>(s: State<T>, jobs: seq<Job<T>>, used: nat, turns: seq<Turn>)
    requires Start(s, |jobs|, used) && JobsFit(jobs, |s.buf|)
    ensures var r := Steps(s, jobs, used, turns);
            r.place.Returned? || Step(r, jobs, used, Dispatcher) != r ||
            (r.place.Wanting? && r.place.i < |r.slots| &&
             Step(r, jobs, used, Worker(r.place.i)).slots[r.place.i].owner == Nobody)
  {
    StartInv(s, jobs, used);
    StepsKeepInv(s, jobs, used, turns);
    var r := Steps(s, jobs, used, turns);
    if r.place.Wanting? {
      assert SlotOk(r.slots[r.place.i], r.place.i, r.place, Issued(r), jobs, r.runs, r.buf);
    }
  }

  /** How many contexts SyncRun has when it starts to dispatch at least two tasks. */
  function Contexts(existing: nat, maxThreads: nat, tasks: nat): nat {
    if existing < maxThreads && existing < tasks then (if tasks < maxThreads then tasks else maxThreads) else existing
  }

  /** Without any thread SyncRun returns at once and runs nothing. */
  lemma SomeContext(existing: nat, maxThreads: nat, tasks: nat)
    requires tasks >= 2
    ensures Contexts(existing, maxThreads, tasks) > 0 <==> existing > 0 || maxThreads > 0
    ensures Contexts(existing, maxThreads, tasks) >= existing
  {
  }
}
