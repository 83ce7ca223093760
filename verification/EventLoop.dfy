/**
  The task queue of an event loop and the event descriptor that wakes the loop, as
  interleaved steps of any number of adding threads and the loop's own thread.
  */
module EventLoop {

  type Task = int

  /** Where a thread is in AddTask: outside, or behind the lock with the size it has seen. */
  datatype Adder = Outside | Added(size: nat)

  /** Where the loop is: in epoll_wait, called back, between read and swap, or running the tasks it took. */
  datatype Loop = Polling | Ready | Swapping | Running(batch: seq<Task>)

  /** eventFd is the counter of the event descriptor; added lists all tasks ever added. */
  datatype State = State(adders: seq<Adder>, eventFd: nat, queue: seq<Task>, loop: Loop, done: seq<Task>, added: seq<Task>)

  datatype Turn = AdderTurn(thread: nat, task: Task) | LoopTurn

  function Init(threads: nat): State {
    State(seq(threads, _ => Outside), 0, [], Polling, [], [])
  }

  /** AddTask: the locked part is one step; who has added to an empty queue signals. */
  function AdderStep(s: State, t: nat, task: Task): State
    requires t < |s.adders|
  {
    match s.adders[t]
    case Outside =>
      s.(queue := s.queue + [task], added := s.added + [task], adders := s.adders[t := Added(|s.queue| + 1)])
    case Added(size) =>
      s.(eventFd := if size == 1 then s.eventFd + 1 else s.eventFd, adders := s.adders[t := Outside])
  }

  /** epoll_wait and QueueReadyCallback; the read takes the whole count and fails if it is 0. */
  function LoopStep(s: State): State {
    match s.loop
    case Polling => if s.eventFd > 0 then s.(loop := Ready) else s
    case Ready => if s.eventFd > 0 then s.(loop := Swapping, eventFd := 0) else s.(loop := Polling)
    case Swapping => s.(loop := Running(s.queue), queue := [])
    case Running(batch) =>
      if batch == [] then s.(loop := Polling) else s.(loop := Running(batch[1..]), done := s.done + [batch[0]])
  }

  function Step(s: State, turn: Turn): (r: State)
    ensures |r.adders| == |s.adders|
  {
    match turn
    case AdderTurn(t, task) => if t < |s.adders| then AdderStep(s, t, task) else s
    case LoopTurn => LoopStep(s)
  }

  function Run(s: State, turns: seq<Turn>): State {
    if turns == [] then s else Step(Run(s, turns[..|turns| - 1]), turns[|turns| - 1])
  }

  // ---------------------------------------------------------------- invariant

  /** The number of threads that are about to signal. */
  function Signals(adders: seq<Adder>): nat {
    if adders == [] then 0 else Signals(adders[..|adders| - 1]) + if adders[|adders| - 1] == Added(1) then 1 else 0
  }

  function One(b: bool): nat {
    if b then 1 else 0
  }

  lemma {:induction false} SignalsChange(adders: seq<Adder>, t: nat, a: Adder)
    requires t < |adders|
    ensures Signals(adders[t := a]) + One(adders[t] == Added(1)) == Signals(adders) + One(a == Added(1))
  {
    var n := |adders| - 1;
    if t == n {
      assert adders[t := a][..n] == adders[..n];
    } else {
      assert adders[t := a][..n] == adders[..n][t := a];
      SignalsChange(adders[..n], t, a);
    }
  }

  lemma {:induction false} SomeSignals(adders: seq<Adder>)
    ensures Signals(adders) > 0 <==> exists t :: 0 <= t < |adders| && adders[t] == Added(1)
  {
    if adders != [] {
      var n := |adders| - 1;
      SomeSignals(adders[..n]);
      if t :| 0 <= t < n && adders[t] == Added(1) { assert adders[..n][t] == Added(1); }
    }
  }

  function Batch(loop: Loop): seq<Task> {
    if loop.Running? then loop.batch else []
  }

  /** A nonempty queue has exactly one wake-up on its way, an empty one has none; no task is lost or doubled. */
  ghost predicate Inv(s: State) {
    && Signals(s.adders) + s.eventFd + One(s.loop == Swapping) == One(s.queue != [])
    && (s.loop == Ready ==> s.eventFd > 0)
    && (forall t :: 0 <= t < |s.adders| && s.adders[t].Added? ==> s.adders[t].size > 0)
    && s.added == s.done + Batch(s.loop) + s.queue
  }

  lemma {:induction false} InitInv(threads: nat)
    ensures Inv(Init(threads))
  {
    SomeSignals(Init(threads).adders);
  }

  lemma AdderKeepsInv(s: State, t: nat, task: Task)
    requires Inv(s) && t < |s.adders|
    ensures Inv(AdderStep(s, t, task))
  {
    var s' := AdderStep(s, t, task);
    SignalsChange(s.adders, t, s'.adders[t]);
    assert s.done + Batch(s.loop) + s.queue + [task] == s.done + Batch(s.loop) + (s.queue + [task]);
  }

  lemma LoopKeepsInv(s: State)
    requires Inv(s)
    ensures Inv(LoopStep(s))
  {
    if s.loop.Running? && s.loop.batch != [] {
      assert s.loop.batch == [s.loop.batch[0]] + s.loop.batch[1..];
      assert s.done + s.loop.batch == s.done + [s.loop.batch[0]] + s.loop.batch[1..];
    } else if s.loop.Swapping? {
      assert s.done + [] + s.queue == s.done + s.queue + [];
    }
  }

  lemma {:induction false} RunKeepsInv(s: State, turns: seq<Turn>)
    requires Inv(s)
    ensures Inv(Run(s, turns))
  {
    if turns != [] {
      RunKeepsInv(s, turns[..|turns| - 1]);
      var now, turn := Run(s, turns[..|turns| - 1]), turns[|turns| - 1];
      match turn
      case AdderTurn(t, task) => if t < |now.adders| { AdderKeepsInv(now, t, task); }
      case LoopTurn => LoopKeepsInv(now);
    }
  }

  // ------------------------------------------------------------------ results

  /** In every run: a queue that is not empty is noticed, and at most one wake-up is on its way. */
  lemma {:induction false} NoWakeupIsLost(threads: nat, turns: seq<Turn>)
    ensures var s := Run(Init(threads), turns);
      s.eventFd <= 1 &&
      (s.queue != [] <==> s.eventFd > 0 || s.loop == Swapping || exists t :: 0 <= t < |s.adders| && s.adders[t] == Added(1))
  {
    InitInv(threads);
    RunKeepsInv(Init(threads), turns);
    SomeSignals(Run(Init(threads), turns).adders);
  }

  /** In every run: tasks are run in the order in which they were added, each at most once. */
  lemma {:induction false} TasksRunInOrder(threads: nat, turns: seq<Turn>)
    ensures var s := Run(Init(threads), turns); s.done <= s.added
  {
    InitInv(threads);
    RunKeepsInv(Init(threads), turns);
    var s := Run(Init(threads), turns);
    assert s.added == s.done + (Batch(s.loop) + s.queue);
  }

  /** If the loop blocks in epoll_wait and no thread is inside AddTask, all added tasks have been run. */
  lemma {:induction false} SleepingMeansDone(threads: nat, turns: seq<Turn>)
    ensures var s := Run(Init(threads), turns);
      s.loop == Polling && LoopStep(s) == s && (forall t :: 0 <= t < |s.adders| ==> s.adders[t].Outside?) ==> s.done == s.added
  {
    NoWakeupIsLost(threads, turns);
    InitInv(threads);
    RunKeepsInv(Init(threads), turns);
  }

  // ----------------------------------------------------------------- progress

  /** How often it is the loop's turn. */
  function LoopTurns(turns: seq<Turn>): nat {
    if turns == [] then 0 else LoopTurns(turns[..|turns| - 1]) + if turns[|turns| - 1].LoopTurn? then 1 else 0
  }

  /** Adding threads change neither the loop nor what has been run. */
  lemma AdderLeavesLoop(s: State, turn: Turn)
    requires turn.AdderTurn?
    ensures var r := Step(s, turn);
      r.loop == s.loop && r.done == s.done && r.eventFd >= s.eventFd && s.queue <= r.queue
  {
  }

  lemma {:induction false} BatchGoesOn(s: State, turns: seq<Turn>, batch: seq<Task>)
    requires s.loop == Running(batch) && LoopTurns(turns) <= |batch| + 1
    ensures var r, n := Run(s, turns), LoopTurns(turns);
      if n <= |batch| then r.loop == Running(batch[n..]) && r.done == s.done + batch[..n]
      else r.loop == Polling && r.done == s.done + batch
  {
    if turns != [] {
      var front, turn := turns[..|turns| - 1], turns[|turns| - 1];
      BatchGoesOn(s, front, batch);
      var n := LoopTurns(front);
      if turn.AdderTurn? {
        AdderLeavesLoop(Run(s, front), turn);
      } else if n < |batch| {
        assert batch[..n + 1] == batch[..n] + [batch[n]];
        assert batch[n..][1..] == batch[n + 1..];
      } else {
        assert batch[..n] == batch;
      }
    } else {
      assert batch[0..] == batch;
    }
  }

  /** Whatever is added in between, |batch| + 1 turns of the loop run the batch and lead back to epoll_wait. */
  lemma {:induction false} BatchIsRun(s: State, turns: seq<Turn>)
    requires s.loop.Running? && LoopTurns(turns) == |s.loop.batch| + 1
    ensures Run(s, turns).loop == Polling && Run(s, turns).done == s.done + s.loop.batch
  {
    BatchGoesOn(s, turns, s.loop.batch);
  }

  lemma {:induction false} WakeUpGoesOn(s: State, turns: seq<Turn>)
    requires s.loop == Polling && s.eventFd > 0 && LoopTurns(turns) <= 3
    ensures var r, n := Run(s, turns), LoopTurns(turns);
      && r.done == s.done
      && (n == 0 ==> r.loop == Polling && r.eventFd > 0 && s.queue <= r.queue)
      && (n == 1 ==> r.loop == Ready && r.eventFd > 0 && s.queue <= r.queue)
      && (n == 2 ==> r.loop == Swapping && s.queue <= r.queue)
      && (n == 3 ==> r.loop.Running? && s.queue <= r.loop.batch)
  {
    if turns != [] {
      var front, turn := turns[..|turns| - 1], turns[|turns| - 1];
      WakeUpGoesOn(s, front);
      if turn.AdderTurn? { AdderLeavesLoop(Run(s, front), turn); }
    }
  }

  /** Woken up, the loop takes all that is queued with its third turn, whatever is added in between. */
  lemma {:induction false} WakeUpTakesQueue(s: State, turns: seq<Turn>)
    requires s.loop == Polling && s.eventFd > 0 && LoopTurns(turns) == 3
    ensures Run(s, turns).loop.Running? && s.queue <= Run(s, turns).loop.batch && Run(s, turns).done == s.done
  {
    WakeUpGoesOn(s, turns);
  }
}
