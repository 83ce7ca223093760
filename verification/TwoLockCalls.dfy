/**
  The calls of the two-lock queue: which of them waits and which of them answers that there
  is nothing, in every run; and what a call does that no other thread disturbs.
  */
module TwoLockCalls {
  import opened Options
  import opened FifoTrace
  import opened TwoLockQueue
  import opened TwoLockSafety

  // ------------------------------------------------------- the call under way

  /** The call that thread t made last; c is that before the schedule. */
  function LastCall(s: State, schedule: seq<Turn>, t: nat, c: Option<Call>): Option<Call>
    requires FitsThreads(schedule, |s.threads|) && t < |s.threads|
    decreases |schedule|
  {
    if schedule == [] then c
    else
      var starts := schedule[0].thread == t && s.threads[t].Idle?;
      LastCall(Step(s, schedule[0]).0, schedule[1..], t, if starts then Some(schedule[0].call) else c)
  }

  /** The thread is at a place where only this call can be. */
  predicate Fits(pc: Pc, c: Option<Call>) {
    match pc
    case Idle => true
    case EnqMalloc(item) => c == Some(CallEnqueue(item))
    case EnqSetData(item, _) => c == Some(CallEnqueue(item))
    case EnqSetNext(item, _) => c == Some(CallEnqueue(item))
    case EnqLockTail(item, _) => c == Some(CallEnqueue(item))
    case EnqLink(item, _) => c == Some(CallEnqueue(item))
    case EnqSwing(item, _) => c == Some(CallEnqueue(item))
    case EnqUnlockTail(item) => c == Some(CallEnqueue(item))
    case DeqLockHead(b) => c == Some(CallDequeue(b))
    case DeqTest(b) => c == Some(CallDequeue(b))
    case DeqWait => c == Some(CallDequeue(true))
    case DeqUnlockEmpty => c == Some(CallDequeue(false))
    case _ => c.Some? && c.value.CallDequeue?
  }

  lemma FitsOn(s: State, turn: Turn, t: nat, c: Option<Call>)
    requires turn.thread < |s.threads| && t < |s.threads| && Fits(s.threads[t], c)
    ensures Fits(Step(s, turn).0.threads[t], if turn.thread == t && s.threads[t].Idle? then Some(turn.call) else c)
  {
    ReturnStep(s, turn);
  }

  lemma {:induction false} CallFits(s: State, schedule: seq<Turn>, t: nat, c: Option<Call>)
    requires FitsThreads(schedule, |s.threads|) && t < |s.threads| && Fits(s.threads[t], c)
    ensures Fits(Run(s, schedule).0.threads[t], LastCall(s, schedule, t, c))
    decreases |schedule|
  {
    if schedule != [] {
      var starts := schedule[0].thread == t && s.threads[t].Idle?;
      FitsOn(s, schedule[0], t, c);
      CallFits(Step(s, schedule[0]).0, schedule[1..], t, if starts then Some(schedule[0].call) else c);
    }
  }

  /** In every run: only try_dequeue ever answers that the queue is empty, dequeue never does. */
  lemma {:induction false} OnlyTryAnswersEmpty(dummy: Addr, threadCount: nat, schedule: seq<Turn>, turn: Turn)
    requires FitsThreads(schedule, threadCount) && turn.thread < threadCount
    requires Step(Run(Init(dummy, threadCount), schedule).0, turn).1 == Returned(Dequeued(None))
    ensures LastCall(Init(dummy, threadCount), schedule, turn.thread, None) == Some(CallDequeue(false))
  {
    CallFits(Init(dummy, threadCount), schedule, turn.thread, None);
  }

  /** In every run: only dequeue ever waits, try_dequeue never does. */
  lemma {:induction false} OnlyDequeueWaits(dummy: Addr, threadCount: nat, schedule: seq<Turn>, t: nat)
    requires FitsThreads(schedule, threadCount) && t < threadCount
    requires Run(Init(dummy, threadCount), schedule).0.threads[t].DeqWait?
    ensures LastCall(Init(dummy, threadCount), schedule, t, None) == Some(CallDequeue(true))
  {
    CallFits(Init(dummy, threadCount), schedule, t, None);
  }

  /**
    In every run: a try_dequeue that tests the queue while it is empty releases the lock and
    answers so with its next two steps, whatever the other threads do in between.
    */
  lemma {:induction false} TryAnswersAtOnce(dummy: Addr, threadCount: nat, schedule: seq<Turn>, turn: Turn, between: seq<Turn>, last: Turn)
    requires dummy != NULL && FitsThreads(schedule, threadCount) && turn.thread < threadCount && last.thread == turn.thread
    requires FitsThreads(between, threadCount) && forall k :: 0 <= k < |between| ==> between[k].thread != turn.thread
    requires var s := Run(Init(dummy, threadCount), schedule).0;
      s.threads[turn.thread].DeqTest? && s.m.head in s.m.heap && s.m.heap[s.m.head].next == NULL
    requires LastCall(Init(dummy, threadCount), schedule, turn.thread, None) == Some(CallDequeue(false))
    ensures var s1 := Step(Run(Init(dummy, threadCount), schedule).0, turn).0;
      Step(Run(s1, between).0, last).1 == Returned(Dequeued(None))
  {
    CallFits(Init(dummy, threadCount), schedule, turn.thread, None);
    ThreadStays(Step(Run(Init(dummy, threadCount), schedule).0, turn).0, between, turn.thread);
  }

  lemma {:induction false} ThreadStays(s: State, schedule: seq<Turn>, t: nat)
    requires FitsThreads(schedule, |s.threads|) && t < |s.threads| && forall k :: 0 <= k < |schedule| ==> schedule[k].thread != t
    ensures Run(s, schedule).0.threads[t] == s.threads[t]
    decreases |schedule|
  {
    if schedule != [] {
      ReturnStep(s, schedule[0]);
      ThreadStays(Step(s, schedule[0]).0, schedule[1..], t);
    }
  }

  // -------------------------------------------------- a call nobody disturbs

  predicate Alone(s: State, t: nat) {
    t < |s.threads| && forall u :: 0 <= u < |s.threads| && u != t ==> s.threads[u].Idle?
  }

  predicate AtRest(s: State) {
    forall u :: 0 <= u < |s.threads| ==> s.threads[u].Idle?
  }

  function Solo(turn: Turn, n: nat): (r: seq<Turn>)
    ensures |r| == n && forall k :: 0 <= k < n ==> r[k] == turn
  {
    seq(n, k => turn)
  }

  function Stage(pc: Pc): nat {
    match pc
    case Idle => 20
    case EnqMalloc(_) => 19
    case EnqSetData(_, _) => 18
    case EnqSetNext(_, _) => 17
    case EnqLockTail(_, _) => 16
    case EnqLink(_, _) => 15
    case EnqSwing(_, _) => 14
    case EnqUnlockTail(_) => 13
    case DeqLockHead(_) => 12
    case DeqTest(_) => 11
    case DeqWait => 0
    case DeqUnlockEmpty => 1
    case DeqReadHead => 7
    case DeqReadNext(_) => 6
    case DeqReadData(_, _) => 5
    case DeqSwing(_, _, _) => 4
    case DeqUnlockHead(_, _) => 3
    case DeqFree(_, _) => 2
  }

  /** What the call has done so far to the queue, which held these items. */
  ghost predicate Story(m: Memory, chain: seq<Addr>, pc: Pc, turn: Turn, items: seq<Item>) {
    && Fits(pc, Some(turn.call))
    && (pc.EnqMalloc? ==> turn.address != NULL && turn.address !in m.heap)
    && if pc.EnqSwing? || pc.EnqUnlockTail? then Content(m, chain) == items + [pc.item]
       else if pc.DeqUnlockHead? || pc.DeqFree? then items != [] && items[0] == pc.item && Content(m, chain) == items[1..]
       else Content(m, chain) == items && (pc.DeqUnlockEmpty? ==> items == [])
  }

  /** The call waits if it may and there is nothing; otherwise it returns. */
  ghost predicate Outcome(call: Call, items: seq<Item>, s': State, t: nat, e: Event, items': seq<Item>)
    requires t < |s'.threads|
  {
    match call
    case CallEnqueue(item) => e == Returned(Enqueued(item, true)) && items' == items + [item] && s'.threads[t].Idle?
    case CallDequeue(b) =>
      if items != [] then e == Returned(Dequeued(Some(items[0]))) && items' == items[1..] && s'.threads[t].Idle?
      else if b then e == Silent && items' == [] && s'.threads[t].DeqWait?
      else e == Returned(Dequeued(None)) && items' == [] && s'.threads[t].Idle?
  }

  predicate Ends(s: State, turn: Turn)
    requires turn.thread < |s.threads|
  {
    Step(s, turn).1.Returned? || Step(s, turn).0.threads[turn.thread].DeqWait?
  }

  /** Nobody else holds a lock. */
  lemma LocksAreFree(s: State, h: History, t: nat)
    requires Inv(s, h) && Alone(s, t)
    ensures s.headLock.Some? ==> s.headLock == Some(t) && HoldsHead(s.threads[t])
    ensures s.tailLock.Some? ==> s.tailLock == Some(t) && HoldsTail(s.threads[t])
  {
    if s.headLock.Some? { assert HoldsHead(s.threads[s.headLock.value]); }
    if s.tailLock.Some? { assert HoldsTail(s.threads[s.tailLock.value]); }
  }

  lemma ContentIsSome(s: State, h: History)
    requires Inv(s, h)
    ensures Content(s.m, h.chain) == [] <==> s.m.heap[s.m.head].next == NULL
  {
    ThreadFactsOfChain(s.m, h.chain);
  }

  lemma ThreadFactsOfChain(m: Memory, chain: seq<Addr>)
    requires IsChain(m, chain)
    ensures |Content(m, chain)| == |chain| - 1
    ensures m.heap[m.head].next == NULL <==> |chain| == 1
  {
    if |chain| > 1 { ChainNext(m, chain, 0); }
  }

  /** The next step ends the call as it should, or brings it closer to its end. */
  ghost predicate Progress(s: State, turn: Turn, items: seq<Item>, chain1: seq<Addr>)
    requires turn.thread < |s.threads|
  {
    var (s1, e) := Step(s, turn);
    if Ends(s, turn) then Outcome(turn.call, items, s1, turn.thread, e, Content(s1.m, chain1))
    else
      && Story(s1.m, chain1, s1.threads[turn.thread], turn, items) && !s1.threads[turn.thread].Idle?
      && Stage(s1.threads[turn.thread]) < Stage(s.threads[turn.thread])
  }

  lemma EnqueueProgress(s: State, h: History, turn: Turn, items: seq<Item>, h1: History)
    requires turn.thread < |s.threads| && Inv(s, h) && Alone(s, turn.thread) && turn.call.CallEnqueue?
    requires Story(s.m, h.chain, s.threads[turn.thread], turn, items) && !s.threads[turn.thread].Idle?
    requires Good(s, h, Step(s, turn).0, Step(s, turn).1, h1)
    ensures Progress(s, turn, items, h1.chain)
  {
    LocksAreFree(s, h, turn.thread);
    ThreadFacts(s, h, turn.thread);
  }

  ghost predicate Dequeueing(s: State, h: History, turn: Turn, items: seq<Item>, h1: History) {
    && turn.thread < |s.threads| && Inv(s, h) && Alone(s, turn.thread) && turn.call.CallDequeue?
    && Story(s.m, h.chain, s.threads[turn.thread], turn, items)
    && !s.threads[turn.thread].Idle? && !s.threads[turn.thread].DeqWait?
    && Good(s, h, Step(s, turn).0, Step(s, turn).1, h1)
  }

  predicate Reading(pc: Pc) {
    pc.DeqReadHead? || pc.DeqReadNext? || pc.DeqReadData? || pc.DeqSwing?
  }

  lemma TestProgress(s: State, h: History, turn: Turn, items: seq<Item>, h1: History)
    requires Dequeueing(s, h, turn, items, h1) && !Reading(s.threads[turn.thread])
    ensures Progress(s, turn, items, h1.chain)
  {
    LocksAreFree(s, h, turn.thread);
    ContentIsSome(s, h);
    assert s.m.head in s.m.heap;
  }

  lemma ReadProgress(s: State, h: History, turn: Turn, items: seq<Item>, h1: History)
    requires Dequeueing(s, h, turn, items, h1) && Reading(s.threads[turn.thread])
    ensures Progress(s, turn, items, h1.chain)
  {
    ThreadFacts(s, h, turn.thread);
  }

  lemma DequeueProgress(s: State, h: History, turn: Turn, items: seq<Item>, h1: History)
    requires Dequeueing(s, h, turn, items, h1)
    ensures Progress(s, turn, items, h1.chain)
  {
    if Reading(s.threads[turn.thread]) { ReadProgress(s, h, turn, items, h1); } else { TestProgress(s, h, turn, items, h1); }
  }

  /** After n turns, and not before, the call has ended with the event. */
  ghost predicate EndsAfter(s: State, turn: Turn, n: nat, e: Event, s': State) {
    && turn.thread < |s.threads| && n > 0
    && var (r, trace) := Run(s, Solo(turn, n));
    && r == s' && |trace| == n && trace[n - 1] == (turn.thread, e)
    && forall k :: 0 <= k < n - 1 ==> !trace[k].1.Returned?
  }

  lemma EndsNow(s: State, turn: Turn)
    requires turn.thread < |s.threads|
    ensures EndsAfter(s, turn, 1, Step(s, turn).1, Step(s, turn).0)
  {
    assert Solo(turn, 1)[1..] == [];
  }

  lemma EndsLater(s: State, turn: Turn, n: nat, e: Event, s': State)
    requires turn.thread < |s.threads| && !Step(s, turn).1.Returned? && EndsAfter(Step(s, turn).0, turn, n, e, s')
    ensures EndsAfter(s, turn, n + 1, e, s')
  {
    assert Solo(turn, n + 1)[1..] == Solo(turn, n);
  }

  lemma {:induction false} SoloEnds(s: State, h: History, turn: Turn, items: seq<Item>)
    returns (n: nat, e: Event, s': State, h': History)
    requires turn.thread < |s.threads| && Inv(s, h) && Alone(s, turn.thread)
    requires Story(s.m, h.chain, s.threads[turn.thread], turn, items)
    requires !s.threads[turn.thread].Idle? && !s.threads[turn.thread].DeqWait?
    ensures EndsAfter(s, turn, n, e, s') && Inv(s', h') && Alone(s', turn.thread)
    ensures Outcome(turn.call, items, s', turn.thread, e, Content(s'.m, h'.chain))
    decreases Stage(s.threads[turn.thread])
  {
    var (s1, e1) := Step(s, turn);
    var h1 := StepIsGood(s, h, turn);
    ReturnStep(s, turn);
    if turn.call.CallEnqueue? { EnqueueProgress(s, h, turn, items, h1); } else { DequeueProgress(s, h, turn, items, h1); }
    if Ends(s, turn) {
      EndsNow(s, turn);
      n, e, s', h' := 1, e1, s1, h1;
    } else {
      n, e, s', h' := SoloEnds(s1, h1, turn, items);
      EndsLater(s, turn, n, e, s');
      n := n + 1;
    }
  }

  /**
    After any run that has come to rest, a call that no other thread disturbs does this: enqueue
    appends and returns; dequeue and try_dequeue take the first item; without one, dequeue
    waits without the lock, and try_dequeue answers so.
    */
  lemma {:induction false} CallAtRest(dummy: Addr, threadCount: nat, schedule: seq<Turn>, turn: Turn)
    returns (h: History, n: nat, e: Event, s': State, h': History)
    requires dummy != NULL && FitsThreads(schedule, threadCount) && turn.thread < threadCount
    requires var s := Run(Init(dummy, threadCount), schedule).0; AtRest(s) && turn.address != NULL && turn.address !in s.m.heap
    ensures var s := Run(Init(dummy, threadCount), schedule).0;
      && Inv(s, h) && EndsAfter(s, turn, n, e, s') && Inv(s', h')
      && turn.thread < |s'.threads| && Outcome(turn.call, Content(s.m, h.chain), s', turn.thread, e, Content(s'.m, h'.chain))
      && s'.headLock == None && s'.tailLock == None
  {
    h := InitialRunIsFifo(dummy, threadCount, schedule);
    n, e, s', h' := CallFrom(Run(Init(dummy, threadCount), schedule).0, h, turn);
  }

  lemma CallFrom(s: State, h: History, turn: Turn) returns (n: nat, e: Event, s': State, h': History)
    requires turn.thread < |s.threads| && Inv(s, h) && AtRest(s) && turn.address != NULL && turn.address !in s.m.heap
    ensures EndsAfter(s, turn, n, e, s') && Inv(s', h') && turn.thread < |s'.threads|
    ensures Outcome(turn.call, Content(s.m, h.chain), s', turn.thread, e, Content(s'.m, h'.chain))
    ensures s'.headLock == None && s'.tailLock == None
  {
    ReturnStep(s, turn);
    var h1 := StepIsGood(s, h, turn);
    n, e, s', h' := SoloEnds(Step(s, turn).0, h1, turn, Content(s.m, h.chain));
    EndsLater(s, turn, n, e, s');
    n := n + 1;
    LocksAreFree(s', h', turn.thread);
  }
}
