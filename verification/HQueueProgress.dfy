/**
  Threads that stop in the middle of a call block nobody: from every state of a guarded run a
  thread that goes on alone returns, wherever the others have stopped.  It may have to
  swing the tail for an enqueuer that did not come to it.
  */
module HQueueProgress {
  import opened Options
  import opened FifoTrace
  import opened HQueue
  import opened HQueueSafety
  import opened HQueueTheorems
  import opened HQueueSolo

  ghost predicate Lower(m: Memory, h: History, pc: Pc, m1: Memory, h1: History, pc1: Pc) {
    && m.qtail.index in h.chain && m1.qtail.index in h1.chain
    && (Group(pc1) < Group(pc) || (Group(pc1) == Group(pc) && Rest(m1, h1.chain, pc1) < Rest(m, h.chain, pc)))
  }

  /** The step returns, or the thread no longer relies on what others have changed, or it is closer to its end. */
  ghost predicate Nearer(s: State, h: History, t: nat, call: Call)
    requires t < |s.threads|
  {
    var (s1, e) := Step(s, t, call);
    var pc, pc1 := s.threads[t], s1.threads[t];
    e.Returned? ||
    (&& !pc1.Idle? && (Fresh(s.m, pc) ==> Fresh(s1.m, pc1))
     && ((!Fresh(s.m, pc) && Fresh(s1.m, pc1)) || Lower(s.m, h, pc, s1.m, After(h, t, pc, e), pc1)))
  }

  /** What is known of a thread in a call. */
  ghost predicate Knows(s: State, h: History, t: nat) {
    t < |s.threads| && !s.threads[t].Idle? && Shape(s.m, h) && Local(s.m, h, s.threads[t]) && Owns(h.roles, t, s.threads[t])
  }

  /** A step that only moves the thread on. */
  lemma MovesOn(s: State, h: History, t: nat, call: Call, pc1: Pc)
    requires Knows(s, h, t) && Step(s, t, call) == (s.(threads := s.threads[t := pc1]), Silent) && !pc1.Idle?
    requires Fresh(s.m, s.threads[t]) ==> Fresh(s.m, pc1)
    requires (!Fresh(s.m, s.threads[t]) && Fresh(s.m, pc1)) || Lower(s.m, h, s.threads[t], s.m, h, pc1)
    ensures Nearer(s, h, t, call)
  {
  }

  lemma Claiming(s: State, h: History, t: nat, call: Call)
    requires Knows(s, h, t)
    requires var pc := s.threads[t];
      pc.LoadFreeIndex? || pc.ResetFreeIndex? || pc.FirstScan? || pc.SecondScan? || pc.StoreFreeIndex? || pc.SetValue?
    ensures Nearer(s, h, t, call)
  {
  }

  lemma Filling(s: State, h: History, t: nat, call: Call)
    requires Knows(s, h, t) && s.threads[t].SetNext?
    ensures Nearer(s, h, t, call)
  {
  }

  lemma EnqReading(s: State, h: History, t: nat, call: Call)
    requires Knows(s, h, t) && (s.threads[t].EnqLoadTail? || s.threads[t].EnqLoadNext? || s.threads[t].EnqCheckTail?)
    ensures Nearer(s, h, t, call)
  {
    var pc, m := s.threads[t], s.m;
    match pc
    case EnqLoadTail(item, i) => MovesOn(s, h, t, call, EnqLoadNext(item, i, m.qtail));
    case EnqLoadNext(item, i, tail) => MovesOn(s, h, t, call, EnqCheckTail(item, i, tail, m.nodes[tail.index].next));
    case EnqCheckTail(item, i, tail, next) =>
      MovesOn(s, h, t, call,
              if tail != m.qtail then EnqLoadTail(item, i)
              else if next.index != -1 then EnqHelp(item, i, tail, next) else EnqLink(item, i, tail, next));
  }

  lemma Helping(s: State, h: History, t: nat, call: Call)
    requires Knows(s, h, t) && (s.threads[t].EnqHelp? || s.threads[t].DeqHelp?)
    ensures Nearer(s, h, t, call)
  {
    if Fresh(s.m, s.threads[t]) { HelpShrinksLag(s.m, h.chain); }
  }

  lemma Linking(s: State, h: History, t: nat, call: Call)
    requires Knows(s, h, t) && s.threads[t].EnqLink?
    ensures Nearer(s, h, t, call)
  {
    var pc := s.threads[t];
    if s.m.nodes[pc.tail.index].next == pc.next {
      StepOfLink(s, t, call, pc.item, pc.node, pc.tail, pc.next);
    } else {
      MovesOn(s, h, t, call, EnqLoadTail(pc.item, pc.node));
    }
  }

  lemma DeqReading(s: State, h: History, t: nat, call: Call)
    requires Knows(s, h, t) && DequeueReads(s.threads[t]) && !s.threads[t].DeqCheckHead?
    ensures Nearer(s, h, t, call)
  {
    var pc, m := s.threads[t], s.m;
    match pc
    case DeqLoadHead => MovesOn(s, h, t, call, DeqLoadTail(m.qhead));
    case DeqLoadTail(head) => MovesOn(s, h, t, call, DeqLoadNext(head, m.qtail));
    case DeqLoadNext(head, tail) => MovesOn(s, h, t, call, DeqCheckHead(head, tail, m.nodes[head.index].next));
    case DeqLoadValue(head, next) => MovesOn(s, h, t, call, DeqSwing(head, next, m.nodes[next.index].value));
  }

  lemma DeqChecking(s: State, h: History, t: nat, call: Call)
    requires Knows(s, h, t) && s.threads[t].DeqCheckHead?
    ensures Nearer(s, h, t, call)
  {
    var DeqCheckHead(head, tail, next) := s.threads[t];
    if Fresh(s.m, s.threads[t]) {
      EmptyIsShort(s.m, h.chain);
      if Content(s.m, h.chain) == [] { EmptyTail(s.m, h.chain); }
    }
    if !(head == s.m.qhead && head.index == tail.index && next.index == -1) {
      MovesOn(s, h, t, call,
              if head != s.m.qhead then DeqLoadHead
              else if head.index == tail.index then DeqHelp(tail, next)
              else if next.index == -1 then DeqLoadHead else DeqLoadValue(head, next));
    }
  }

  lemma Taking(s: State, h: History, t: nat, call: Call)
    requires Knows(s, h, t) && s.threads[t].DeqSwing? && Shape(Step(s, t, call).0.m, After(h, t, s.threads[t], Step(s, t, call).1))
    ensures Nearer(s, h, t, call)
  {
    if s.m.qhead != s.threads[t].head { MovesOn(s, h, t, call, DeqLoadHead); }
  }

  lemma Asking(s: State, h: History, t: nat, call: Call)
    requires Knows(s, h, t) && EmptyReads(s.threads[t])
    ensures Nearer(s, h, t, call)
  {
    match s.threads[t]
    case EmptyLoadHead => MovesOn(s, h, t, call, EmptyLoadTail(s.m.qhead));
    case EmptyLoadTail(head) => MovesOn(s, h, t, call, EmptyLoadNext(head, s.m.qtail));
    case EmptyLoadNext(head, tail) => MovesOn(s, h, t, call, EmptyCheck(head, tail, s.m.nodes[head.index].next));
    case EmptyCheck(_, _, _) =>
  }

  lemma AnyStep(s: State, h: History, t: nat, call: Call)
    requires Inv(s, h) && t < |s.threads| && GoodStep(s, h, t, call) && !s.threads[t].Idle?
    ensures Nearer(s, h, t, call)
  {
    ThreadFacts(s, h, t);
    var pc := s.threads[t];
    if pc.EnqHelp? || pc.DeqHelp? { Helping(s, h, t, call); }
    else if pc.EnqLink? { Linking(s, h, t, call); }
    else if pc.EnqLoadTail? || pc.EnqLoadNext? || pc.EnqCheckTail? { EnqReading(s, h, t, call); }
    else if pc.SetNext? { Filling(s, h, t, call); }
    else if pc.DeqCheckHead? { DeqChecking(s, h, t, call); }
    else if DequeueReads(pc) { DeqReading(s, h, t, call); }
    else if pc.DeqSwing? { Taking(s, h, t, call); }
    else if EmptyReads(pc) { Asking(s, h, t, call); }
    else if !pc.EnqSwing? && !pc.DeqRelease? { Claiming(s, h, t, call); }
  }

  /** With Guarded, the first turn of a thread that goes on alone is one that the guard admits. */
  lemma FirstTurnIsGood(s: State, h: History, t: nat, call: Call)
    requires Inv(s, h) && t < |s.threads| && Guarded(s, Solo(t, call, 1))
    ensures GoodStep(s, h, t, call)
  {
    StepIsGood(s, h, t, call);
  }

  lemma GuardGoesOn(s: State, t: nat, call: Call, n: nat)
    requires t < |s.threads| && n > 0 && Guarded(s, Solo(t, call, n))
    ensures Guarded(Step(s, t, call).0, Solo(t, call, n - 1))
  {
    assert Solo(t, call, n)[1..] == Solo(t, call, n - 1);
  }

  /** Wherever the other threads have stopped, a thread in a call that goes on alone returns, as long as it keeps the guard. */
  lemma {:induction false} ReturnsAlone(s: State, h: History, t: nat, call: Call) returns (n: nat, answer: Result, s': State)
    requires Inv(s, h) && t < |s.threads| && !s.threads[t].Idle?
    requires forall n: nat :: Guarded(s, Solo(t, call, n))
    ensures Returns(s, t, call, n, answer, s')
    decreases if Fresh(s.m, s.threads[t]) then 0 else 1, Group(s.threads[t]), Rest(s.m, h.chain, s.threads[t])
  {
    FirstTurnIsGood(s, h, t, call);
    AnyStep(s, h, t, call);
    var (s1, e) := Step(s, t, call);
    if e.Returned? {
      ReturnsNow(s, t, call);
      n, answer, s' := 1, e.result, s1;
    } else {
      forall k: nat ensures Guarded(s1, Solo(t, call, k)) { GuardGoesOn(s, t, call, k + 1); }
      n, answer, s' := ReturnsAlone(s1, After(h, t, s.threads[t], e), t, call);
      ReturnsLater(s, t, call, n, answer, s');
      n := n + 1;
    }
  }

  /** A thread that has its node, or is in Dequeue or Empty. */
  predicate ClaimsNothing(pc: Pc, call: Call) {
    match pc
    case Idle => !call.CallEnqueue?
    case LoadFreeIndex(_) => false
    case FirstScan(_, _) => false
    case ResetFreeIndex(_) => false
    case SecondScan(_, _) => false
    case _ => true
  }

  /** The guard is about claims, so such a thread keeps it until its call has returned, and for ever if it only dequeues. */
  lemma {:induction false} DequeuerIsGuarded(s: State, t: nat, call: Call, n: nat)
    requires t < |s.threads| && !call.CallEnqueue? && ClaimsNothing(s.threads[t], call)
    ensures Guarded(s, Solo(t, call, n))
    decreases n
  {
    if n > 0 {
      DequeuerIsGuarded(Step(s, t, call).0, t, call, n - 1);
      assert Solo(t, call, n)[1..] == Solo(t, call, n - 1);
    }
  }

  /**
    After any guarded run, wherever the threads are: one that has claimed its node, or dequeues, or asks
    for emptiness returns if it goes on alone, without any assumption.
    */
  lemma {:induction false} StoppedThreadsBlockNobody(size: nat, threadCount: nat, schedule: seq<Turn>, t: nat)
    returns (n: nat, answer: Result, s': State)
    requires size > 0 && FitsThreads(schedule, threadCount) && Guarded(Init(size, threadCount), schedule) && t < threadCount
    requires var pc := Run(Init(size, threadCount), schedule).0.threads[t]; !pc.Idle? && ClaimsNothing(pc, CallEmpty)
    ensures Returns(Run(Init(size, threadCount), schedule).0, t, CallEmpty, n, answer, s')
  {
    var s := Run(Init(size, threadCount), schedule).0;
    InitInv(size, threadCount);
    var h := RunIsFifo(Init(size, threadCount), History([0], seq(size, i => if i == 0 then InChain else Free)), schedule);
    forall k: nat ensures Guarded(s, Solo(t, CallEmpty, k)) { DequeuerIsGuarded(s, t, CallEmpty, k); }
    n, answer, s' := ReturnsAlone(s, h, t, CallEmpty);
  }
}
