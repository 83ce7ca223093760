/** What the lock-free queue guarantees over whole runs. */
module HQueueTheorems {
  import opened Options
  import opened FifoTrace
  import opened HQueue
  import opened HQueueSafety

  // ------------------------------------------------------------ whole runs

  lemma InitInv(size: nat, threadCount: nat)
    requires size > 0
    ensures Inv(Init(size, threadCount), History([0], seq(size, i => if i == 0 then InChain else Free)))
    ensures Content(Init(size, threadCount).m, [0]) == []
  {
  }

  lemma GoodStepBalances(s: State, h: History, s': State, e: Event, h': History)
    requires Good(s, h, s', e, h')
    ensures Content(s.m, h.chain) + EnteredBy(e) == LeftBy(e) + Content(s'.m, h'.chain)
  {
  }

  /** One guarded turn, with its successor state and history named. */
  lemma OneTurn(s: State, h: History, t: nat, call: Call) returns (h1: History)
    requires Inv(s, h) && t < |s.threads|
    requires forall u :: 0 <= u < |s.threads| && ClaimTarget(s, t) != -1 ==> HeldTail(s.threads[u]) != ClaimTarget(s, t)
    ensures
      var (s1, e) := Step(s, t, call);
      && Inv(s1, h1) && e != Fault
      && Content(s.m, h.chain) + EnteredBy(e) == LeftBy(e) + Content(s1.m, h1.chain)
  {
    StepIsGood(s, h, t, call);
    var (s1, e) := Step(s, t, call);
    h1 := After(h, t, s.threads[t], e);
    GoodStepBalances(s, h, s1, e, h1);
  }

  /** What a run of several turns has done so far, and where it goes on. */
  ghost predicate Balanced(s: State, h: History, s': State, h': History, trace: Trace) {
    Inv(s', h') && NoFault(trace) && Content(s.m, h.chain) + Entered(trace) == Left(trace) + Content(s'.m, h'.chain)
  }

  lemma BalancedStart(s: State, h: History)
    requires Inv(s, h)
    ensures Balanced(s, h, s, h, [])
  {
  }

  lemma {:induction false} Compose(s: State, h: History, t: nat, e: Event, s1: State, h1: History, rest: Trace, s2: State, h2: History)
    requires e != Fault && Content(s.m, h.chain) + EnteredBy(e) == LeftBy(e) + Content(s1.m, h1.chain)
    requires Balanced(s1, h1, s2, h2, rest)
    ensures Balanced(s, h, s2, h2, [(t, e)] + rest)
  {
    TraceStep(t, e, rest);
    Telescope(Content(s.m, h.chain), EnteredBy(e), LeftBy(e), Content(s1.m, h1.chain),
              Entered(rest), Left(rest), Content(s2.m, h2.chain));
  }

  /**
    Over any guarded run the items leave in the order in which they entered: what was
    in the queue, followed by what entered, is what left followed by what is in it now.
    */
  lemma {:induction false} RunIsFifo(s: State, h: History, schedule: seq<Turn>) returns (h': History)
    requires Inv(s, h) && FitsThreads(schedule, |s.threads|) && Guarded(s, schedule)
    ensures Balanced(s, h, Run(s, schedule).0, h', Run(s, schedule).1)
    decreases |schedule|
  {
    h' := h;
    if schedule == [] {
      BalancedStart(s, h);
    } else {
      var t := schedule[0].thread;
      var h1 := OneTurn(s, h, t, schedule[0].call);
      var r := Step(s, t, schedule[0].call);
      h' := RunIsFifo(r.0, h1, schedule[1..]);
      var r2 := Run(r.0, schedule[1..]);
      Compose(s, h, t, r.1, r.0, h1, r2.1, r2.0, h');
    }
  }

  /** The abstract queue is determined by the shared memory: there is only one chain. */
  lemma ChainIsUnique(m: Memory, c: seq<int>, d: seq<int>)
    requires IsChain(m, c) && IsChain(m, d) && |c| <= |d|
    ensures c == d
  {
    var k := 1;
    while k < |c|
      invariant 1 <= k <= |c|
      invariant c[..k] == d[..k]
    {
      assert c[k - 1] == c[..k][k - 1] == d[k - 1];
      ChainNext(m, c, k - 1);
      ChainNext(m, d, k - 1);
      assert c[..k + 1] == c[..k] + [c[k]] && d[..k + 1] == d[..k] + [d[k]];
      k := k + 1;
    }
    assert c[|c| - 1] == c[..k][|c| - 1] == d[|c| - 1];
    if |d| > |c| { ChainNext(m, d, |c| - 1); }
    assert c == c[..k] && d == d[..k];
  }

  /** Where a run from the initial state arrives, the chain in memory is that of the history. */
  lemma {:induction false} Reached(size: nat, threadCount: nat, schedule: seq<Turn>, chain: seq<int>) returns (h: History)
    requires size > 0 && FitsThreads(schedule, threadCount) && Guarded(Init(size, threadCount), schedule)
    requires IsChain(Run(Init(size, threadCount), schedule).0.m, chain)
    ensures
      var (s, trace) := Run(Init(size, threadCount), schedule);
      && Inv(s, h) && h.chain == chain
      && NoFault(trace) && Entered(trace) == Left(trace) + Content(s.m, chain)
  {
    InitInv(size, threadCount);
    h := RunIsFifo(Init(size, threadCount), History([0], seq(size, i => if i == 0 then InChain else Free)), schedule);
    var (s, trace) := Run(Init(size, threadCount), schedule);
    if |chain| <= |h.chain| { ChainIsUnique(s.m, chain, h.chain); } else { ChainIsUnique(s.m, h.chain, chain); }
    assert [] + Entered(trace) == Entered(trace);
  }

  /** From the initial state, what left is a prefix of what entered and the rest is queued. */
  lemma {:induction false} InitialRunIsFifo(size: nat, threadCount: nat, schedule: seq<Turn>, chain: seq<int>)
    requires size > 0 && FitsThreads(schedule, threadCount) && Guarded(Init(size, threadCount), schedule)
    requires IsChain(Run(Init(size, threadCount), schedule).0.m, chain)
    ensures
      var (s', trace) := Run(Init(size, threadCount), schedule);
      NoFault(trace) && Entered(trace) == Left(trace) + Content(s'.m, chain)
  {
    var h := Reached(size, threadCount, schedule, chain);
  }

  /** In every guarded run the tail is a linked node, at or behind the one that the head names. */
  lemma {:induction false} TailNotBehindHead(size: nat, threadCount: nat, schedule: seq<Turn>, chain: seq<int>)
    requires size > 0 && FitsThreads(schedule, threadCount) && Guarded(Init(size, threadCount), schedule)
    requires IsChain(Run(Init(size, threadCount), schedule).0.m, chain)
    ensures var m := Run(Init(size, threadCount), schedule).0.m;
      chain[0] == m.qhead.index && exists k :: 0 <= k < |chain| && chain[k] == m.qtail.index
  {
    var h := Reached(size, threadCount, schedule, chain);
  }

  // ------------------------------------------------------- roles of the nodes

  /** Some thread's program counter says that it owns node i, as claimed or as passed. */
  ghost predicate HasOwner(s: State, i: int, t: int) {
    0 <= t < |s.threads| && (ClaimedNode(s.threads[t]) == i || PassedNode(s.threads[t]) == i)
  }

  lemma RolesUnderInv(s: State, h: History, i: int)
    requires Inv(s, h) && InArray(s.m, i)
    ensures s.m.nodes[i].free ==> i !in h.chain && forall t :: !HasOwner(s, i, t)
    ensures i in h.chain ==> !s.m.nodes[i].free && forall t :: !HasOwner(s, i, t)
    ensures !s.m.nodes[i].free && i !in h.chain ==> exists t :: HasOwner(s, i, t)
    ensures forall t, u :: HasOwner(s, i, t) && HasOwner(s, i, u) ==> t == u
    ensures forall t :: HasOwner(s, i, t) ==> !(ClaimedNode(s.threads[t]) == i && PassedNode(s.threads[t]) == i)
  {
    forall t | HasOwner(s, i, t)
      ensures Owns(h.roles, t, s.threads[t])
      ensures h.roles[i] == (if ClaimedNode(s.threads[t]) == i then Claimed(t) else Passed(t))
    {
      assert Owns(h.roles, t, s.threads[t]);
    }
    if !s.m.nodes[i].free && i !in h.chain {
      assert Owned(h.roles, s.threads, i);
      assert HasOwner(s, i, h.roles[i].thread);
    }
  }

  /** In every guarded run a node is free, or linked, or owned by one thread, and only one of the three. */
  lemma {:induction false} OneRolePerNode(size: nat, threadCount: nat, schedule: seq<Turn>, chain: seq<int>, i: nat)
    requires size > 0 && FitsThreads(schedule, threadCount) && Guarded(Init(size, threadCount), schedule)
    requires IsChain(Run(Init(size, threadCount), schedule).0.m, chain) && i < size
    ensures var s := Run(Init(size, threadCount), schedule).0;
      && InArray(s.m, i)
      && (s.m.nodes[i].free ==> i !in chain && forall t :: !HasOwner(s, i, t))
      && (i in chain ==> !s.m.nodes[i].free && forall t :: !HasOwner(s, i, t))
      && (!s.m.nodes[i].free && i !in chain ==> exists t :: HasOwner(s, i, t))
      && (forall t, u :: HasOwner(s, i, t) && HasOwner(s, i, u) ==> t == u)
      && (forall t :: HasOwner(s, i, t) ==> !(ClaimedNode(s.threads[t]) == i && PassedNode(s.threads[t]) == i))
  {
    var h := Reached(size, threadCount, schedule, chain);
    NodesStay(Init(size, threadCount), schedule);
    RolesUnderInv(Run(Init(size, threadCount), schedule).0, h, i);
  }

  lemma {:induction false} NodesStay(s: State, schedule: seq<Turn>)
    requires FitsThreads(schedule, |s.threads|)
    ensures |Run(s, schedule).0.m.nodes| == |s.m.nodes|
    decreases |schedule|
  {
    if schedule != [] { NodesStay(Step(s, schedule[0].thread, schedule[0].call).0, schedule[1..]); }
  }

  // ------------------------------------------------------------ one enqueuer

  predicate Enqueuing(pc: Pc) {
    pc.LoadFreeIndex? || pc.FirstScan? || pc.ResetFreeIndex? || pc.SecondScan? || pc.StoreFreeIndex? ||
    pc.SetValue? || pc.SetNext? || pc.EnqLoadTail? || pc.EnqLoadNext? || pc.EnqCheckTail? || pc.EnqHelp? ||
    pc.EnqLink? || pc.EnqSwing?
  }

  /** Only thread p ever calls Enqueue. */
  predicate OneEnqueuer(schedule: seq<Turn>, p: nat) {
    forall k :: 0 <= k < |schedule| && schedule[k].call.CallEnqueue? ==> schedule[k].thread == p
  }

  lemma StepKeepsOthersOut(s: State, t: nat, call: Call)
    requires t < |s.threads|
    ensures
      var s' := Step(s, t, call).0;
      && |s'.threads| == |s.threads|
      && (forall u :: 0 <= u < |s.threads| && u != t ==> s'.threads[u] == s.threads[u])
      && (Enqueuing(s'.threads[t]) ==> Enqueuing(s.threads[t]) || call.CallEnqueue?)
  {
  }

  /** With one enqueuer every schedule is guarded. */
  lemma {:induction false} OneEnqueuerIsGuarded(s: State, schedule: seq<Turn>, p: nat)
    requires FitsThreads(schedule, |s.threads|) && OneEnqueuer(schedule, p)
    requires forall u :: 0 <= u < |s.threads| && u != p ==> !Enqueuing(s.threads[u])
    ensures Guarded(s, schedule)
    decreases |schedule|
  {
    if schedule != [] {
      var t := schedule[0].thread;
      StepKeepsOthersOut(s, t, schedule[0].call);
      OneEnqueuerIsGuarded(Step(s, t, schedule[0].call).0, schedule[1..], p);
    }
  }

  /** One enqueuer, any number of dequeuers: FIFO in every interleaving. */
  lemma {:induction false} OneEnqueuerIsFifo(size: nat, threadCount: nat, schedule: seq<Turn>, p: nat, chain: seq<int>)
    requires size > 0 && FitsThreads(schedule, threadCount) && OneEnqueuer(schedule, p)
    requires IsChain(Run(Init(size, threadCount), schedule).0.m, chain)
    ensures
      var (s', trace) := Run(Init(size, threadCount), schedule);
      NoFault(trace) && Entered(trace) == Left(trace) + Content(s'.m, chain)
  {
    OneEnqueuerIsGuarded(Init(size, threadCount), schedule, p);
    InitialRunIsFifo(size, threadCount, schedule, chain);
  }

  // ------------------------------------------------- what the calls return

  /** The item of a call that has had its effect but has not returned. */
  function LinkPending(pc: Pc): seq<Item> {
    match pc case EnqSwing(item, _, _) => [item] case _ => []
  }

  function UnlinkPending(pc: Pc): seq<Item> {
    match pc case DeqRelease(_, item) => [item] case _ => []
  }

  lemma ReturnStep(s: State, t: nat, call: Call)
    requires t < |s.threads|
    ensures
      var (s', e) := Step(s, t, call);
      && t < |s'.threads|
      && LinkPending(s.threads[t]) + EnteredBy(e) == Accepted(e) + LinkPending(s'.threads[t])
      && UnlinkPending(s.threads[t]) + LeftBy(e) == Delivered(e) + UnlinkPending(s'.threads[t])
  {
  }

  /**
    Each thread's calls return exactly what they did: the items it linked are those for
    which its Enqueue returned true, the items it unlinked are those its Dequeue
    returned, in the same order, up to one call that has not returned yet.
    */
  lemma {:induction false} CallsReturnTheirEffects(s: State, schedule: seq<Turn>, t: nat)
    requires FitsThreads(schedule, |s.threads|) && t < |s.threads|
    ensures
      var (s', trace) := Run(s, schedule);
      var mine := EventsOf(trace, t);
      && LinkPending(s.threads[t]) + Entered(mine) == AllAccepted(mine) + LinkPending(s'.threads[t])
      && UnlinkPending(s.threads[t]) + Left(mine) == AllDelivered(mine) + UnlinkPending(s'.threads[t])
    decreases |schedule|
  {
    if schedule != [] {
      var u := schedule[0].thread;
      var (s1, e) := Step(s, u, schedule[0].call);
      StepKeepsOthersOut(s, u, schedule[0].call);
      ReturnStep(s, u, schedule[0].call);
      CallsReturnTheirEffects(s1, schedule[1..], t);
      var (s2, rest) := Run(s1, schedule[1..]);
      EventsStep(u, e, rest, t);
      if u == t {
        var r := EventsOf(rest, t);
        Telescope(LinkPending(s.threads[t]), EnteredBy(e), Accepted(e), LinkPending(s1.threads[t]),
                  Entered(r), AllAccepted(r), LinkPending(s2.threads[t]));
        Telescope(UnlinkPending(s.threads[t]), LeftBy(e), Delivered(e), UnlinkPending(s1.threads[t]),
                  Left(r), AllDelivered(r), UnlinkPending(s2.threads[t]));
      }
    }
  }

  // ------------------------------------------------- null and Empty() answers

  lemma {:induction false} HeadOnlyAdvances(s: State, schedule: seq<Turn>)
    requires FitsThreads(schedule, |s.threads|)
    ensures Snapshot(s.m.qhead, Run(s, schedule).0.m.qhead)
    decreases |schedule|
  {
    if schedule != [] {
      var s1 := Step(s, schedule[0].thread, schedule[0].call).0;
      assert Snapshot(s.m.qhead, s1.m.qhead);
      HeadOnlyAdvances(s1, schedule[1..]);
    }
  }

  predicate Without(schedule: seq<Turn>, t: nat) {
    forall k :: 0 <= k < |schedule| ==> schedule[k].thread != t
  }

  lemma {:induction false} ThreadWaits(s: State, schedule: seq<Turn>, t: nat)
    requires FitsThreads(schedule, |s.threads|) && t < |s.threads| && Without(schedule, t)
    ensures Run(s, schedule).0.threads[t] == s.threads[t]
    decreases |schedule|
  {
    if schedule != [] {
      StepKeepsOthersOut(s, schedule[0].thread, schedule[0].call);
      ThreadWaits(Step(s, schedule[0].thread, schedule[0].call).0, schedule[1..], t);
    }
  }

  /**
    Dequeue returns null, and Empty returns true, only if the queue was empty at the
    moment the call read the next pointer, whatever the other threads did between
    that read and the answer.
    */
  lemma {:induction false} EmptyAnswerWasTrue(s: State, h: History, t: nat, schedule: seq<Turn>)
    requires Inv(s, h) && t < |s.threads|
    requires s.threads[t].DeqLoadNext? || s.threads[t].EmptyLoadNext?
    requires FitsThreads(schedule, |s.threads|) && Without(schedule, t)
    requires
      var s1 := Step(s, t, CallEmpty).0;
      |s1.threads| == |s.threads| &&
      var e := Step(Run(s1, schedule).0, t, CallEmpty).1;
      e == Returned(Dequeued(None)) || e == Returned(Emptiness(true))
    ensures Content(s.m, h.chain) == []
  {
    ThreadFacts(s, h, t);
    var s1 := Step(s, t, CallEmpty).0;
    HeadOnlyAdvances(s1, schedule);
    ThreadWaits(s1, schedule, t);
    // The head did not move, so the pointer that was read is the dummy's.
    assert s.m.qhead == s.threads[t].head;
    if |h.chain| >= 2 { ChainNext(s.m, h.chain, 0); }
  }

  /** The value a dequeuer takes is the abstract head when its compare_exchange succeeds. */
  lemma DequeueTakesTheHead(s: State, h: History, t: nat)
    requires Inv(s, h) && t < |s.threads| && Step(s, t, CallEmpty).1.Unlinked?
    ensures |Content(s.m, h.chain)| > 0 && Step(s, t, CallEmpty).1 == Unlinked(Content(s.m, h.chain)[0])
  {
    StepIsGood(s, h, t, CallEmpty);
  }
}
