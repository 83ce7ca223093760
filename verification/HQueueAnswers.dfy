/**
  What the answers of the lock-free queue say when other threads work on it at the same
  time: a refused Enqueue, and an Empty that answers false.
  */
module HQueueAnswers {
  import opened Options
  import opened FifoTrace
  import opened HQueue
  import opened HQueueSafety
  import opened HQueueTheorems

  // --------------------------------------------------------- moments of a run

  /** The state after the first k turns. */
  function At(s: State, schedule: seq<Turn>, k: nat): (r: State)
    requires FitsThreads(schedule, |s.threads|) && k <= |schedule|
    ensures |r.threads| == |s.threads|
  {
    Run(s, schedule[..k]).0
  }

  lemma {:induction false} AtNext(s: State, schedule: seq<Turn>, k: nat)
    requires FitsThreads(schedule, |s.threads|) && k < |schedule|
    ensures At(s, schedule, k + 1) == At(Step(s, schedule[0].thread, schedule[0].call).0, schedule[1..], k)
  {
    assert schedule[..k + 1][1..] == schedule[1..][..k];
  }

  lemma {:induction false} AtLast(s: State, schedule: seq<Turn>, k: nat)
    requires FitsThreads(schedule, |s.threads|) && k < |schedule|
    ensures At(s, schedule, k + 1) == Step(At(s, schedule, k), schedule[k].thread, schedule[k].call).0
    decreases k
  {
    var s1 := Step(s, schedule[0].thread, schedule[0].call).0;
    AtNext(s, schedule, k);
    if k > 0 {
      AtLast(s1, schedule[1..], k - 1);
      AtNext(s, schedule, k - 1);
    }
  }

  lemma {:induction false} AtFrom(s: State, schedule: seq<Turn>, j: nat, k: nat)
    requires FitsThreads(schedule, |s.threads|) && j <= k <= |schedule|
    ensures At(s, schedule, k) == At(At(s, schedule, j), schedule[j..], k - j)
    decreases j
  {
    if j == 0 {
      assert schedule[0..] == schedule;
    } else {
      AtNext(s, schedule, j - 1);
      AtNext(s, schedule, k - 1);
      AtFrom(Step(s, schedule[0].thread, schedule[0].call).0, schedule[1..], j - 1, k - 1);
      assert schedule[1..][j - 1..] == schedule[j..];
    }
  }

  lemma {:induction false} AtEnd(s: State, schedule: seq<Turn>)
    requires FitsThreads(schedule, |s.threads|)
    ensures At(s, schedule, |schedule|) == Run(s, schedule).0
  {
    assert schedule[..|schedule|] == schedule;
  }

  // ------------------------------------------------------- the call under way

  function CallOf(pc: Pc): Option<Call> {
    match pc
    case Idle => None
    case LoadFreeIndex(item) => Some(CallEnqueue(item))
    case FirstScan(item, _) => Some(CallEnqueue(item))
    case ResetFreeIndex(item) => Some(CallEnqueue(item))
    case SecondScan(item, _) => Some(CallEnqueue(item))
    case StoreFreeIndex(item, _) => Some(CallEnqueue(item))
    case SetValue(item, _) => Some(CallEnqueue(item))
    case SetNext(item, _) => Some(CallEnqueue(item))
    case EnqLoadTail(item, _) => Some(CallEnqueue(item))
    case EnqLoadNext(item, _, _) => Some(CallEnqueue(item))
    case EnqCheckTail(item, _, _, _) => Some(CallEnqueue(item))
    case EnqHelp(item, _, _, _) => Some(CallEnqueue(item))
    case EnqLink(item, _, _, _) => Some(CallEnqueue(item))
    case EnqSwing(item, _, _) => Some(CallEnqueue(item))
    case _ => Some(if EmptyReads(pc) then CallEmpty else CallDequeue)
  }

  lemma EnqueueGoesOn(s: State, t: nat, call: Call)
    requires t < |s.threads| && Enqueuing(s.threads[t])
    ensures var pc' := Step(s, t, call).0.threads[t]; pc'.Idle? || CallOf(pc') == CallOf(s.threads[t])
  {
  }

  lemma OtherCallGoesOn(s: State, t: nat, call: Call)
    requires t < |s.threads| && !Enqueuing(s.threads[t]) && !s.threads[t].Idle?
    ensures var pc' := Step(s, t, call).0.threads[t]; pc'.Idle? || CallOf(pc') == CallOf(s.threads[t])
  {
  }

  lemma CallGoesOn(s: State, u: nat, call: Call, t: nat)
    requires u < |s.threads| && t < |s.threads|
    ensures var pc, pc' := s.threads[t], Step(s, u, call).0.threads[t];
      && (u != t ==> pc' == pc)
      && (!pc.Idle? && !pc'.Idle? ==> CallOf(pc') == CallOf(pc))
      && (u == t && pc.Idle? ==> CallOf(pc') == Some(call))
  {
    StepKeepsOthersOut(s, u, call);
    if u == t {
      if Enqueuing(s.threads[t]) { EnqueueGoesOn(s, t, call); } else if !s.threads[t].Idle? { OtherCallGoesOn(s, t, call); }
    }
  }

  /** Turn j starts the call that thread t is in at the end, and the call does not return in between. */
  ghost predicate Started(s: State, schedule: seq<Turn>, t: nat, j: nat, call: Call)
    requires FitsThreads(schedule, |s.threads|) && t < |s.threads|
  {
    && j < |schedule| && schedule[j] == Turn(t, call) && At(s, schedule, j).threads[t].Idle?
    && forall k :: j < k <= |schedule| ==> !At(s, schedule, k).threads[t].Idle?
  }

  /** A thread that is in a call has started it. */
  lemma {:induction false} CallStarted(s: State, schedule: seq<Turn>, t: nat) returns (j: nat)
    requires FitsThreads(schedule, |s.threads|) && t < |s.threads|
    requires s.threads[t].Idle? && !Run(s, schedule).0.threads[t].Idle?
    ensures CallOf(Run(s, schedule).0.threads[t]).Some?
    ensures Started(s, schedule, t, j, CallOf(Run(s, schedule).0.threads[t]).value)
    decreases |schedule|
  {
    var n := |schedule| - 1;
    var front := schedule[..n];
    AtLast(s, schedule, n);
    AtEnd(s, schedule);
    CallGoesOn(At(s, schedule, n), schedule[n].thread, schedule[n].call, t);
    if At(s, schedule, n).threads[t].Idle? {
      j := n;
    } else {
      j := CallStarted(s, front, t);
      forall k | 0 <= k <= n ensures At(s, front, k) == At(s, schedule, k) { assert front[..k] == schedule[..k]; }
    }
  }

  // ----------------------------------------------------------- refused items

  /** Node i is not free at some moment from turn j on. */
  ghost predicate BusyAfter(s: State, schedule: seq<Turn>, j: nat, i: nat)
    requires FitsThreads(schedule, |s.threads|)
  {
    exists k :: j <= k <= |schedule| && i < |At(s, schedule, k).m.nodes| && !At(s, schedule, k).m.nodes[i].free
  }

  function BusyNow(m: Memory): set<int> {
    set i | 0 <= i < |m.nodes| && !m.nodes[i].free
  }

  /** The second scan has come over nodes that were not free. */
  ghost predicate Scanned(pc: Pc, seen: set<int>) {
    pc.SecondScan? ==> forall j :: 1 <= j < pc.node ==> j in seen
  }

  lemma ScanGoesOn(s: State, u: nat, call: Call, t: nat, seen: set<int>)
    requires u < |s.threads| && t < |s.threads| && Scanned(s.threads[t], seen)
    ensures Scanned(Step(s, u, call).0.threads[t], seen + BusyNow(s.m))
  {
  }

  lemma {:induction false} BusyLater(s: State, schedule: seq<Turn>, i: nat)
    requires FitsThreads(schedule, |s.threads|) && schedule != []
    requires BusyAfter(Step(s, schedule[0].thread, schedule[0].call).0, schedule[1..], 0, i)
    ensures BusyAfter(s, schedule, 0, i)
  {
    var s1 := Step(s, schedule[0].thread, schedule[0].call).0;
    var k :| 0 <= k <= |schedule[1..]| && i < |At(s1, schedule[1..], k).m.nodes| && !At(s1, schedule[1..], k).m.nodes[i].free;
    AtNext(s, schedule, k);
    assert i < |At(s, schedule, k + 1).m.nodes| && !At(s, schedule, k + 1).m.nodes[i].free;
  }

  lemma {:induction false} RefusedAfterScan(s: State, schedule: seq<Turn>, t: nat, call: Call, item: Item, seen: set<int>)
    requires FitsThreads(schedule, |s.threads|) && t < |s.threads| && Scanned(s.threads[t], seen)
    requires Step(Run(s, schedule).0, t, call).1 == Returned(Enqueued(item, false))
    ensures forall i :: 1 <= i < |s.m.nodes| ==> i in seen || BusyAfter(s, schedule, 0, i)
    decreases |schedule|
  {
    if schedule != [] {
      var s1 := Step(s, schedule[0].thread, schedule[0].call).0;
      ScanGoesOn(s, schedule[0].thread, schedule[0].call, t, seen);
      RefusedAfterScan(s1, schedule[1..], t, call, item, seen + BusyNow(s.m));
      NodesStay(s, schedule[..1]);
      AtNext(s, schedule, 0);
      forall i | 1 <= i < |s.m.nodes| && i !in seen ensures BusyAfter(s, schedule, 0, i) {
        if i in BusyNow(s.m) {
          assert At(s, schedule, 0) == s;
        } else {
          assert |s1.m.nodes| == |s.m.nodes|;
          BusyLater(s, schedule, i);
        }
      }
    }
  }

  /**
    In every run, guarded or not: Enqueue answers false only if each of the nodes 1 to n - 1
    was not free at some moment of the call.
    */
  lemma {:induction false} RefusedOnlyIfAllWereBusy(size: nat, threadCount: nat, schedule: seq<Turn>, t: nat, call: Call, item: Item) returns (j: nat)
    requires size > 0 && FitsThreads(schedule, threadCount) && t < threadCount
    requires Step(Run(Init(size, threadCount), schedule).0, t, call).1 == Returned(Enqueued(item, false))
    ensures Started(Init(size, threadCount), schedule, t, j, CallEnqueue(item))
    ensures forall i :: 1 <= i < size ==> BusyAfter(Init(size, threadCount), schedule, j, i)
  {
    var s := Init(size, threadCount);
    j := CallStarted(s, schedule, t);
    var mid, rest := At(s, schedule, j), schedule[j..];
    AtEnd(s, schedule);
    AtFrom(s, schedule, j, |schedule|);
    AtEnd(mid, rest);
    RefusedAfterScan(mid, rest, t, call, item, {});
    NodesStay(s, schedule[..j]);
    forall i | 1 <= i < size ensures BusyAfter(s, schedule, j, i) {
      assert BusyAfter(mid, rest, 0, i);
      var k :| 0 <= k <= |rest| && i < |At(mid, rest, k).m.nodes| && !At(mid, rest, k).m.nodes[i].free;
      AtFrom(s, schedule, j, j + k);
    }
  }

  // --------------------------------------------------------- Empty says false

  /** The dummy has a successor. */
  predicate Filled(m: Memory) {
    InArray(m, m.qhead.index) && m.nodes[m.qhead.index].next.index != -1
  }

  lemma FilledIsNotEmpty(m: Memory, chain: seq<int>)
    requires IsChain(m, chain)
    ensures Filled(m) <==> Content(m, chain) != []
  {
    if |chain| > 1 { ChainNext(m, chain, 0); }
  }

  /** While the queue is empty, what Empty reads is what makes it answer true. */
  predicate ReadsEmpty(m: Memory, pc: Pc) {
    match pc
    case EmptyLoadTail(head) => head == m.qhead
    case EmptyLoadNext(head, tail) => head == m.qhead && tail.index == head.index
    case EmptyCheck(head, tail, next) => head == m.qhead && tail.index == head.index && next.index == -1
    case _ => true
  }

  lemma HeadStays(s: State, u: nat, call: Call)
    requires u < |s.threads|
    ensures Step(s, u, call).1.Unlinked? || Step(s, u, call).0.m.qhead == s.m.qhead
  {
  }

  lemma ReadsEmptyOn(s: State, h: History, u: nat, call: Call, t: nat)
    requires Inv(s, h) && u < |s.threads| && t < |s.threads| && GoodStep(s, h, u, call)
    requires !Filled(s.m) && ReadsEmpty(s.m, s.threads[t])
    ensures ReadsEmpty(Step(s, u, call).0.m, Step(s, u, call).0.threads[t])
  {
    FilledIsNotEmpty(s.m, h.chain);
    HeadStays(s, u, call);
    CallGoesOn(s, u, call, t);
  }

  lemma {:induction false} AnswersTrue(s: State, h: History, schedule: seq<Turn>, t: nat)
    requires Inv(s, h) && FitsThreads(schedule, |s.threads|) && Guarded(s, schedule) && t < |s.threads|
    requires ReadsEmpty(s.m, s.threads[t])
    requires forall k :: 0 <= k <= |schedule| ==> !Filled(At(s, schedule, k).m)
    ensures ReadsEmpty(Run(s, schedule).0.m, Run(s, schedule).0.threads[t])
    decreases |schedule|
  {
    if schedule != [] {
      var u, call := schedule[0].thread, schedule[0].call;
      var (s1, e) := Step(s, u, call);
      assert At(s, schedule, 0) == s;
      StepIsGood(s, h, u, call);
      ReadsEmptyOn(s, h, u, call, t);
      forall k | 0 <= k <= |schedule[1..]| ensures !Filled(At(s1, schedule[1..], k).m) { AtNext(s, schedule, k); }
      AnswersTrue(s1, After(h, u, s.threads[u], e), schedule[1..], t);
    }
  }

  lemma {:induction false} GuardedRest(s: State, schedule: seq<Turn>, j: nat)
    requires FitsThreads(schedule, |s.threads|) && j <= |schedule| && Guarded(s, schedule)
    ensures Guarded(s, schedule[..j]) && Guarded(At(s, schedule, j), schedule[j..])
    decreases |schedule|
  {
    if j == 0 {
      assert schedule[0..] == schedule;
    } else {
      AtNext(s, schedule, j - 1);
      assert schedule[..j][1..] == schedule[1..][..j - 1] && schedule[1..][j - 1..] == schedule[j..];
      GuardedRest(Step(s, schedule[0].thread, schedule[0].call).0, schedule[1..], j - 1);
    }
  }

  /** In every guarded run: Empty answers false only if the queue held an item at some moment of the call. */
  lemma {:induction false} NotEmptyWasTrue(size: nat, threadCount: nat, schedule: seq<Turn>, t: nat, call: Call) returns (j: nat, k: nat)
    requires size > 0 && FitsThreads(schedule, threadCount) && Guarded(Init(size, threadCount), schedule) && t < threadCount
    requires Step(Run(Init(size, threadCount), schedule).0, t, call).1 == Returned(Emptiness(false))
    ensures Started(Init(size, threadCount), schedule, t, j, CallEmpty)
    ensures j <= k <= |schedule| && Filled(At(Init(size, threadCount), schedule, k).m)
  {
    InitInv(size, threadCount);
    j, k := NotEmptyFrom(Init(size, threadCount), History([0], seq(size, i => if i == 0 then InChain else Free)), schedule, t, call);
  }

  lemma {:induction false} NotEmptyFrom(s: State, h: History, schedule: seq<Turn>, t: nat, call: Call) returns (j: nat, k: nat)
    requires Inv(s, h) && FitsThreads(schedule, |s.threads|) && Guarded(s, schedule) && t < |s.threads| && s.threads[t].Idle?
    requires Step(Run(s, schedule).0, t, call).1 == Returned(Emptiness(false))
    ensures Started(s, schedule, t, j, CallEmpty) && j <= k <= |schedule| && Filled(At(s, schedule, k).m)
  {
    AnswerIsOfEmpty(Run(s, schedule).0, t, call);
    j := CallStarted(s, schedule, t);
    AtFrom(s, schedule, j, |schedule|);
    AtEnd(s, schedule);
    AtEnd(At(s, schedule, j), schedule[j..]);
    GuardedRest(s, schedule, j);
    var h' := RunIsFifo(s, h, schedule[..j]);
    var i := SomeMomentFilled(At(s, schedule, j), h', schedule[j..], t, call);
    k := j + i;
    AtFrom(s, schedule, j, k);
  }

  lemma AnswerIsOfEmpty(s: State, t: nat, call: Call)
    requires t < |s.threads| && Step(s, t, call).1 == Returned(Emptiness(false))
    ensures CallOf(s.threads[t]) == Some(CallEmpty)
  {
  }

  lemma {:induction false} SomeMomentFilled(s: State, h: History, schedule: seq<Turn>, t: nat, call: Call) returns (k: nat)
    requires Inv(s, h) && FitsThreads(schedule, |s.threads|) && Guarded(s, schedule) && t < |s.threads| && s.threads[t].Idle?
    requires Step(Run(s, schedule).0, t, call).1 == Returned(Emptiness(false))
    ensures k <= |schedule| && Filled(At(s, schedule, k).m)
  {
    if forall i :: 0 <= i <= |schedule| ==> !Filled(At(s, schedule, i).m) {
      AnswersTrue(s, h, schedule, t);
      var h' := RunIsFifo(s, h, schedule);
      ThreadFacts(Run(s, schedule).0, h', t);
      assert false;
    }
    k :| 0 <= k <= |schedule| && Filled(At(s, schedule, k).m);
  }
}
