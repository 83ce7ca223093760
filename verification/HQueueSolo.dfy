/**
  A call of the lock-free queue that no other thread disturbs: it returns, and what it
  returns is that of a bounded queue.  The states before it may come from any interleaving.
  */
module HQueueSolo {
  import opened Options
  import opened FifoTrace
  import opened HQueue
  import opened HQueueSafety
  import opened HQueueTheorems
  import HQueueSequential

  // ------------------------------------------------------------- one thread alone

  predicate Alone(s: State, t: nat) {
    t < |s.threads| && forall u :: 0 <= u < |s.threads| && u != t ==> s.threads[u].Idle?
  }

  predicate AtRest(s: State) {
    forall u :: 0 <= u < |s.threads| ==> s.threads[u].Idle?
  }

  /** n turns of one thread. */
  function Solo(t: nat, call: Call, n: nat): (r: seq<Turn>)
    ensures |r| == n && forall k :: 0 <= k < n ==> r[k] == Turn(t, call)
  {
    seq(n, k => Turn(t, call))
  }

  lemma SoloStep(s: State, h: History, t: nat, call: Call)
    requires Inv(s, h) && Alone(s, t)
    ensures GoodStep(s, h, t, call) && Alone(Step(s, t, call).0, t)
  {
    StepIsGood(s, h, t, call);
    StepKeepsOthersOut(s, t, call);
  }

  // --------------------------------------------------------------- how far it is

  /** The position of x in the chain. */
  function Pos(chain: seq<int>, x: int): (k: nat)
    requires x in chain
    ensures k < |chain| && chain[k] == x
  {
    if chain[0] == x then 0 else 1 + Pos(chain[1..], x)
  }

  /** How many nodes the tail is behind. */
  function Lag(m: Memory, chain: seq<int>): nat
    requires m.qtail.index in chain
  {
    |chain| - 1 - Pos(chain, m.qtail.index)
  }

  function Group(pc: Pc): nat {
    match pc
    case Idle => 0
    case LoadFreeIndex(_) => 20
    case FirstScan(_, _) => 19
    case ResetFreeIndex(_) => 18
    case SecondScan(_, _) => 17
    case StoreFreeIndex(_, _) => 16
    case SetValue(_, _) => 15
    case SetNext(_, _) => 14
    case EnqLoadTail(_, _) => 13
    case EnqLoadNext(_, _, _) => 13
    case EnqCheckTail(_, _, _, _) => 13
    case EnqHelp(_, _, _, _) => 13
    case EnqLink(_, _, _, _) => 12
    case EnqSwing(_, _, _) => 11
    case DeqLoadValue(_, _) => 9
    case DeqSwing(_, _, _) => 8
    case DeqRelease(_, _) => 7
    case _ => if EmptyReads(pc) then 6 else 10
  }

  /** Steps to the end of a round. */
  function Stage(pc: Pc): nat {
    if pc.EnqLoadTail? || pc.DeqLoadHead? || pc.EmptyLoadHead? then 5
    else if pc.EnqLoadNext? || pc.DeqLoadTail? || pc.EmptyLoadTail? then 4
    else if pc.EnqCheckTail? || pc.DeqLoadNext? || pc.EmptyLoadNext? then 3
    else if pc.DeqCheckHead? then 2
    else 1
  }

  /** What is left within the group: nodes to scan, or rounds of helping the tail. */
  function Rest(m: Memory, chain: seq<int>, pc: Pc): nat
    requires m.qtail.index in chain
  {
    if pc.FirstScan? || pc.SecondScan? then if pc.node < |m.nodes| then |m.nodes| - pc.node else 0
    else Lag(m, chain) * 6 + Stage(pc)
  }

  lemma PosUnique(chain: seq<int>, k: nat, x: int)
    requires forall i, j :: 0 <= i < j < |chain| ==> chain[i] != chain[j]
    requires k < |chain| && chain[k] == x
    ensures Pos(chain, x) == k
  {
    assert chain[Pos(chain, x)] == chain[k];
  }

  /** Helping moves the tail one node on. */
  lemma HelpShrinksLag(m: Memory, chain: seq<int>)
    requires IsChain(m, chain) && m.qtail.index in chain && m.nodes[m.qtail.index].next.index != -1
    ensures var m' := CasTail(m, m.qtail, m.nodes[m.qtail.index].next.index);
      m'.qtail.index in chain && Lag(m', chain) < Lag(m, chain)
  {
    var k := Pos(chain, m.qtail.index);
    assert k < |chain| - 1;
    ChainNext(m, chain, k);
    PosUnique(chain, k + 1, chain[k + 1]);
  }

  // ---------------------------------------------------------------- what it knows

  /** Nobody else has written since the thread has read. */
  predicate Fresh(m: Memory, pc: Pc) {
    match pc
    case EnqLoadNext(_, _, tail) => tail == m.qtail
    case EnqCheckTail(_, _, tail, next) => tail == m.qtail && InArray(m, tail.index) && next == m.nodes[tail.index].next
    case EnqHelp(_, _, tail, next) =>
      tail == m.qtail && InArray(m, tail.index) && next == m.nodes[tail.index].next && next.index != -1
    case EnqLink(_, _, tail, next) =>
      tail == m.qtail && InArray(m, tail.index) && next == m.nodes[tail.index].next && next.index == -1
    case DeqLoadTail(head) => head == m.qhead
    case DeqLoadNext(head, tail) => head == m.qhead && tail == m.qtail
    case DeqCheckHead(head, tail, next) =>
      head == m.qhead && tail == m.qtail && InArray(m, head.index) && next == m.nodes[head.index].next
    case DeqHelp(tail, next) => tail == m.qtail && InArray(m, tail.index) && next == m.nodes[tail.index].next && next.index != -1
    case DeqLoadValue(head, next) =>
      head == m.qhead && InArray(m, head.index) && next == m.nodes[head.index].next && next.index != -1
    case DeqSwing(head, next, _) => head == m.qhead
    case EmptyLoadTail(head) => head == m.qhead
    case EmptyLoadNext(head, tail) => head == m.qhead && tail == m.qtail
    case EmptyCheck(head, tail, next) =>
      head == m.qhead && tail == m.qtail && InArray(m, head.index) && next == m.nodes[head.index].next
    case _ => true
  }

  /** What the call has done so far to the queue, which was the chain c with these items. */
  ghost predicate Story(m: Memory, h: History, pc: Pc, call: Call, c: seq<int>, items: seq<Item>) {
    match call
    case CallEnqueue(item) =>
      && Enqueuing(pc) && pc.item == item
      && (if pc.EnqSwing? then
            h.chain == c + [pc.node] && Content(m, h.chain) == items + [item] && 1 <= pc.node < |m.nodes| && pc.node !in c
          else h.chain == c && Content(m, c) == items)
      && (pc.SecondScan? ==> forall j :: 1 <= j < pc.node && j < |m.nodes| ==> !m.nodes[j].free)
    case CallDequeue =>
      && (DequeueReads(pc) || pc.DeqHelp? || pc.DeqSwing? || pc.DeqRelease?)
      && (if pc.DeqRelease? then items == [pc.item] + Content(m, h.chain) && |c| > 0 && h.chain == c[1..]
          else h.chain == c && Content(m, c) == items)
    case CallEmpty => EmptyReads(pc) && h.chain == c && Content(m, c) == items
  }

  /** There is a node, other than node 0, that is not linked. */
  ghost predicate HasRoom(n: nat, c: seq<int>) {
    exists i :: 1 <= i < n && i !in c
  }

  /** The answer, and the chain and the items afterwards. */
  ghost predicate Outcome(n: nat, call: Call, c: seq<int>, items: seq<Item>, answer: Result, c': seq<int>, items': seq<Item>) {
    match call
    case CallEnqueue(item) =>
      if HasRoom(n, c) then answer == Enqueued(item, true) && items' == items + [item] && |c'| == |c| + 1 && c == c'[..|c|] && c'[|c|] != 0
      else answer == Enqueued(item, false) && items' == items && c' == c
    case CallDequeue =>
      if items == [] then answer == Dequeued(None) && items' == items && c' == c
      else answer == Dequeued(Some(items[0])) && items' == items[1..] && |c| > 0 && c' == c[1..]
    case CallEmpty => answer == Emptiness(items == []) && items' == items && c' == c
  }

  /** The next step ends the call as it should, or brings it closer to its end. */
  ghost predicate Progress(s: State, h: History, t: nat, call: Call, c: seq<int>, items: seq<Item>)
    requires t < |s.threads|
  {
    var (s1, e) := Step(s, t, call);
    var pc := s.threads[t];
    var h1 := After(h, t, pc, e);
    if e.Returned? then
      s1.threads[t].Idle? && Outcome(|s.m.nodes|, call, c, items, e.result, h1.chain, Content(s1.m, h1.chain))
    else
      var pc1 := s1.threads[t];
      && !pc1.Idle? && |s1.m.nodes| == |s.m.nodes|
      && Fresh(s1.m, pc1) && Story(s1.m, h1, pc1, call, c, items)
      && s.m.qtail.index in h.chain && s1.m.qtail.index in h1.chain
      && (Group(pc1) < Group(pc) || (Group(pc1) == Group(pc) && Rest(s1.m, h1.chain, pc1) < Rest(s.m, h.chain, pc)))
  }

  ghost predicate Ready(s: State, h: History, t: nat, call: Call, c: seq<int>, items: seq<Item>) {
    && Inv(s, h) && Alone(s, t) && GoodStep(s, h, t, call) && !s.threads[t].Idle?
    && Fresh(s.m, s.threads[t]) && Story(s.m, h, s.threads[t], call, c, items)
  }

  // ------------------------------------------------------------------ enqueueing

  /** Without another call under way, what is not free is linked or the thread's own. */
  lemma BusyIsLinked(s: State, h: History, t: nat, i: nat)
    requires Inv(s, h) && Alone(s, t) && i < |s.m.nodes| && !s.m.nodes[i].free
    requires ClaimedNode(s.threads[t]) == -1 && PassedNode(s.threads[t]) == -1
    ensures i in h.chain
  {
    assert Owned(h.roles, s.threads, i);
  }

  /** What the next lemmas need of Ready. */
  ghost predicate Knows(s: State, h: History, t: nat, call: Call, c: seq<int>, items: seq<Item>) {
    && t < |s.threads| && Shape(s.m, h) && Local(s.m, h, s.threads[t])
    && Fresh(s.m, s.threads[t]) && Story(s.m, h, s.threads[t], call, c, items)
  }

  lemma ScanProgress(s: State, h: History, t: nat, call: Call, c: seq<int>, items: seq<Item>)
    requires Knows(s, h, t, call, c, items)
    requires var pc := s.threads[t]; pc.LoadFreeIndex? || pc.ResetFreeIndex?
    ensures Progress(s, h, t, call, c, items)
  {
  }

  lemma ProbeProgress(s: State, h: History, t: nat, call: Call, c: seq<int>, items: seq<Item>)
    requires Knows(s, h, t, call, c, items)
    requires var pc := s.threads[t]; pc.FirstScan? || (pc.SecondScan? && pc.node < |s.m.nodes|)
    ensures Progress(s, h, t, call, c, items)
  {
    var pc := s.threads[t];
    if pc.node < |s.m.nodes| && s.m.nodes[pc.node].free { SameItems(s.m.nodes, SetFree(s.m, pc.node, false).nodes, c[1..]); }
  }

  lemma RefuseProgress(s: State, h: History, t: nat, call: Call, c: seq<int>, items: seq<Item>)
    requires Ready(s, h, t, call, c, items) && s.threads[t].SecondScan? && s.threads[t].node >= |s.m.nodes|
    ensures Progress(s, h, t, call, c, items)
  {
    forall i | 1 <= i < |s.m.nodes| ensures i in c { BusyIsLinked(s, h, t, i); }
  }

  lemma FillProgress(s: State, h: History, t: nat, call: Call, c: seq<int>, items: seq<Item>)
    requires Ready(s, h, t, call, c, items)
    requires var pc := s.threads[t]; pc.StoreFreeIndex? || pc.SetValue? || pc.SetNext?
    ensures Progress(s, h, t, call, c, items)
  {
    ThreadFacts(s, h, t);
  }

  /** A step that only moves the thread on. */
  lemma QuietProgress(s: State, h: History, t: nat, call: Call, c: seq<int>, items: seq<Item>, pc1: Pc)
    requires t < |s.threads| && Shape(s.m, h) && Step(s, t, call) == (s.(threads := s.threads[t := pc1]), Silent)
    requires !pc1.Idle? && Fresh(s.m, pc1) && Story(s.m, h, pc1, call, c, items)
    requires var pc := s.threads[t];
      Group(pc1) < Group(pc) || (Group(pc1) == Group(pc) && Rest(s.m, h.chain, pc1) < Rest(s.m, h.chain, pc))
    ensures Progress(s, h, t, call, c, items)
  {
  }

  lemma LoadTailProgress(s: State, h: History, t: nat, call: Call, c: seq<int>, items: seq<Item>)
    requires Knows(s, h, t, call, c, items) && s.threads[t].EnqLoadTail?
    ensures Progress(s, h, t, call, c, items)
  {
    var pc := s.threads[t];
    QuietProgress(s, h, t, call, c, items, EnqLoadNext(pc.item, pc.node, s.m.qtail));
  }

  lemma LoadNextProgress(s: State, h: History, t: nat, call: Call, c: seq<int>, items: seq<Item>)
    requires Knows(s, h, t, call, c, items) && s.threads[t].EnqLoadNext?
    ensures Progress(s, h, t, call, c, items)
  {
    var pc := s.threads[t];
    QuietProgress(s, h, t, call, c, items, EnqCheckTail(pc.item, pc.node, pc.tail, s.m.nodes[pc.tail.index].next));
  }

  lemma CheckTailProgress(s: State, h: History, t: nat, call: Call, c: seq<int>, items: seq<Item>)
    requires Knows(s, h, t, call, c, items) && s.threads[t].EnqCheckTail?
    ensures Progress(s, h, t, call, c, items)
  {
    var pc := s.threads[t];
    if pc.next.index != -1 {
      QuietProgress(s, h, t, call, c, items, EnqHelp(pc.item, pc.node, pc.tail, pc.next));
    } else {
      QuietProgress(s, h, t, call, c, items, EnqLink(pc.item, pc.node, pc.tail, pc.next));
    }
  }

  lemma HelpProgress(s: State, h: History, t: nat, call: Call, c: seq<int>, items: seq<Item>)
    requires Knows(s, h, t, call, c, items) && (s.threads[t].EnqHelp? || s.threads[t].DeqHelp?)
    ensures Progress(s, h, t, call, c, items)
  {
    HelpShrinksLag(s.m, h.chain);
  }

  lemma LinkProgress(s: State, h: History, t: nat, call: Call, c: seq<int>, items: seq<Item>)
    requires Ready(s, h, t, call, c, items) && s.threads[t].EnqLink?
    ensures Progress(s, h, t, call, c, items)
  {
    ThreadFacts(s, h, t);
    assert s.threads[t].node !in h.chain;
  }

  lemma SwingProgress(s: State, h: History, t: nat, call: Call, c: seq<int>, items: seq<Item>)
    requires Ready(s, h, t, call, c, items) && s.threads[t].EnqSwing?
    ensures Progress(s, h, t, call, c, items)
  {
    var i := s.threads[t].node;
    assert HasRoom(|s.m.nodes|, c);
  }

  // ------------------------------------------------------- dequeueing and asking

  lemma EmptyIsShort(m: Memory, chain: seq<int>)
    requires IsChain(m, chain)
    ensures Content(m, chain) == [] <==> m.nodes[m.qhead.index].next.index == -1
    ensures |chain| > 1 ==> m.nodes[m.qhead.index].next.index == chain[1]
  {
    if |chain| > 1 { ChainNext(m, chain, 0); }
  }

  lemma EmptyTail(m: Memory, chain: seq<int>)
    requires IsChain(m, chain) && m.qtail.index in chain && Content(m, chain) == []
    ensures m.qtail.index == m.qhead.index
  {
  }

  lemma HeadProgress(s: State, h: History, t: nat, call: Call, c: seq<int>, items: seq<Item>)
    requires Knows(s, h, t, call, c, items) && (s.threads[t].DeqLoadHead? || s.threads[t].DeqLoadTail?)
    ensures Progress(s, h, t, call, c, items)
  {
    var pc := s.threads[t];
    QuietProgress(s, h, t, call, c, items, if pc.DeqLoadHead? then DeqLoadTail(s.m.qhead) else DeqLoadNext(pc.head, s.m.qtail));
  }

  lemma NextProgress(s: State, h: History, t: nat, call: Call, c: seq<int>, items: seq<Item>)
    requires Knows(s, h, t, call, c, items) && (s.threads[t].DeqLoadNext? || s.threads[t].DeqLoadValue?)
    ensures Progress(s, h, t, call, c, items)
  {
    var pc, nodes := s.threads[t], s.m.nodes;
    if pc.DeqLoadNext? {
      QuietProgress(s, h, t, call, c, items, DeqCheckHead(pc.head, pc.tail, nodes[pc.head.index].next));
    } else {
      QuietProgress(s, h, t, call, c, items, DeqSwing(pc.head, pc.next, nodes[pc.next.index].value));
    }
  }

  lemma CheckProgress(s: State, h: History, t: nat, call: Call, c: seq<int>, items: seq<Item>)
    requires Knows(s, h, t, call, c, items) && s.threads[t].DeqCheckHead?
    ensures Progress(s, h, t, call, c, items)
  {
    EmptyIsShort(s.m, h.chain);
    if items == [] { EmptyTail(s.m, h.chain); }
  }

  lemma TakeProgress(s: State, h: History, t: nat, call: Call, c: seq<int>, items: seq<Item>)
    requires Ready(s, h, t, call, c, items) && s.threads[t].DeqSwing?
    ensures Progress(s, h, t, call, c, items)
  {
    ThreadFacts(s, h, t);
  }

  lemma ReleaseProgress(s: State, h: History, t: nat, call: Call, c: seq<int>, items: seq<Item>)
    requires Ready(s, h, t, call, c, items) && s.threads[t].DeqRelease?
    ensures Progress(s, h, t, call, c, items)
  {
    ThreadFacts(s, h, t);
  }

  lemma AskProgress(s: State, h: History, t: nat, call: Call, c: seq<int>, items: seq<Item>)
    requires Knows(s, h, t, call, c, items) && EmptyReads(s.threads[t]) && !s.threads[t].EmptyCheck?
    ensures Progress(s, h, t, call, c, items)
  {
    var pc := s.threads[t];
    var pc1 := if pc.EmptyLoadHead? then EmptyLoadTail(s.m.qhead)
               else if pc.EmptyLoadTail? then EmptyLoadNext(pc.head, s.m.qtail)
               else EmptyCheck(pc.head, pc.tail, s.m.nodes[pc.head.index].next);
    QuietProgress(s, h, t, call, c, items, pc1);
  }

  lemma AnswerProgress(s: State, h: History, t: nat, call: Call, c: seq<int>, items: seq<Item>)
    requires Knows(s, h, t, call, c, items) && s.threads[t].EmptyCheck?
    ensures Progress(s, h, t, call, c, items)
  {
    EmptyIsShort(s.m, h.chain);
    if items == [] { EmptyTail(s.m, h.chain); }
  }

  lemma EnqueueProgress(s: State, h: History, t: nat, call: Call, c: seq<int>, items: seq<Item>)
    requires Ready(s, h, t, call, c, items) && Enqueuing(s.threads[t])
    ensures Progress(s, h, t, call, c, items)
  {
    ThreadFacts(s, h, t);
    var pc := s.threads[t];
    if pc.LoadFreeIndex? || pc.ResetFreeIndex? { ScanProgress(s, h, t, call, c, items); }
    else if pc.SecondScan? && pc.node >= |s.m.nodes| { RefuseProgress(s, h, t, call, c, items); }
    else if pc.FirstScan? || pc.SecondScan? { ProbeProgress(s, h, t, call, c, items); }
    else if pc.StoreFreeIndex? || pc.SetValue? || pc.SetNext? { FillProgress(s, h, t, call, c, items); }
    else if pc.EnqHelp? { HelpProgress(s, h, t, call, c, items); }
    else if pc.EnqLink? { LinkProgress(s, h, t, call, c, items); }
    else if pc.EnqSwing? { SwingProgress(s, h, t, call, c, items); }
    else if pc.EnqLoadTail? { LoadTailProgress(s, h, t, call, c, items); }
    else if pc.EnqLoadNext? { LoadNextProgress(s, h, t, call, c, items); }
    else { CheckTailProgress(s, h, t, call, c, items); }
  }

  lemma SoloProgress(s: State, h: History, t: nat, call: Call, c: seq<int>, items: seq<Item>)
    requires Ready(s, h, t, call, c, items)
    ensures Progress(s, h, t, call, c, items)
  {
    ThreadFacts(s, h, t);
    var pc := s.threads[t];
    if Enqueuing(pc) { EnqueueProgress(s, h, t, call, c, items); }
    else if pc.DeqHelp? { HelpProgress(s, h, t, call, c, items); }
    else if pc.DeqCheckHead? { CheckProgress(s, h, t, call, c, items); }
    else if pc.DeqLoadHead? || pc.DeqLoadTail? { HeadProgress(s, h, t, call, c, items); }
    else if pc.DeqLoadNext? || pc.DeqLoadValue? { NextProgress(s, h, t, call, c, items); }
    else if pc.EmptyCheck? { AnswerProgress(s, h, t, call, c, items); }
    else if EmptyReads(pc) { AskProgress(s, h, t, call, c, items); }
    else if pc.DeqSwing? { TakeProgress(s, h, t, call, c, items); }
    else { ReleaseProgress(s, h, t, call, c, items); }
  }

  // ----------------------------------------------------------- the whole call

  /** After n turns of its thread, and not before, the call has returned the answer. */
  ghost predicate Returns(s: State, t: nat, call: Call, n: nat, answer: Result, s': State) {
    && t < |s.threads| && n > 0
    && var (r, trace) := Run(s, Solo(t, call, n));
    && r == s' && |trace| == n && trace[n - 1] == (t, Returned(answer))
    && forall k :: 0 <= k < n - 1 ==> !trace[k].1.Returned?
  }

  lemma ReturnsNow(s: State, t: nat, call: Call)
    requires t < |s.threads| && Step(s, t, call).1.Returned?
    ensures Returns(s, t, call, 1, Step(s, t, call).1.result, Step(s, t, call).0)
  {
    assert Solo(t, call, 1)[1..] == [];
  }

  lemma ReturnsLater(s: State, t: nat, call: Call, n: nat, answer: Result, s': State)
    requires t < |s.threads| && !Step(s, t, call).1.Returned? && Returns(Step(s, t, call).0, t, call, n, answer, s')
    ensures Returns(s, t, call, n + 1, answer, s')
  {
    assert Solo(t, call, n + 1)[1..] == Solo(t, call, n);
  }

  lemma {:induction false} SoloReturns(s: State, h: History, t: nat, call: Call, c: seq<int>, items: seq<Item>)
    returns (n: nat, answer: Result, s': State, h': History)
    requires Inv(s, h) && Alone(s, t) && !s.threads[t].Idle?
    requires Fresh(s.m, s.threads[t]) && Story(s.m, h, s.threads[t], call, c, items)
    ensures Returns(s, t, call, n, answer, s') && Inv(s', h') && AtRest(s')
    ensures Outcome(|s.m.nodes|, call, c, items, answer, h'.chain, Content(s'.m, h'.chain))
    decreases Group(s.threads[t]), Rest(s.m, h.chain, s.threads[t])
  {
    SoloStep(s, h, t, call);
    SoloProgress(s, h, t, call, c, items);
    var (s1, e) := Step(s, t, call);
    var h1 := After(h, t, s.threads[t], e);
    if e.Returned? {
      ReturnsNow(s, t, call);
      n, answer, s', h' := 1, e.result, s1, h1;
    } else {
      n, answer, s', h' := SoloReturns(s1, h1, t, call, c, items);
      ReturnsLater(s, t, call, n, answer, s');
      n := n + 1;
    }
  }

  /** A call of one thread while the others are idle. */
  lemma SoloCall(s: State, h: History, t: nat, call: Call) returns (n: nat, answer: Result, s': State, h': History)
    requires Inv(s, h) && AtRest(s) && t < |s.threads|
    ensures Returns(s, t, call, n, answer, s') && Inv(s', h') && AtRest(s')
    ensures Outcome(|s.m.nodes|, call, h.chain, Content(s.m, h.chain), answer, h'.chain, Content(s'.m, h'.chain))
  {
    SoloStep(s, h, t, call);
    var s1 := Step(s, t, call).0;
    n, answer, s', h' := SoloReturns(s1, h, t, call, h.chain, Content(s.m, h.chain));
    ReturnsLater(s, t, call, n, answer, s');
    n := n + 1;
  }

  // --------------------------------------------------------------- the claim

  /** n turns of one thread, and then the others. */
  lemma SoloFirst(s: State, t: nat, call: Call, n: nat)
    requires t < |s.threads| && n > 0
    ensures Run(s, Solo(t, call, n)).0 == Run(Step(s, t, call).0, Solo(t, call, n - 1)).0
  {
    assert Solo(t, call, n)[1..] == Solo(t, call, n - 1);
  }

  /** The first scan takes the first free node at or behind its place, and the next scan will start behind that node. */
  lemma {:induction false} ScanTakes(s: State, t: nat, call: Call, item: Item, k: nat, i: nat)
    requires t < |s.threads| && s.threads[t] == FirstScan(item, k) && k <= i < |s.m.nodes| && s.m.nodes[i].free
    requires forall j :: k <= j < i ==> !s.m.nodes[j].free
    ensures Run(s, Solo(t, call, i - k + 2)).0 == State(SetFree(s.m, i, false), i + 1, s.threads[t := SetValue(item, i)])
    decreases i - k
  {
    var s1 := Step(s, t, call).0;
    SoloFirst(s, t, call, i - k + 2);
    if k < i {
      ScanTakes(s1, t, call, item, k + 1, i);
    } else {
      SoloFirst(s1, t, call, 1);
    }
  }

  /** An Enqueue that goes on alone takes the first free node from free_index on, if there is one. */
  lemma EnqueueTakes(s: State, t: nat, item: Item, i: nat)
    requires t < |s.threads| && s.threads[t].Idle? && 0 <= s.freeIndex <= i < |s.m.nodes| && s.m.nodes[i].free
    requires forall j :: s.freeIndex <= j < i ==> !s.m.nodes[j].free
    ensures Run(s, Solo(t, CallEnqueue(item), i - s.freeIndex + 4)).0 ==
            State(SetFree(s.m, i, false), i + 1, s.threads[t := SetValue(item, i)])
  {
    var call, n := CallEnqueue(item), i - s.freeIndex + 4;
    var s1 := Step(s, t, call).0;
    SoloFirst(s, t, call, n);
    SoloFirst(s1, t, call, n - 1);
    ScanTakes(Step(s1, t, call).0, t, call, item, s.freeIndex, i);
  }

  // -------------------------------------------------------------- the capacity

  /** Node 0 can be linked only as the first dummy. */
  predicate ZeroFirst(chain: seq<int>) {
    forall k :: 0 < k < |chain| ==> chain[k] != 0
  }

  lemma ZeroStep(s: State, h: History, t: nat, call: Call)
    requires Inv(s, h) && t < |s.threads| && GoodStep(s, h, t, call) && ZeroFirst(h.chain)
    ensures var (s1, e) := Step(s, t, call);
      var h1 := After(h, t, s.threads[t], e);
      ZeroFirst(h1.chain) && (0 in h1.chain <==> 0 in h.chain && !e.Unlinked?)
  {
    ThreadFacts(s, h, t);
    var e := Step(s, t, call).1;
    if e.Linked? { LinkedIsClaimed(s, t, call); }
    if e.Unlinked? { assert h.chain[0] in h.chain; }
  }

  lemma LinkedIsClaimed(s: State, t: nat, call: Call)
    requires t < |s.threads| && Step(s, t, call).1.Linked?
    ensures s.threads[t].EnqLink? && Step(s, t, call).1.node == s.threads[t].node
  {
  }

  /** Node 0 is linked as long as no item has been taken. */
  lemma {:induction false} ZeroLeaves(s: State, h: History, schedule: seq<Turn>) returns (h': History)
    requires Inv(s, h) && FitsThreads(schedule, |s.threads|) && Guarded(s, schedule) && ZeroFirst(h.chain)
    ensures Inv(Run(s, schedule).0, h') && ZeroFirst(h'.chain)
    ensures 0 in h'.chain <==> 0 in h.chain && Left(Run(s, schedule).1) == []
    decreases |schedule|
  {
    h' := h;
    if schedule != [] {
      var t, call := schedule[0].thread, schedule[0].call;
      StepIsGood(s, h, t, call);
      ZeroStep(s, h, t, call);
      var (s1, e) := Step(s, t, call);
      h' := ZeroLeaves(s1, After(h, t, s.threads[t], e), schedule[1..]);
      TraceStep(t, e, Run(s1, schedule[1..]).1);
    }
  }

  /** The answer of a bounded first-in first-out queue, and its items afterwards. */
  function Bounded(call: Call, items: seq<Item>, capacity: int): (Result, seq<Item>) {
    match call
    case CallEnqueue(item) =>
      if |items| < capacity then (Enqueued(item, true), items + [item]) else (Enqueued(item, false), items)
    case CallDequeue => if items == [] then (Dequeued(None), []) else (Dequeued(Some(items[0])), items[1..])
    case CallEmpty => (Emptiness(items == []), items)
  }

  /** The history of a guarded run, for the one chain its memory has. */
  lemma {:induction false} HistoryOf(size: nat, threadCount: nat, schedule: seq<Turn>, chain: seq<int>) returns (h: History)
    requires size > 0 && FitsThreads(schedule, threadCount) && Guarded(Init(size, threadCount), schedule)
    requires IsChain(Run(Init(size, threadCount), schedule).0.m, chain)
    ensures
      var (s, trace) := Run(Init(size, threadCount), schedule);
      && Inv(s, h) && ZeroFirst(h.chain) && h.chain == chain && |s.m.nodes| == size
      && (0 in h.chain <==> Left(trace) == [])
  {
    var s := Run(Init(size, threadCount), schedule).0;
    InitInv(size, threadCount);
    h := ZeroLeaves(Init(size, threadCount), History([0], seq(size, i => if i == 0 then InChain else Free)), schedule);
    if |chain| <= |h.chain| { ChainIsUnique(s.m, chain, h.chain); } else { ChainIsUnique(s.m, h.chain, chain); }
    NodesStay(Init(size, threadCount), schedule);
  }

  /**
    After any guarded run that has come to rest, a call that no other thread disturbs returns, and
    answers like a queue bounded by n - 1 before the first item has been taken, and by n - 2 after it.
    */
  lemma {:induction false} CallAtRest(size: nat, threadCount: nat, schedule: seq<Turn>, t: nat, call: Call, chain: seq<int>)
    returns (n: nat, s': State, chain': seq<int>)
    requires size > 0 && FitsThreads(schedule, threadCount) && Guarded(Init(size, threadCount), schedule) && t < threadCount
    requires AtRest(Run(Init(size, threadCount), schedule).0) && IsChain(Run(Init(size, threadCount), schedule).0.m, chain)
    ensures
      var (s, trace) := Run(Init(size, threadCount), schedule);
      var (answer, items) := Bounded(call, Content(s.m, chain), size - if Left(trace) == [] then 1 else 2);
      Returns(s, t, call, n, answer, s') && AtRest(s') && IsChain(s'.m, chain') && Content(s'.m, chain') == items
  {
    var s := Run(Init(size, threadCount), schedule).0;
    var h := HistoryOf(size, threadCount, schedule, chain);
    var h';
    n, s', h' := CallFrom(s, h, t, call);
    chain' := h'.chain;
  }

  lemma CallFrom(s: State, h: History, t: nat, call: Call) returns (n: nat, s': State, h': History)
    requires Inv(s, h) && AtRest(s) && t < |s.threads| && ZeroFirst(h.chain) && |s.m.nodes| > 0
    ensures
      var (answer, items) := Bounded(call, Content(s.m, h.chain), |s.m.nodes| - if 0 in h.chain then 1 else 2);
      Returns(s, t, call, n, answer, s') && Inv(s', h') && AtRest(s') && Content(s'.m, h'.chain) == items
  {
    var answer;
    n, answer, s', h' := SoloCall(s, h, t, call);
    OutcomeIsBounded(s.m, call, h.chain, answer, h'.chain, Content(s'.m, h'.chain));
  }

  lemma OutcomeIsBounded(m: Memory, call: Call, c: seq<int>, answer: Result, c': seq<int>, items': seq<Item>)
    requires IsChain(m, c) && ZeroFirst(c) && Outcome(|m.nodes|, call, c, Content(m, c), answer, c', items')
    ensures (answer, items') == Bounded(call, Content(m, c), |m.nodes| - if 0 in c then 1 else 2)
  {
    HQueueSequential.FreeNodeExists(c, |m.nodes|);
  }
}
