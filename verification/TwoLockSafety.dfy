/** FIFO order and memory safety of the two-lock queue over all runs. */
module TwoLockSafety {
  import opened Options
  import opened FifoTrace
  import opened TwoLockQueue

  /** The linked nodes, dummy first, and the owner of every live node that is not linked. */
  datatype History = History(chain: seq<Addr>, owner: map<Addr, nat>)

  ghost predicate IsChain(m: Memory, chain: seq<Addr>) {
    && |chain| >= 1
    && chain[0] == m.head
    && (forall k :: 0 <= k < |chain| ==> chain[k] in m.heap && chain[k] != NULL)
    && (forall k, l :: 0 <= k < l < |chain| ==> chain[k] != chain[l])
    && (forall k :: 0 <= k < |chain| - 1 ==> m.heap[chain[k]].next == chain[k + 1])
    && m.heap[chain[|chain| - 1]].next == NULL
  }

  function Items(heap: map<Addr, Cell>, nodes: seq<Addr>): seq<Item> {
    seq(|nodes|, k requires 0 <= k < |nodes| => if nodes[k] in heap then heap[nodes[k]].data else 0)
  }

  /** The queued items: the data behind the dummy. */
  function Content(m: Memory, chain: seq<Addr>): seq<Item> {
    if chain == [] then [] else Items(m.heap, chain[1..])
  }

  // ----------------------------------------------------------------- invariant

  function OwnNode(pc: Pc): Addr {
    match pc
    case EnqSetData(_, node) => node
    case EnqSetNext(_, node) => node
    case EnqLockTail(_, node) => node
    case EnqLink(_, node) => node
    case DeqUnlockHead(dummy, _) => dummy
    case DeqFree(dummy, _) => dummy
    case _ => NULL
  }

  predicate HoldsTail(pc: Pc) {
    pc.EnqLink? || pc.EnqSwing? || pc.EnqUnlockTail?
  }

  predicate HoldsHead(pc: Pc) {
    pc.DeqTest? || pc.DeqUnlockEmpty? || pc.DeqReadHead? || pc.DeqReadNext? || pc.DeqReadData? ||
    pc.DeqSwing? || pc.DeqUnlockHead?
  }

  ghost predicate Filled(m: Memory, item: Item, node: Addr) {
    node in m.heap && m.heap[node] == Cell(item, NULL)
  }

  ghost predicate Local(m: Memory, chain: seq<Addr>, pc: Pc) {
    match pc
    case EnqSetData(_, node) => node != NULL
    case EnqSetNext(item, node) => node != NULL && node in m.heap && m.heap[node].data == item
    case EnqLockTail(item, node) => node != NULL && Filled(m, item, node)
    case EnqLink(item, node) => node != NULL && Filled(m, item, node) && |chain| >= 1 && m.tail == chain[|chain| - 1]
    case EnqSwing(item, node) => |chain| >= 1 && node == chain[|chain| - 1]
    case EnqUnlockTail(item) => |chain| >= 1 && m.tail == chain[|chain| - 1]
    case DeqReadHead => |chain| >= 2
    case DeqReadNext(dummy) => |chain| >= 2 && dummy == chain[0]
    case DeqReadData(dummy, node) => |chain| >= 2 && dummy == chain[0] && node == chain[1]
    case DeqSwing(dummy, node, item) =>
      |chain| >= 2 && dummy == chain[0] && node == chain[1] && node in m.heap && m.heap[node].data == item
    case DeqUnlockHead(dummy, _) => dummy != NULL
    case DeqFree(dummy, _) => dummy != NULL
    case _ => true
  }

  /** Every live node is linked or owned by exactly one thread: nothing leaks, nothing dangles. */
  ghost predicate Shape(m: Memory, h: History) {
    && IsChain(m, h.chain)
    && (forall a :: a in m.heap <==> a in h.chain || a in h.owner)
    && (forall a :: a in h.owner ==> a !in h.chain && a != NULL)
  }

  ghost predicate Owns(owner: map<Addr, nat>, t: nat, pc: Pc) {
    OwnNode(pc) != NULL ==> OwnNode(pc) in owner && owner[OwnNode(pc)] == t
  }

  ghost predicate Ownership(owner: map<Addr, nat>, threads: seq<Pc>) {
    && (forall t :: 0 <= t < |threads| ==> Owns(owner, t, threads[t]))
    && (forall a :: a in owner ==> owner[a] < |threads| && OwnNode(threads[owner[a]]) == a)
  }

  ghost predicate Locks(s: State) {
    && (forall t :: 0 <= t < |s.threads| ==> (HoldsHead(s.threads[t]) <==> s.headLock == Some(t)))
    && (forall t :: 0 <= t < |s.threads| ==> (HoldsTail(s.threads[t]) <==> s.tailLock == Some(t)))
    && (s.headLock.Some? ==> s.headLock.value < |s.threads|)
    && (s.tailLock.Some? ==> s.tailLock.value < |s.threads|)
  }

  ghost predicate AllLocal(m: Memory, chain: seq<Addr>, threads: seq<Pc>) {
    forall t :: 0 <= t < |threads| ==> Local(m, chain, threads[t])
  }

  ghost predicate Inv(s: State, h: History) {
    && Shape(s.m, h)
    && Ownership(h.owner, s.threads)
    && Locks(s)
    && AllLocal(s.m, h.chain, s.threads)
    && (s.tailLock == None ==> s.m.tail == h.chain[|h.chain| - 1])
  }

  // ------------------------------------------------------------- small lemmas

  lemma ChainNext(m: Memory, chain: seq<Addr>, k: nat)
    requires IsChain(m, chain) && k < |chain| - 1
    ensures m.heap[chain[k]].next == chain[k + 1] != NULL
  {
  }

  lemma SameItems(heap: map<Addr, Cell>, heap': map<Addr, Cell>, nodes: seq<Addr>)
    requires forall k :: 0 <= k < |nodes| ==> nodes[k] in heap && nodes[k] in heap' && heap'[nodes[k]].data == heap[nodes[k]].data
    ensures Items(heap', nodes) == Items(heap, nodes)
  {
  }

  lemma KeepOwnership(owner: map<Addr, nat>, threads: seq<Pc>, t: nat, pc: Pc)
    requires Ownership(owner, threads) && t < |threads| && OwnNode(pc) == OwnNode(threads[t])
    ensures Ownership(owner, threads[t := pc])
  {
    var threads' := threads[t := pc];
    forall u | 0 <= u < |threads| ensures Owns(owner, u, threads'[u]) {
      assert Owns(owner, u, threads[u]);
    }
  }

  lemma TakeOwnership(owner: map<Addr, nat>, threads: seq<Pc>, t: nat, pc: Pc)
    requires Ownership(owner, threads) && t < |threads|
    requires OwnNode(threads[t]) == NULL && OwnNode(pc) != NULL && OwnNode(pc) !in owner && NULL !in owner
    ensures Ownership(owner[OwnNode(pc) := t], threads[t := pc])
  {
    var owner', threads' := owner[OwnNode(pc) := t], threads[t := pc];
    forall u | 0 <= u < |threads| ensures Owns(owner', u, threads'[u]) {
      assert Owns(owner, u, threads[u]);
    }
  }

  lemma GiveUpOwnership(owner: map<Addr, nat>, threads: seq<Pc>, t: nat, pc: Pc)
    requires Ownership(owner, threads) && t < |threads|
    requires OwnNode(threads[t]) != NULL && OwnNode(pc) == NULL
    ensures Ownership(owner - {OwnNode(threads[t])}, threads[t := pc])
  {
    var owner', threads' := owner - {OwnNode(threads[t])}, threads[t := pc];
    assert Owns(owner, t, threads[t]);
    forall u | 0 <= u < |threads| ensures Owns(owner', u, threads'[u]) {
      assert Owns(owner, u, threads[u]);
    }
  }

  // -------------------------------------------------------- the steps, by kind

  ghost predicate Good(s: State, h: History, s': State, e: Event, h': History) {
    && Inv(s', h')
    && e != Fault
    && (match e
        case Linked(_, item) => Content(s'.m, h'.chain) == Content(s.m, h.chain) + [item]
        case Unlinked(item) => Content(s.m, h.chain) == [item] + Content(s'.m, h'.chain)
        case _ => Content(s'.m, h'.chain) == Content(s.m, h.chain))
  }

  /** No memory changes; locks may be taken or released. */
  lemma QuietStep(s: State, h: History, t: nat, s': State, pc: Pc, e: Event)
    requires Inv(s, h) && t < |s.threads|
    requires s' == s.(threads := s.threads[t := pc], headLock := s'.headLock, tailLock := s'.tailLock)
    requires OwnNode(pc) == OwnNode(s.threads[t]) && Local(s.m, h.chain, pc)
    requires Locks(s') && (s'.tailLock == None ==> s.m.tail == h.chain[|h.chain| - 1])
    requires !e.Linked? && !e.Unlinked? && e != Fault
    ensures Good(s, h, s', e, h)
  {
    KeepOwnership(h.owner, s.threads, t, pc);
  }

  lemma MallocStep(s: State, h: History, t: nat, item: Item, a: Addr)
    requires Inv(s, h) && t < |s.threads| && s.threads[t] == EnqMalloc(item) && a != NULL && a !in s.m.heap
    ensures
      var m' := s.m.(heap := s.m.heap[a := Cell(0, NULL)]);
      Good(s, h, s.(m := m', threads := s.threads[t := EnqSetData(item, a)]), Silent, h.(owner := h.owner[a := t]))
  {
    var m' := s.m.(heap := s.m.heap[a := Cell(0, NULL)]);
    TakeOwnership(h.owner, s.threads, t, EnqSetData(item, a));
    SameItems(s.m.heap, m'.heap, h.chain[1..]);
    forall u | 0 <= u < |s.threads| ensures Local(m', h.chain, s.threads[u]) {
      assert Local(s.m, h.chain, s.threads[u]);
    }
  }

  /** An enqueuer fills in the node that it owns. */
  lemma WriteStep(s: State, h: History, t: nat, node: Addr, cell: Cell, pc: Pc)
    requires Inv(s, h) && t < |s.threads| && OwnNode(s.threads[t]) == node == OwnNode(pc) && node != NULL
    requires !HoldsHead(s.threads[t]) && !HoldsTail(s.threads[t]) && !HoldsHead(pc) && !HoldsTail(pc)
    requires Local(s.m.(heap := s.m.heap[node := cell]), h.chain, pc)
    ensures node in s.m.heap
    ensures Good(s, h, s.(m := s.m.(heap := s.m.heap[node := cell]), threads := s.threads[t := pc]), Silent, h)
  {
    var m' := s.m.(heap := s.m.heap[node := cell]);
    assert Owns(h.owner, t, s.threads[t]);
    KeepOwnership(h.owner, s.threads, t, pc);
    SameItems(s.m.heap, m'.heap, h.chain[1..]);
    forall u | 0 <= u < |s.threads| && u != t ensures Local(m', h.chain, s.threads[u]) {
      assert Local(s.m, h.chain, s.threads[u]) && Owns(h.owner, u, s.threads[u]);
    }
  }

  lemma LinkLocal(m: Memory, chain: seq<Addr>, node: Addr, pc: Pc)
    requires IsChain(m, chain) && m.tail == chain[|chain| - 1] && OwnNode(pc) != m.tail && !HoldsTail(pc)
    requires Local(m, chain, pc)
    ensures Local(PutNext(m, m.tail, node), chain + [node], pc)
  {
  }

  lemma LinkShape(m: Memory, h: History, node: Addr)
    requires Shape(m, h) && m.tail == h.chain[|h.chain| - 1] && node in h.owner && m.heap[node].next == NULL
    ensures Shape(PutNext(m, m.tail, node), History(h.chain + [node], h.owner - {node}))
    ensures Content(PutNext(m, m.tail, node), h.chain + [node]) == Content(m, h.chain) + [m.heap[node].data]
  {
    assert (h.chain + [node])[1..] == h.chain[1..] + [node];
  }

  lemma LinkStep(s: State, h: History, t: nat, item: Item, node: Addr)
    requires Inv(s, h) && t < |s.threads| && s.threads[t] == EnqLink(item, node)
    ensures s.m.tail in s.m.heap
    ensures
      var s' := s.(m := PutNext(s.m, s.m.tail, node), threads := s.threads[t := EnqSwing(item, node)]);
      Good(s, h, s', Linked(node, item), History(h.chain + [node], h.owner - {node}))
  {
    var c := h.chain;
    assert Local(s.m, c, s.threads[t]) && Owns(h.owner, t, s.threads[t]);
    assert s.m.tail in c;
    var m', h' := PutNext(s.m, s.m.tail, node), History(c + [node], h.owner - {node});
    LinkShape(s.m, h, node);
    GiveUpOwnership(h.owner, s.threads, t, EnqSwing(item, node));
    forall u | 0 <= u < |s.threads| && u != t ensures Local(m', h'.chain, s.threads[u]) {
      assert Local(s.m, c, s.threads[u]) && Owns(h.owner, u, s.threads[u]);
      LinkLocal(s.m, c, node, s.threads[u]);
    }
  }

  lemma SwingTailStep(s: State, h: History, t: nat, item: Item, node: Addr)
    requires Inv(s, h) && t < |s.threads| && s.threads[t] == EnqSwing(item, node)
    ensures Good(s, h, s.(m := s.m.(tail := node), threads := s.threads[t := EnqUnlockTail(item)]), Silent, h)
  {
    var m' := s.m.(tail := node);
    assert Local(s.m, h.chain, s.threads[t]);
    KeepOwnership(h.owner, s.threads, t, EnqUnlockTail(item));
    forall u | 0 <= u < |s.threads| && u != t ensures Local(m', h.chain, s.threads[u]) {
      assert Local(s.m, h.chain, s.threads[u]);
    }
  }

  lemma UnlinkLocal(m: Memory, chain: seq<Addr>, pc: Pc)
    requires IsChain(m, chain) && |chain| >= 2 && (!HoldsHead(pc) || pc.DeqUnlockHead?)
    requires Local(m, chain, pc)
    ensures Local(m.(head := chain[1]), chain[1..], pc)
  {
  }

  lemma UnlinkContent(m: Memory, chain: seq<Addr>)
    requires |chain| >= 2 && chain[1] in m.heap
    ensures Content(m, chain) == [m.heap[chain[1]].data] + Content(m.(head := chain[1]), chain[1..])
  {
    assert chain[1..] == [chain[1]] + chain[1..][1..];
  }

  lemma UnlinkShape(m: Memory, h: History, t: nat)
    requires Shape(m, h) && |h.chain| >= 2
    ensures Shape(m.(head := h.chain[1]), History(h.chain[1..], h.owner[h.chain[0] := t]))
  {
    var c := h.chain;
    assert IsChain(m.(head := c[1]), c[1..]);
    forall a ensures a in c <==> a in c[1..] || a == c[0] {
      if a in c && a != c[0] {
        var k :| 0 <= k < |c| && c[k] == a;
        assert c[1..][k - 1] == a;
      }
    }
  }

  lemma UnlinkStep(s: State, h: History, t: nat, dummy: Addr, node: Addr, item: Item)
    requires Inv(s, h) && t < |s.threads| && s.threads[t] == DeqSwing(dummy, node, item)
    ensures
      var s' := s.(m := s.m.(head := node), threads := s.threads[t := DeqUnlockHead(dummy, item)]);
      |h.chain| >= 1 && Good(s, h, s', Unlinked(item), History(h.chain[1..], h.owner[dummy := t]))
  {
    var c := h.chain;
    assert Local(s.m, c, s.threads[t]);
    assert dummy in c && node in c;
    var m', h' := s.m.(head := node), History(c[1..], h.owner[dummy := t]);
    TakeOwnership(h.owner, s.threads, t, DeqUnlockHead(dummy, item));
    UnlinkShape(s.m, h, t);
    UnlinkContent(s.m, c);
    forall u | 0 <= u < |s.threads| && u != t ensures Local(m', h'.chain, s.threads[u]) {
      assert Local(s.m, c, s.threads[u]);
      UnlinkLocal(s.m, c, s.threads[u]);
    }
  }

  lemma FreeStep(s: State, h: History, t: nat, dummy: Addr, item: Item)
    requires Inv(s, h) && t < |s.threads| && s.threads[t] == DeqFree(dummy, item)
    ensures dummy in s.m.heap
    ensures
      var s' := s.(m := s.m.(heap := s.m.heap - {dummy}), threads := s.threads[t := Idle]);
      Good(s, h, s', Returned(Dequeued(Some(item))), h.(owner := h.owner - {dummy}))
  {
    var m' := s.m.(heap := s.m.heap - {dummy});
    assert Local(s.m, h.chain, s.threads[t]) && Owns(h.owner, t, s.threads[t]);
    GiveUpOwnership(h.owner, s.threads, t, Idle);
    SameItems(s.m.heap, m'.heap, h.chain[1..]);
    forall u | 0 <= u < |s.threads| && u != t ensures Local(m', h.chain, s.threads[u]) {
      assert Local(s.m, h.chain, s.threads[u]) && Owns(h.owner, u, s.threads[u]);
    }
  }

  // -------------------------------------------------------------- any one step

  lemma ThreadFacts(s: State, h: History, t: nat)
    requires Inv(s, h) && t < |s.threads|
    ensures Local(s.m, h.chain, s.threads[t]) && Owns(h.owner, t, s.threads[t])
    ensures HoldsHead(s.threads[t]) <==> s.headLock == Some(t)
    ensures HoldsTail(s.threads[t]) <==> s.tailLock == Some(t)
    ensures s.m.head == h.chain[0] && s.m.head in s.m.heap
    ensures s.m.heap[s.m.head].next == (if |h.chain| >= 2 then h.chain[1] else NULL)
    ensures |h.chain| >= 2 ==> h.chain[1] in s.m.heap && h.chain[1] != NULL
  {
    if |h.chain| >= 2 { ChainNext(s.m, h.chain, 0); }
  }

  /** Steps that change locks and program counters only. */
  lemma LockStep(s: State, h: History, turn: Turn)
    requires Inv(s, h) && turn.thread < |s.threads|
    requires
      var pc := s.threads[turn.thread];
      pc.Idle? || pc.EnqLockTail? || pc.EnqUnlockTail? || pc.DeqLockHead? || pc.DeqWait? || pc.DeqUnlockEmpty? || pc.DeqUnlockHead?
    ensures Good(s, h, Step(s, turn).0, Step(s, turn).1, h)
  {
    var t := turn.thread;
    ThreadFacts(s, h, t);
    var (s', e) := Step(s, turn);
    QuietStep(s, h, t, s', s'.threads[t], e);
  }

  /** Steps of a dequeuer that only read, holding the head lock. */
  lemma ReadStep(s: State, h: History, turn: Turn)
    requires Inv(s, h) && turn.thread < |s.threads|
    requires
      var pc := s.threads[turn.thread];
      pc.DeqTest? || pc.DeqReadHead? || pc.DeqReadNext? || pc.DeqReadData?
    ensures Good(s, h, Step(s, turn).0, Step(s, turn).1, h)
  {
    var t := turn.thread;
    ThreadFacts(s, h, t);
    var (s', e) := Step(s, turn);
    QuietStep(s, h, t, s', s'.threads[t], e);
  }

  /** Any step of any thread, whatever malloc answers, is a good step. */
  lemma StepIsGood(s: State, h: History, turn: Turn) returns (h': History)
    requires Inv(s, h) && turn.thread < |s.threads|
    ensures Good(s, h, Step(s, turn).0, Step(s, turn).1, h')
  {
    var t := turn.thread;
    h' := h;
    ThreadFacts(s, h, t);
    match s.threads[t]
    case EnqMalloc(item) =>
      if turn.address == NULL || turn.address in s.m.heap { Unchanged(s, h); }
      else { MallocStep(s, h, t, item, turn.address); h' := h.(owner := h.owner[turn.address := t]); }
    case EnqSetData(item, node) => WriteStep(s, h, t, node, s.m.heap[node].(data := item), EnqSetNext(item, node));
    case EnqSetNext(item, node) => WriteStep(s, h, t, node, s.m.heap[node].(next := NULL), EnqLockTail(item, node));
    case EnqLink(item, node) => LinkStep(s, h, t, item, node); h' := History(h.chain + [node], h.owner - {node});
    case EnqSwing(item, node) => SwingTailStep(s, h, t, item, node);
    case DeqSwing(dummy, node, item) =>
      UnlinkStep(s, h, t, dummy, node, item); h' := History(h.chain[1..], h.owner[dummy := t]);
    case DeqFree(dummy, item) => FreeStep(s, h, t, dummy, item); h' := h.(owner := h.owner - {dummy});
    case DeqTest(_) => ReadStep(s, h, turn);
    case DeqReadHead => ReadStep(s, h, turn);
    case DeqReadNext(_) => ReadStep(s, h, turn);
    case DeqReadData(_, _) => ReadStep(s, h, turn);
    case _ => LockStep(s, h, turn);
  }

  lemma Unchanged(s: State, h: History)
    requires Inv(s, h)
    ensures Good(s, h, s, Silent, h)
  {
  }

  // ------------------------------------------------------------------ whole runs

  lemma InitInv(dummy: Addr, threadCount: nat)
    requires dummy != NULL
    ensures Inv(Init(dummy, threadCount), History([dummy], map[])) && Content(Init(dummy, threadCount).m, [dummy]) == []
  {
  }

  ghost predicate Balanced(s: State, h: History, s': State, h': History, trace: Trace) {
    Inv(s', h') && NoFault(trace) && Content(s.m, h.chain) + Entered(trace) == Left(trace) + Content(s'.m, h'.chain)
  }

  lemma {:induction false} Compose(s: State, h: History, t: nat, e: Event, s1: State, h1: History, rest: Trace, s2: State, h2: History)
    requires Good(s, h, s1, e, h1) && Balanced(s1, h1, s2, h2, rest)
    ensures Balanced(s, h, s2, h2, [(t, e)] + rest)
  {
    TraceStep(t, e, rest);
    Telescope(Content(s.m, h.chain), EnteredBy(e), LeftBy(e), Content(s1.m, h1.chain),
              Entered(rest), Left(rest), Content(s2.m, h2.chain));
  }

  /** Every run is a run of a FIFO queue and touches live nodes only. */
  lemma {:induction false} RunIsFifo(s: State, h: History, schedule: seq<Turn>) returns (h': History)
    requires Inv(s, h) && FitsThreads(schedule, |s.threads|)
    ensures Balanced(s, h, Run(s, schedule).0, h', Run(s, schedule).1)
    decreases |schedule|
  {
    h' := h;
    if schedule == [] {
      assert Content(s.m, h.chain) + [] == [] + Content(s.m, h.chain);
    } else {
      var h1 := StepIsGood(s, h, schedule[0]);
      var r := Step(s, schedule[0]);
      h' := RunIsFifo(r.0, h1, schedule[1..]);
      var r2 := Run(r.0, schedule[1..]);
      Compose(s, h, schedule[0].thread, r.1, r.0, h1, r2.1, r2.0, h');
    }
  }

  /** From the initial state: what left is a prefix of what entered, the rest is queued. */
  lemma {:induction false} InitialRunIsFifo(dummy: Addr, threadCount: nat, schedule: seq<Turn>) returns (h: History)
    requires dummy != NULL && FitsThreads(schedule, threadCount)
    ensures
      var (s', trace) := Run(Init(dummy, threadCount), schedule);
      Inv(s', h) && NoFault(trace) && Entered(trace) == Left(trace) + Content(s'.m, h.chain)
  {
    InitInv(dummy, threadCount);
    h := RunIsFifo(Init(dummy, threadCount), History([dummy], map[]), schedule);
    var trace := Run(Init(dummy, threadCount), schedule).1;
    assert [] + Entered(trace) == Entered(trace);
  }

  /** Nothing leaks: a live node is linked, or it belongs to exactly one call in progress. */
  lemma LiveNodesAreAccountedFor(s: State, h: History, a: Addr)
    requires Inv(s, h) && a in s.m.heap
    ensures a !in h.chain ==> exists t :: 0 <= t < |s.threads| && OwnNode(s.threads[t]) == a
    ensures forall t, u :: 0 <= t < |s.threads| && 0 <= u < |s.threads| && OwnNode(s.threads[t]) == a == OwnNode(s.threads[u])
                           ==> t == u && a !in h.chain
  {
    forall t | 0 <= t < |s.threads| && OwnNode(s.threads[t]) == a ensures a in h.owner && h.owner[a] == t {
      assert Owns(h.owner, t, s.threads[t]);
    }
  }

  /** try_dequeue decides to answer "empty" only while the queue is empty. */
  lemma EmptyAnswerWasTrue(s: State, h: History, turn: Turn)
    requires Inv(s, h) && turn.thread < |s.threads|
    requires !s.threads[turn.thread].DeqUnlockEmpty? && Step(s, turn).0.threads[turn.thread].DeqUnlockEmpty?
    ensures Content(s.m, h.chain) == []
  {
    ThreadFacts(s, h, turn.thread);
  }

  // ------------------------------------------------------- what the calls return

  /** The item of a call that has had its effect but has not returned. */
  function LinkPending(pc: Pc): seq<Item> {
    if pc.EnqSwing? || pc.EnqUnlockTail? then [pc.item] else []
  }

  function UnlinkPending(pc: Pc): seq<Item> {
    if pc.DeqUnlockHead? || pc.DeqFree? then [pc.item] else []
  }

  lemma ReturnStep(s: State, turn: Turn)
    requires turn.thread < |s.threads|
    ensures
      var (t, (s', e)) := (turn.thread, Step(s, turn));
      && LinkPending(s.threads[t]) + EnteredBy(e) == Accepted(e) + LinkPending(s'.threads[t])
      && UnlinkPending(s.threads[t]) + LeftBy(e) == Delivered(e) + UnlinkPending(s'.threads[t])
      && forall u :: 0 <= u < |s.threads| && u != t ==> s'.threads[u] == s.threads[u]
  {
  }

  /** Each thread's calls return exactly what they did, up to one call still in progress. */
  lemma {:induction false} CallsReturnTheirEffects(s: State, schedule: seq<Turn>, t: nat)
    requires FitsThreads(schedule, |s.threads|) && t < |s.threads|
    ensures
      var (s', trace) := Run(s, schedule);
      var mine := EventsOf(trace, t);
      && LinkPending(s.threads[t]) + Entered(mine) == AllAccepted(mine) + LinkPending(s'.threads[t])
      && UnlinkPending(s.threads[t]) + Left(mine) == AllDelivered(mine) + UnlinkPending(s'.threads[t])
    decreases |schedule|
  {
    if schedule != [] {
      var u := schedule[0].thread;
      var (s1, e) := Step(s, schedule[0]);
      ReturnStep(s, schedule[0]);
      CallsReturnTheirEffects(s1, schedule[1..], t);
      var (s2, rest) := Run(s1, schedule[1..]);
      EventsStep(u, e, rest, t);
      if u == t {
        var r := EventsOf(rest, t);
        Telescope(LinkPending(s.threads[t]), EnteredBy(e), Accepted(e), LinkPending(s1.threads[t]),
                  Entered(r), AllAccepted(r), LinkPending(s2.threads[t]));
        Telescope(UnlinkPending(s.threads[t]), LeftBy(e), Delivered(e), UnlinkPending(s1.threads[t]),
                  Left(r), AllDelivered(r), UnlinkPending(s2.threads[t]));
      }
    }
  }
}
