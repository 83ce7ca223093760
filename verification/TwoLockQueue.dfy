/**
  The two-lock queue of libc/concurrent_queue.cc as a state machine: one step per
  memory access, lock operation, malloc or free of one thread.  The heap holds the
  live nodes only; touching any other address, or freeing it, is a Fault.
  */
module TwoLockQueue {
  import opened Options
  import opened FifoTrace

  type Addr = int
  const NULL: Addr := 0

  datatype Cell = Cell(data: Item, next: Addr)

  datatype Memory = Memory(heap: map<Addr, Cell>, head: Addr, tail: Addr)

  datatype Pc =
    | Idle
    // concurrent_queue_enqueue
    | EnqMalloc(item: Item)
    | EnqSetData(item: Item, node: Addr)
    | EnqSetNext(item: Item, node: Addr)
    | EnqLockTail(item: Item, node: Addr)
    | EnqLink(item: Item, node: Addr)
    | EnqSwing(item: Item, node: Addr)
    | EnqUnlockTail(item: Item)
    // concurrent_queue_dequeue (blocking) and concurrent_queue_try_dequeue
    | DeqLockHead(blocking: bool)
    | DeqTest(blocking: bool)
    | DeqWait
    | DeqUnlockEmpty
    | DeqReadHead
    | DeqReadNext(dummy: Addr)
    | DeqReadData(dummy: Addr, node: Addr)
    | DeqSwing(dummy: Addr, node: Addr, item: Item)
    | DeqUnlockHead(dummy: Addr, item: Item)
    | DeqFree(dummy: Addr, item: Item)

  datatype Call = CallEnqueue(item: Item) | CallDequeue(blocking: bool)

  /** Whose turn it is, what it calls if it is idle, what malloc answers if it is asked. */
  datatype Turn = Turn(thread: nat, call: Call, address: Addr)

  datatype State = State(m: Memory, headLock: Option<nat>, tailLock: Option<nat>, threads: seq<Pc>)

  function Init(dummy: Addr, threadCount: nat): State {
    State(Memory(map[dummy := Cell(0, NULL)], dummy, dummy), None, None, seq(threadCount, i => Idle))
  }

  function Go(s: State, t: nat, m: Memory, pc: Pc): (r: (State, Event))
    requires t < |s.threads|
    ensures |r.0.threads| == |s.threads|
  {
    (s.(m := m, threads := s.threads[t := pc]), Silent)
  }

  function PutData(m: Memory, node: Addr, item: Item): Memory
    requires node in m.heap
  {
    m.(heap := m.heap[node := m.heap[node].(data := item)])
  }

  function PutNext(m: Memory, node: Addr, next: Addr): Memory
    requires node in m.heap
  {
    m.(heap := m.heap[node := m.heap[node].(next := next)])
  }

  function Step(s: State, turn: Turn): (r: (State, Event))
    requires turn.thread < |s.threads|
    ensures |r.0.threads| == |s.threads|
  {
    var t, m := turn.thread, s.m;
    match s.threads[t]
    case Idle =>
      Go(s, t, m, match turn.call case CallEnqueue(item) => EnqMalloc(item) case CallDequeue(b) => DeqLockHead(b))
    case EnqMalloc(item) =>
      // malloc returns any address that is not in use, possibly one freed before.
      if turn.address == NULL || turn.address in m.heap then (s, Silent)
      else Go(s, t, m.(heap := m.heap[turn.address := Cell(0, NULL)]), EnqSetData(item, turn.address))
    case EnqSetData(item, node) =>
      if node !in m.heap then (s, Fault) else Go(s, t, PutData(m, node, item), EnqSetNext(item, node))
    case EnqSetNext(item, node) =>
      if node !in m.heap then (s, Fault) else Go(s, t, PutNext(m, node, NULL), EnqLockTail(item, node))
    case EnqLockTail(item, node) =>
      if s.tailLock != None then (s, Silent) else Go(s.(tailLock := Some(t)), t, m, EnqLink(item, node))
    case EnqLink(item, node) =>
      if m.tail !in m.heap then (s, Fault)
      else (s.(m := PutNext(m, m.tail, node), threads := s.threads[t := EnqSwing(item, node)]), Linked(node, item))
    case EnqSwing(item, node) => Go(s, t, m.(tail := node), EnqUnlockTail(item))
    case EnqUnlockTail(item) =>
      (s.(tailLock := None, threads := s.threads[t := Idle]), Returned(Enqueued(item, true)))
    case DeqLockHead(b) =>
      if s.headLock != None then (s, Silent) else Go(s.(headLock := Some(t)), t, m, DeqTest(b))
    case DeqTest(b) =>
      if m.head !in m.heap then (s, Fault)
      else if m.heap[m.head].next != NULL then Go(s, t, m, DeqReadHead)
      else if b then Go(s.(headLock := None), t, m, DeqWait)
      else Go(s, t, m, DeqUnlockEmpty)
    case DeqWait =>
      // pthread_cond_wait comes back at any time, holding the lock again.
      if s.headLock != None then (s, Silent) else Go(s.(headLock := Some(t)), t, m, DeqTest(true))
    case DeqUnlockEmpty => (s.(headLock := None, threads := s.threads[t := Idle]), Returned(Dequeued(None)))
    case DeqReadHead => Go(s, t, m, DeqReadNext(m.head))
    case DeqReadNext(dummy) =>
      if dummy !in m.heap then (s, Fault) else Go(s, t, m, DeqReadData(dummy, m.heap[dummy].next))
    case DeqReadData(dummy, node) =>
      if node !in m.heap then (s, Fault) else Go(s, t, m, DeqSwing(dummy, node, m.heap[node].data))
    case DeqSwing(dummy, node, item) =>
      (s.(m := m.(head := node), threads := s.threads[t := DeqUnlockHead(dummy, item)]), Unlinked(item))
    case DeqUnlockHead(dummy, item) => Go(s.(headLock := None), t, m, DeqFree(dummy, item))
    case DeqFree(dummy, item) =>
      if dummy !in m.heap then (s, Fault)
      else (s.(m := m.(heap := m.heap - {dummy}), threads := s.threads[t := Idle]), Returned(Dequeued(Some(item))))
  }

  predicate FitsThreads(schedule: seq<Turn>, threadCount: nat) {
    forall k :: 0 <= k < |schedule| ==> schedule[k].thread < threadCount
  }

  function Run(s: State, schedule: seq<Turn>): (State, Trace)
    requires FitsThreads(schedule, |s.threads|)
    ensures |Run(s, schedule).0.threads| == |s.threads|
    decreases |schedule|
  {
    if schedule == [] then (s, [])
    else
      var (s1, e) := Step(s, schedule[0]);
      var (s2, trace) := Run(s1, schedule[1..]);
      (s2, [(schedule[0].thread, e)] + trace)
  }
}
