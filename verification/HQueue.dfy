/**
  The lock-free queue of nice/include/hqueue.h as a state machine.  Every atomic
  access of `Enqueue`, `Dequeue` and `Empty` is one step of one thread; a schedule
  is any list of (thread, call) pairs, so a statement about all schedules is a
  statement about all interleavings of any number of threads.
  */
module HQueue {
  import opened Options
  import opened FifoTrace

  /** Versions are unbounded here, 32 bits wide in the program. */
  datatype Pointer = Pointer(index: int, version: nat)

  datatype Node = Node(next: Pointer, value: Item, free: bool)

  /** What a thread is about to do, with the locals it still needs. */
  datatype Pc =
    | Idle
    // Enqueue(item)
    | LoadFreeIndex(item: Item)
    | FirstScan(item: Item, node: int)
    | ResetFreeIndex(item: Item)
    | SecondScan(item: Item, node: int)
    | StoreFreeIndex(item: Item, node: int)
    | SetValue(item: Item, node: int)
    | SetNext(item: Item, node: int)
    | EnqLoadTail(item: Item, node: int)
    | EnqLoadNext(item: Item, node: int, tail: Pointer)
    | EnqCheckTail(item: Item, node: int, tail: Pointer, next: Pointer)
    | EnqHelp(item: Item, node: int, tail: Pointer, next: Pointer)
    | EnqLink(item: Item, node: int, tail: Pointer, next: Pointer)
    | EnqSwing(item: Item, node: int, tail: Pointer)
    // Dequeue()
    | DeqLoadHead
    | DeqLoadTail(head: Pointer)
    | DeqLoadNext(head: Pointer, tail: Pointer)
    | DeqCheckHead(head: Pointer, tail: Pointer, next: Pointer)
    | DeqHelp(tail: Pointer, next: Pointer)
    | DeqLoadValue(head: Pointer, next: Pointer)
    | DeqSwing(head: Pointer, next: Pointer, item: Item)
    | DeqRelease(head: Pointer, item: Item)
    // Empty()
    | EmptyLoadHead
    | EmptyLoadTail(head: Pointer)
    | EmptyLoadNext(head: Pointer, tail: Pointer)
    | EmptyCheck(head: Pointer, tail: Pointer, next: Pointer)

  datatype Call = CallEnqueue(item: Item) | CallDequeue | CallEmpty

  /** The shared memory that the two ends of the queue work on. */
  datatype Memory = Memory(nodes: seq<Node>, qhead: Pointer, qtail: Pointer)

  datatype State = State(m: Memory, freeIndex: int, threads: seq<Pc>)

  /** `Init(sz)` for a positive size, before any thread has called the queue. */
  function Init(size: nat, threadCount: nat): State
    requires size > 0
  {
    State(
      Memory(seq(size, i => Node(Pointer(-1, 0), 0, i != 0)), Pointer(0, 0), Pointer(0, 0)),
      1,
      seq(threadCount, i => Idle))
  }

  predicate InArray(m: Memory, i: int) {
    0 <= i < |m.nodes|
  }

  // ----------------------------------------------------------- memory updates

  function SetFree(m: Memory, i: int, free: bool): Memory
    requires InArray(m, i)
  {
    m.(nodes := m.nodes[i := m.nodes[i].(free := free)])
  }

  function PutValue(m: Memory, i: int, item: Item): Memory
    requires InArray(m, i)
  {
    m.(nodes := m.nodes[i := m.nodes[i].(value := item)])
  }

  function PutNext(m: Memory, i: int, next: Pointer): Memory
    requires InArray(m, i)
  {
    m.(nodes := m.nodes[i := m.nodes[i].(next := next)])
  }

  /** compare_exchange_strong on the tail; the thread goes on either way. */
  function CasTail(m: Memory, expected: Pointer, index: int): Memory {
    if m.qtail == expected then m.(qtail := Pointer(index, expected.version + 1)) else m
  }

  /** The successful compare_exchange on the head. */
  function AdvanceHead(m: Memory, index: int): Memory {
    m.(qhead := Pointer(index, m.qhead.version + 1))
  }

  // ---------------------------------------------------------------- one step

  /** Thread t goes on to pc, the shared memory becomes m. */
  function Go(s: State, t: nat, m: Memory, pc: Pc): (State, Event)
    requires t < |s.threads|
  {
    (State(m, s.freeIndex, s.threads[t := pc]), Silent)
  }

  function Return(s: State, t: nat, m: Memory, result: Result): (State, Event)
    requires t < |s.threads|
  {
    (State(m, s.freeIndex, s.threads[t := Idle]), Returned(result))
  }

  function Start(call: Call): Pc {
    match call
    case CallEnqueue(item) => LoadFreeIndex(item)
    case CallDequeue => DeqLoadHead
    case CallEmpty => EmptyLoadHead
  }

  /** One probe of a claim scan; miss is where the scan goes on. */
  function Probe(s: State, t: nat, item: Item, i: int, miss: Pc): (State, Event)
    requires t < |s.threads|
  {
    if !InArray(s.m, i) then (s, Fault)
    else if s.m.nodes[i].free then
      (State(SetFree(s.m, i, false), s.freeIndex, s.threads[t := StoreFreeIndex(item, i)]), Taken(i))
    else Go(s, t, s.m, miss)
  }

  /** Thread t makes its next atomic access; call is what it calls when it is idle. */
  function Step(s: State, t: nat, call: Call): (r: (State, Event))
    requires t < |s.threads|
    ensures |r.0.threads| == |s.threads|
  {
    var m := s.m;
    match s.threads[t]
    case Idle => Go(s, t, m, Start(call))
    case LoadFreeIndex(item) => Go(s, t, m, FirstScan(item, s.freeIndex))
    case FirstScan(item, i) =>
      if i >= |m.nodes| then Go(s, t, m, ResetFreeIndex(item)) else Probe(s, t, item, i, FirstScan(item, i + 1))
    case ResetFreeIndex(item) => Go(s.(freeIndex := 1), t, m, SecondScan(item, 1))
    case SecondScan(item, i) =>
      if i >= |m.nodes| then Return(s, t, m, Enqueued(item, false)) else Probe(s, t, item, i, SecondScan(item, i + 1))
    case StoreFreeIndex(item, i) => Go(s.(freeIndex := i + 1), t, m, SetValue(item, i))
    case SetValue(item, i) =>
      if !InArray(m, i) then (s, Fault) else Go(s, t, PutValue(m, i, item), SetNext(item, i))
    case SetNext(item, i) =>
      if !InArray(m, i) then (s, Fault) else Go(s, t, PutNext(m, i, Pointer(-1, 0)), EnqLoadTail(item, i))
    case EnqLoadTail(item, i) =>
      Go(s, t, m, if m.qtail.index == -1 then EnqLoadTail(item, i) else EnqLoadNext(item, i, m.qtail))
    case EnqLoadNext(item, i, tail) =>
      if !InArray(m, tail.index) then (s, Fault)
      else Go(s, t, m, EnqCheckTail(item, i, tail, m.nodes[tail.index].next))
    case EnqCheckTail(item, i, tail, next) =>
      Go(s, t, m,
         if tail != m.qtail then EnqLoadTail(item, i)
         else if next.index != -1 then EnqHelp(item, i, tail, next)
         else EnqLink(item, i, tail, next))
    case EnqHelp(item, i, tail, next) => Go(s, t, CasTail(m, tail, next.index), EnqLoadTail(item, i))
    case EnqLink(item, i, tail, next) =>
      if !InArray(m, tail.index) then (s, Fault)
      else if m.nodes[tail.index].next != next then Go(s, t, m, EnqLoadTail(item, i))
      else
        var m' := PutNext(m, tail.index, Pointer(i, next.version + 1));
        (State(m', s.freeIndex, s.threads[t := EnqSwing(item, i, tail)]), Linked(i, item))
    case EnqSwing(item, i, tail) => Return(s, t, CasTail(m, tail, i), Enqueued(item, true))
    case DeqLoadHead => Go(s, t, m, DeqLoadTail(m.qhead))
    case DeqLoadTail(head) =>
      Go(s, t, m, if head.index == -1 then DeqLoadHead else DeqLoadNext(head, m.qtail))
    case DeqLoadNext(head, tail) =>
      if !InArray(m, head.index) then (s, Fault)
      else Go(s, t, m, DeqCheckHead(head, tail, m.nodes[head.index].next))
    case DeqCheckHead(head, tail, next) =>
      if head == m.qhead && head.index == tail.index && next.index == -1 then Return(s, t, m, Dequeued(None))
      else
        Go(s, t, m,
           if head != m.qhead then DeqLoadHead
           else if head.index == tail.index then DeqHelp(tail, next)
           else if next.index == -1 then DeqLoadHead
           else DeqLoadValue(head, next))
    case DeqHelp(tail, next) => Go(s, t, CasTail(m, tail, next.index), DeqLoadHead)
    case DeqLoadValue(head, next) =>
      if !InArray(m, next.index) then (s, Fault)
      else Go(s, t, m, DeqSwing(head, next, m.nodes[next.index].value))
    case DeqSwing(head, next, item) =>
      if m.qhead != head then Go(s, t, m, DeqLoadHead)
      else (State(AdvanceHead(m, next.index), s.freeIndex, s.threads[t := DeqRelease(head, item)]), Unlinked(item))
    case DeqRelease(head, item) =>
      if !InArray(m, head.index) then (s, Fault)
      else Return(s, t, SetFree(m, head.index, true), Dequeued(Some(item)))
    case EmptyLoadHead => Go(s, t, m, EmptyLoadTail(m.qhead))
    case EmptyLoadTail(head) =>
      if head.index < 0 then Return(s, t, m, Emptiness(false)) else Go(s, t, m, EmptyLoadNext(head, m.qtail))
    case EmptyLoadNext(head, tail) =>
      if !InArray(m, head.index) then (s, Fault)
      else Go(s, t, m, EmptyCheck(head, tail, m.nodes[head.index].next))
    case EmptyCheck(head, tail, next) =>
      Return(s, t, m, Emptiness(head == m.qhead && head.index == tail.index && next.index == -1))
  }

  // --------------------------------------------------------------- schedules

  datatype Turn = Turn(thread: nat, call: Call)

  predicate FitsThreads(schedule: seq<Turn>, threadCount: nat) {
    forall k :: 0 <= k < |schedule| ==> schedule[k].thread < threadCount
  }

  function Run(s: State, schedule: seq<Turn>): (State, Trace)
    requires FitsThreads(schedule, |s.threads|)
    ensures |Run(s, schedule).0.threads| == |s.threads|
    decreases |schedule|
  {
    if schedule == [] then (s, [])
    else
      var (s1, e) := Step(s, schedule[0].thread, schedule[0].call);
      var (s2, trace) := Run(s1, schedule[1..]);
      (s2, [(schedule[0].thread, e)] + trace)
  }

  /** The node whose `next` a thread may still try to link to. */
  function HeldTail(pc: Pc): int {
    match pc
    case EnqLoadNext(_, _, tail) => tail.index
    case EnqCheckTail(_, _, tail, _) => tail.index
    case EnqLink(_, _, tail, _) => tail.index
    case _ => -1
  }

  /** The node that thread t takes out of the free nodes with its next step, or -1. */
  function ClaimTarget(s: State, t: nat): int
    requires t < |s.threads|
  {
    match s.threads[t]
    case FirstScan(_, i) => if InArray(s.m, i) && s.m.nodes[i].free then i else -1
    case SecondScan(_, i) => if InArray(s.m, i) && s.m.nodes[i].free then i else -1
    case _ => -1
  }

  /**
    The assumption on runs with several enqueuers: no node is taken again while an
    enqueuer still holds it as the tail it read.
    */
  ghost predicate Guarded(s: State, schedule: seq<Turn>)
    requires FitsThreads(schedule, |s.threads|)
    decreases |schedule|
  {
    schedule == [] ||
    var t := schedule[0].thread;
    && (forall u :: 0 <= u < |s.threads| && ClaimTarget(s, t) != -1 ==> HeldTail(s.threads[u]) != ClaimTarget(s, t))
    && Guarded(Step(s, t, schedule[0].call).0, schedule[1..])
  }
}
