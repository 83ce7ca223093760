/**
  Safety of the lock-free queue over all guarded runs.  The invariant speaks about
  the concrete state and a ghost history: the chain of linked nodes, head first,
  and the one role that each node has.
  */
module HQueueSafety {
  import opened Options
  import opened FifoTrace
  import opened HQueue

  datatype Role = Free | InChain | Claimed(thread: nat) | Passed(thread: nat)

  /** chain[0] is the dummy; the nodes behind it carry the queued items. */
  datatype History = History(chain: seq<int>, roles: seq<Role>)

  // ------------------------------------------------------------ abstract queue

  ghost predicate IsChain(m: Memory, chain: seq<int>) {
    && |chain| >= 1
    && (forall k :: 0 <= k < |chain| ==> InArray(m, chain[k]))
    && chain[0] == m.qhead.index
    && (forall k, l :: 0 <= k < l < |chain| ==> chain[k] != chain[l])
    && (forall k :: 0 <= k < |chain| - 1 ==> m.nodes[chain[k]].next.index == chain[k + 1])
    && m.nodes[chain[|chain| - 1]].next.index == -1
  }

  /** The values of some nodes; an index outside the array has none. */
  function Items(nodes: seq<Node>, indices: seq<int>): seq<Item> {
    seq(|indices|, k requires 0 <= k < |indices| => if 0 <= indices[k] < |nodes| then nodes[indices[k]].value else 0)
  }

  /** The items in the queue: the values behind the dummy. */
  function Content(m: Memory, chain: seq<int>): seq<Item> {
    if chain == [] then [] else Items(m.nodes, chain[1..])
  }

  // ----------------------------------------------------------------- invariant

  function ClaimedNode(pc: Pc): int {
    match pc
    case StoreFreeIndex(_, i) => i
    case SetValue(_, i) => i
    case SetNext(_, i) => i
    case EnqLoadTail(_, i) => i
    case EnqLoadNext(_, i, _) => i
    case EnqCheckTail(_, i, _, _) => i
    case EnqHelp(_, i, _, _) => i
    case EnqLink(_, i, _, _) => i
    case _ => -1
  }

  function PassedNode(pc: Pc): int {
    match pc
    case DeqRelease(head, _) => head.index
    case _ => -1
  }

  /** p was read from a pointer that is now at current. */
  predicate Snapshot(p: Pointer, current: Pointer) {
    p.version < current.version || p == current
  }

  /** The claimed node of an enqueuer that has filled it in. */
  ghost predicate Prepared(m: Memory, item: Item, node: int) {
    node >= 1 && InArray(m, node) && m.nodes[node].next.index == -1 && m.nodes[node].value == item
  }

  /** An enqueuer may hold tail: it is linked, or its next pointer is already set. */
  ghost predicate Holdable(m: Memory, h: History, tail: int) {
    && InArray(m, tail) && tail < |h.roles|
    && !h.roles[tail].Claimed?
    && (h.roles[tail] != InChain ==> m.nodes[tail].next.index != -1)
  }

  /** While the tail has not moved, next is what follows it. */
  ghost predicate Follows(m: Memory, tail: Pointer, next: int) {
    && Snapshot(tail, m.qtail)
    && InArray(m, next)
    && (tail == m.qtail ==> InArray(m, tail.index) && m.nodes[tail.index].next.index == next)
  }

  ghost predicate HeadSnapshot(m: Memory, head: Pointer) {
    Snapshot(head, m.qhead) && InArray(m, head.index)
  }

  ghost predicate HeadAndTail(m: Memory, head: Pointer, tail: Pointer) {
    && HeadSnapshot(m, head) && Snapshot(tail, m.qtail) && InArray(m, tail.index)
    && (head == m.qhead && tail.index != head.index ==> m.qtail.index != m.qhead.index)
  }

  /** While the head has not moved, next is the node behind the dummy. */
  ghost predicate SecondNode(m: Memory, h: History, head: Pointer, next: int) {
    && HeadSnapshot(m, head)
    && -1 <= next < |m.nodes|
    && (head == m.qhead && next != -1 ==> |h.chain| >= 2 && h.chain[1] == next)
  }

  /** What the locals of one thread say about the shared memory. */
  ghost predicate Local(m: Memory, h: History, pc: Pc) {
    match pc
    case FirstScan(_, i) => i >= 1
    case SecondScan(_, i) => i >= 1
    case StoreFreeIndex(_, i) => 1 <= i < |m.nodes|
    case SetValue(_, i) => 1 <= i < |m.nodes|
    case SetNext(item, i) => 1 <= i < |m.nodes| && m.nodes[i].value == item
    case EnqLoadTail(item, i) => Prepared(m, item, i)
    case EnqLoadNext(item, i, tail) =>
      Prepared(m, item, i) && Snapshot(tail, m.qtail) && Holdable(m, h, tail.index)
    case EnqCheckTail(item, i, tail, next) =>
      && Prepared(m, item, i) && Snapshot(tail, m.qtail) && Holdable(m, h, tail.index)
      && -1 <= next.index < |m.nodes|
      && (next.index != -1 ==> Follows(m, tail, next.index))
    case EnqHelp(item, i, tail, next) => Prepared(m, item, i) && Follows(m, tail, next.index)
    case EnqLink(item, i, tail, next) =>
      && Prepared(m, item, i) && Snapshot(tail, m.qtail) && Holdable(m, h, tail.index)
      && next.index == -1
    case EnqSwing(item, i, tail) => Follows(m, tail, i)
    case DeqLoadTail(head) => HeadSnapshot(m, head)
    case DeqLoadNext(head, tail) => HeadAndTail(m, head, tail)
    case DeqCheckHead(head, tail, next) => HeadAndTail(m, head, tail) && SecondNode(m, h, head, next.index)
    case DeqHelp(tail, next) => Follows(m, tail, next.index)
    case DeqLoadValue(head, next) =>
      && next.index != -1 && SecondNode(m, h, head, next.index)
      && (head == m.qhead ==> m.qtail.index != m.qhead.index)
    case DeqSwing(head, next, item) =>
      && next.index != -1 && SecondNode(m, h, head, next.index)
      && (head == m.qhead ==> m.qtail.index != m.qhead.index && m.nodes[next.index].value == item)
    case DeqRelease(head, _) => InArray(m, head.index)
    case EmptyLoadTail(head) => HeadSnapshot(m, head)
    case EmptyLoadNext(head, _) => HeadSnapshot(m, head)
    case EmptyCheck(head, _, next) => SecondNode(m, h, head, next.index)
    case _ => true
  }

  ghost predicate Shape(m: Memory, h: History) {
    && IsChain(m, h.chain)
    && m.qtail.index in h.chain
    && (forall i :: 0 <= i < |m.nodes| ==> -1 <= m.nodes[i].next.index < |m.nodes|)
    && |h.roles| == |m.nodes|
    && (forall i :: 0 <= i < |h.roles| ==> (h.roles[i] == Free <==> m.nodes[i].free))
    && (forall i :: 0 <= i < |h.roles| ==> (h.roles[i] == InChain <==> i in h.chain))
  }

  /** The nodes a thread owns have the role of being owned by it. */
  ghost predicate Owns(roles: seq<Role>, t: nat, pc: Pc) {
    && (ClaimedNode(pc) != -1 ==> 0 <= ClaimedNode(pc) < |roles| && roles[ClaimedNode(pc)] == Claimed(t))
    && (PassedNode(pc) != -1 ==> 0 <= PassedNode(pc) < |roles| && roles[PassedNode(pc)] == Passed(t))
  }

  /** An owned node has an owner that knows it. */
  ghost predicate Owned(roles: seq<Role>, threads: seq<Pc>, i: nat)
    requires i < |roles|
  {
    match roles[i]
    case Claimed(t) => t < |threads| && ClaimedNode(threads[t]) == i
    case Passed(t) => t < |threads| && PassedNode(threads[t]) == i
    case _ => true
  }

  ghost predicate Ownership(roles: seq<Role>, threads: seq<Pc>) {
    && (forall i :: 0 <= i < |roles| ==> Owned(roles, threads, i))
    && (forall t :: 0 <= t < |threads| ==> Owns(roles, t, threads[t]))
  }

  ghost predicate AllLocal(m: Memory, h: History, threads: seq<Pc>) {
    forall t :: 0 <= t < |threads| ==> Local(m, h, threads[t])
  }

  ghost predicate Inv(s: State, h: History) {
    s.freeIndex >= 1 && Shape(s.m, h) && Ownership(h.roles, s.threads) && AllLocal(s.m, h, s.threads)
  }

  // ------------------------------------- what each memory update does to Shape

  lemma ChainNext(m: Memory, chain: seq<int>, k: nat)
    requires IsChain(m, chain) && k < |chain| - 1
    ensures m.nodes[chain[k]].next.index == chain[k + 1] >= 0
  {
  }

  lemma TailShape(m: Memory, h: History, tail: Pointer, next: int)
    requires Shape(m, h) && Follows(m, tail, next)
    ensures Shape(CasTail(m, tail, next), h)
    ensures CasTail(m, tail, next) != m ==> m.qtail == tail && next != m.qhead.index
  {
    if m.qtail == tail {
      var k :| 0 <= k < |h.chain| && h.chain[k] == m.qtail.index;
      assert h.chain[k + 1] == next;
    }
  }

  ghost function Link(h: History, i: int): History
    requires 0 <= i < |h.roles|
  {
    History(h.chain + [i], h.roles[i := InChain])
  }

  /** A link goes behind the last linked node, whatever happened since the tail was read. */
  lemma LinkGoesLast(m: Memory, h: History, tail: int)
    requires Shape(m, h) && Holdable(m, h, tail) && m.nodes[tail].next.index == -1
    ensures tail == h.chain[|h.chain| - 1]
  {
    assert tail in h.chain;
    var k :| 0 <= k < |h.chain| && h.chain[k] == tail;
    if k < |h.chain| - 1 { ChainNext(m, h.chain, k); }
  }

  ghost predicate Linkable(m: Memory, h: History, i: int, tail: int) {
    && Shape(m, h) && tail == h.chain[|h.chain| - 1]
    && InArray(m, i) && m.nodes[i].next.index == -1 && h.roles[i].Claimed?
  }

  lemma LinkShape(m: Memory, h: History, i: int, tail: int, version: nat)
    requires Linkable(m, h, i, tail)
    ensures Shape(PutNext(m, tail, Pointer(i, version)), Link(h, i))
  {
    forall j | 0 <= j < |h.roles| ensures Link(h, i).roles[j] == InChain <==> j in Link(h, i).chain {
      assert h.roles[j] == InChain <==> j in h.chain;
    }
  }

  ghost function Unlink(h: History, t: nat): History
    requires |h.chain| >= 1 && 0 <= h.chain[0] < |h.roles|
  {
    History(h.chain[1..], h.roles[h.chain[0] := Passed(t)])
  }

  ghost predicate Unlinkable(m: Memory, h: History) {
    Shape(m, h) && |h.chain| >= 2 && m.qtail.index != m.qhead.index
  }

  lemma UnlinkShape(m: Memory, h: History, t: nat)
    requires Unlinkable(m, h)
    ensures Shape(AdvanceHead(m, h.chain[1]), Unlink(h, t))
  {
    var c, h' := h.chain, Unlink(h, t);
    var k :| 0 <= k < |c| && c[k] == m.qtail.index;
    assert c[1..][k - 1] == m.qtail.index;
    forall j | 0 <= j < |h'.roles| ensures h'.roles[j] == InChain <==> j in h'.chain {
      assert h.roles[j] == InChain <==> j in c;
      if j in c && j != c[0] {
        var l :| 0 <= l < |c| && c[l] == j;
        assert c[1..][l - 1] == j;
      }
    }
  }

  // ----------------------- what each memory update does to the other threads

  lemma ClaimLocal(m: Memory, h: History, i: int, t: nat, pc: Pc)
    requires InArray(m, i) && |h.roles| == |m.nodes| && HeldTail(pc) != i
    requires Local(m, h, pc)
    ensures Local(SetFree(m, i, false), h.(roles := h.roles[i := Claimed(t)]), pc)
  {
  }

  lemma WriteLocal(m: Memory, h: History, i: int, node: Node, pc: Pc)
    requires Shape(m, h) && InArray(m, i) && h.roles[i].Claimed? && ClaimedNode(pc) != i
    requires Local(m, h, pc)
    ensures Local(m.(nodes := m.nodes[i := node]), h, pc)
  {
  }

  lemma TailLocal(m: Memory, h: History, tail: Pointer, next: int, pc: Pc)
    requires Shape(m, h) && Follows(m, tail, next)
    requires Local(m, h, pc)
    ensures Local(CasTail(m, tail, next), h, pc)
  {
    TailShape(m, h, tail, next);
  }

  lemma LinkLocal(m: Memory, h: History, i: int, tail: int, version: nat, pc: Pc)
    requires Linkable(m, h, i, tail) && ClaimedNode(pc) != tail
    requires Local(m, h, pc)
    ensures Local(PutNext(m, tail, Pointer(i, version)), Link(h, i), pc)
  {
    assert tail in h.chain;
    assert h.roles[tail] == InChain;
  }

  lemma UnlinkLocal(m: Memory, h: History, t: nat, pc: Pc)
    requires Unlinkable(m, h)
    requires Local(m, h, pc)
    ensures Local(AdvanceHead(m, h.chain[1]), Unlink(h, t), pc)
  {
    assert h.chain[0] in h.chain;
    assert h.roles[h.chain[0]] == InChain;
  }

  lemma ReleaseLocal(m: Memory, h: History, i: int, pc: Pc)
    requires InArray(m, i) && |h.roles| == |m.nodes| && h.roles[i].Passed?
    requires Local(m, h, pc)
    ensures Local(SetFree(m, i, true), h.(roles := h.roles[i := Free]), pc)
  {
  }

  // --------------------------------------------------- one step of one thread

  /** Thread t gives up or takes node i, and owns nothing else. */
  lemma ChangeRole(roles: seq<Role>, threads: seq<Pc>, t: nat, i: int, role: Role, pc: Pc)
    requires Ownership(roles, threads) && t < |threads| && 0 <= i < |roles|
    requires roles[i].Claimed? || roles[i].Passed? ==> roles[i].thread == t
    requires ClaimedNode(threads[t]) in {-1, i} && PassedNode(threads[t]) in {-1, i}
    requires ClaimedNode(pc) == (if role.Claimed? then i else -1)
    requires PassedNode(pc) == (if role.Passed? then i else -1)
    requires role.Claimed? || role.Passed? ==> role.thread == t
    ensures Ownership(roles[i := role], threads[t := pc])
  {
    var roles', threads' := roles[i := role], threads[t := pc];
    forall u | 0 <= u < |threads| ensures Owns(roles', u, threads'[u]) {
      assert Owns(roles, u, threads[u]);
    }
    forall j | 0 <= j < |roles| ensures Owned(roles', threads', j) {
      assert Owned(roles, threads, j);
    }
  }

  lemma KeepRoles(roles: seq<Role>, threads: seq<Pc>, t: nat, pc: Pc)
    requires Ownership(roles, threads) && t < |threads|
    requires ClaimedNode(pc) == ClaimedNode(threads[t]) && PassedNode(pc) == PassedNode(threads[t])
    ensures Ownership(roles, threads[t := pc])
  {
    var threads' := threads[t := pc];
    forall j | 0 <= j < |roles| ensures Owned(roles, threads', j) {
      assert Owned(roles, threads, j);
    }
    forall u | 0 <= u < |threads| ensures Owns(roles, u, threads'[u]) {
      assert Owns(roles, u, threads[u]);
    }
  }

  /** Content depends only on the values of the linked nodes. */
  lemma SameItems(nodes: seq<Node>, nodes': seq<Node>, indices: seq<int>)
    requires |nodes| == |nodes'|
    requires forall k :: 0 <= k < |indices| && 0 <= indices[k] < |nodes| ==>
                           nodes'[indices[k]].value == nodes[indices[k]].value
    ensures Items(nodes', indices) == Items(nodes, indices)
  {
  }

  /** One step keeps the invariant, does not fault, and is a step of a FIFO queue. */
  ghost predicate Good(s: State, h: History, s': State, e: Event, h': History) {
    && Inv(s', h')
    && e != Fault
    && (match e
        case Linked(_, item) => Content(s'.m, h'.chain) == Content(s.m, h.chain) + [item]
        case Unlinked(item) => Content(s.m, h.chain) == [item] + Content(s'.m, h'.chain)
        case _ => Content(s'.m, h'.chain) == Content(s.m, h.chain))
  }

  /** A step that changes no memory, or only free_index. */
  lemma LocalStep(s: State, h: History, t: nat, index: int, pc: Pc, e: Event)
    requires Inv(s, h) && t < |s.threads| && index >= 1
    requires ClaimedNode(pc) == ClaimedNode(s.threads[t]) && PassedNode(pc) == PassedNode(s.threads[t])
    requires Local(s.m, h, pc) && !e.Linked? && !e.Unlinked? && e != Fault
    ensures Good(s, h, State(s.m, index, s.threads[t := pc]), e, h)
  {
    KeepRoles(h.roles, s.threads, t, pc);
  }

  lemma ClaimStep(s: State, h: History, t: nat, i: int, item: Item)
    requires Inv(s, h) && t < |s.threads|
    requires i >= 1 && InArray(s.m, i) && s.m.nodes[i].free
    requires ClaimedNode(s.threads[t]) == -1 && PassedNode(s.threads[t]) == -1
    requires forall u :: 0 <= u < |s.threads| ==> HeldTail(s.threads[u]) != i
    ensures i < |h.roles|
    ensures
      var s' := State(SetFree(s.m, i, false), s.freeIndex, s.threads[t := StoreFreeIndex(item, i)]);
      Good(s, h, s', Taken(i), h.(roles := h.roles[i := Claimed(t)]))
  {
    var m', h' := SetFree(s.m, i, false), h.(roles := h.roles[i := Claimed(t)]);
    ChangeRole(h.roles, s.threads, t, i, Claimed(t), StoreFreeIndex(item, i));
    SameItems(s.m.nodes, m'.nodes, h.chain[1..]);
    forall u | 0 <= u < |s.threads| ensures Local(m', h', s.threads[u]) {
      ClaimLocal(s.m, h, i, t, s.threads[u]);
    }
  }

  /** A claimed node is written by its owner. */
  lemma WriteStep(s: State, h: History, t: nat, i: int, node: Node, pc: Pc)
    requires Inv(s, h) && t < |s.threads|
    requires ClaimedNode(s.threads[t]) == i == ClaimedNode(pc) && PassedNode(pc) == -1
    requires InArray(s.m, i) && node.free == s.m.nodes[i].free && node.next.index in {-1, s.m.nodes[i].next.index}
    requires Local(s.m.(nodes := s.m.nodes[i := node]), h, pc)
    ensures Good(s, h, State(s.m.(nodes := s.m.nodes[i := node]), s.freeIndex, s.threads[t := pc]), Silent, h)
  {
    var m' := s.m.(nodes := s.m.nodes[i := node]);
    assert Owns(h.roles, t, s.threads[t]);
    assert i !in h.chain;
    SameItems(s.m.nodes, m'.nodes, h.chain[1..]);
    KeepRoles(h.roles, s.threads, t, pc);
    forall u | 0 <= u < |s.threads| && u != t ensures Local(m', h, s.threads[u]) {
      assert Owns(h.roles, u, s.threads[u]);
      WriteLocal(s.m, h, i, node, s.threads[u]);
    }
  }

  lemma TailStep(s: State, h: History, t: nat, tail: Pointer, next: int, pc: Pc, e: Event)
    requires Inv(s, h) && t < |s.threads| && Follows(s.m, tail, next)
    requires ClaimedNode(pc) == ClaimedNode(s.threads[t]) && PassedNode(pc) == PassedNode(s.threads[t])
    requires Local(s.m, h, pc) && !e.Linked? && !e.Unlinked? && e != Fault
    ensures Good(s, h, State(CasTail(s.m, tail, next), s.freeIndex, s.threads[t := pc]), e, h)
  {
    TailShape(s.m, h, tail, next);
    KeepRoles(h.roles, s.threads, t, pc);
    TailLocal(s.m, h, tail, next, pc);
    forall u | 0 <= u < |s.threads| ensures Local(CasTail(s.m, tail, next), h, s.threads[u]) {
      TailLocal(s.m, h, tail, next, s.threads[u]);
    }
  }

  lemma LinkStep(s: State, h: History, t: nat, item: Item, i: int, tail: Pointer, next: Pointer)
    requires Inv(s, h) && t < |s.threads|
    requires s.threads[t] == EnqLink(item, i, tail, next)
    requires InArray(s.m, tail.index) && s.m.nodes[tail.index].next == next
    ensures 0 <= i < |h.roles|
    ensures
      var m' := PutNext(s.m, tail.index, Pointer(i, next.version + 1));
      Good(s, h, State(m', s.freeIndex, s.threads[t := EnqSwing(item, i, tail)]), Linked(i, item), Link(h, i))
  {
    assert Local(s.m, h, s.threads[t]) && Owns(h.roles, t, s.threads[t]);
    var m', h' := PutNext(s.m, tail.index, Pointer(i, next.version + 1)), Link(h, i);
    LinkGoesLast(s.m, h, tail.index);
    LinkShape(s.m, h, i, tail.index, next.version + 1);
    ChangeRole(h.roles, s.threads, t, i, InChain, EnqSwing(item, i, tail));
    assert Owned(h.roles, s.threads, tail.index) && h.roles[tail.index] == InChain;
    forall u | 0 <= u < |s.threads| && u != t ensures Local(m', h', s.threads[u]) {
      assert Owns(h.roles, u, s.threads[u]);
      LinkLocal(s.m, h, i, tail.index, next.version + 1, s.threads[u]);
    }
    LinkContent(s.m, h.chain, i, tail.index, next.version + 1);
  }

  lemma LinkContent(m: Memory, chain: seq<int>, i: int, tail: int, version: nat)
    requires InArray(m, tail) && InArray(m, i) && |chain| >= 1
    ensures Content(PutNext(m, tail, Pointer(i, version)), chain + [i]) == Content(m, chain) + [m.nodes[i].value]
  {
    assert (chain + [i])[1..] == chain[1..] + [i];
  }

  lemma UnlinkContent(m: Memory, chain: seq<int>)
    requires |chain| >= 2 && InArray(m, chain[1])
    ensures Content(m, chain) == [m.nodes[chain[1]].value] + Content(m, chain[1..])
  {
    assert chain[1..] == [chain[1]] + chain[1..][1..];
  }

  lemma UnlinkStep(s: State, h: History, t: nat, head: Pointer, next: Pointer, item: Item)
    requires Inv(s, h) && t < |s.threads|
    requires s.threads[t] == DeqSwing(head, next, item) && s.m.qhead == head
    ensures |h.chain| >= 1 && 0 <= h.chain[0] < |h.roles|
    ensures
      var s' := State(AdvanceHead(s.m, next.index), s.freeIndex, s.threads[t := DeqRelease(head, item)]);
      Good(s, h, s', Unlinked(item), Unlink(h, t))
  {
    assert Local(s.m, h, s.threads[t]);
    var m', h', c := AdvanceHead(s.m, next.index), Unlink(h, t), h.chain;
    assert c[0] in c && h.roles[c[0]] == InChain;
    UnlinkShape(s.m, h, t);
    ChangeRole(h.roles, s.threads, t, c[0], Passed(t), DeqRelease(head, item));
    forall u | 0 <= u < |s.threads| ensures Local(m', h', s.threads[u]) {
      UnlinkLocal(s.m, h, t, s.threads[u]);
    }
    UnlinkContent(s.m, c);
  }

  lemma ReleaseStep(s: State, h: History, t: nat, i: int, item: Item)
    requires Inv(s, h) && t < |s.threads| && InArray(s.m, i)
    requires PassedNode(s.threads[t]) == i && ClaimedNode(s.threads[t]) == -1
    ensures i < |h.roles|
    ensures
      var s' := State(SetFree(s.m, i, true), s.freeIndex, s.threads[t := Idle]);
      Good(s, h, s', Returned(Dequeued(Some(item))), h.(roles := h.roles[i := Free]))
  {
    var m', h' := SetFree(s.m, i, true), h.(roles := h.roles[i := Free]);
    assert Owns(h.roles, t, s.threads[t]);
    ChangeRole(h.roles, s.threads, t, i, Free, Idle);
    SameItems(s.m.nodes, m'.nodes, h.chain[1..]);
    forall u | 0 <= u < |s.threads| ensures Local(m', h', s.threads[u]) {
      ReleaseLocal(s.m, h, i, s.threads[u]);
    }
  }

  // ------------------------------------------------------------- any one step

  /** The ghost history follows the events. */
  ghost function After(h: History, t: nat, pc: Pc, e: Event): History {
    match e
    case Taken(i) => if 0 <= i < |h.roles| then h.(roles := h.roles[i := Claimed(t)]) else h
    case Linked(i, _) => if 0 <= i < |h.roles| then Link(h, i) else h
    case Unlinked(_) => if |h.chain| >= 1 && 0 <= h.chain[0] < |h.roles| then Unlink(h, t) else h
    case Returned(_) =>
      if 0 <= PassedNode(pc) < |h.roles| then h.(roles := h.roles[PassedNode(pc) := Free]) else h
    case _ => h
  }

  ghost predicate GoodStep(s: State, h: History, t: nat, call: Call)
    requires t < |s.threads|
  {
    var (s', e) := Step(s, t, call);
    Good(s, h, s', e, After(h, t, s.threads[t], e))
  }

  lemma ThreadFacts(s: State, h: History, t: nat)
    requires Inv(s, h) && t < |s.threads|
    ensures Local(s.m, h, s.threads[t]) && Owns(h.roles, t, s.threads[t])
  {
  }

  lemma PrepareStep(s: State, h: History, t: nat, call: Call)
    requires Inv(s, h) && t < |s.threads|
    requires s.threads[t].LoadFreeIndex? || s.threads[t].ResetFreeIndex? || s.threads[t].StoreFreeIndex? ||
             s.threads[t].SetValue? || s.threads[t].SetNext?
    ensures GoodStep(s, h, t, call)
  {
    ThreadFacts(s, h, t);
    match s.threads[t]
    case LoadFreeIndex(item) => LocalStep(s, h, t, s.freeIndex, FirstScan(item, s.freeIndex), Silent);
    case StoreFreeIndex(item, i) => LocalStep(s, h, t, i + 1, SetValue(item, i), Silent);
    case ResetFreeIndex(item) => LocalStep(s, h, t, 1, SecondScan(item, 1), Silent);
    case SetValue(item, i) => WriteStep(s, h, t, i, s.m.nodes[i].(value := item), SetNext(item, i));
    case SetNext(item, i) => WriteStep(s, h, t, i, s.m.nodes[i].(next := Pointer(-1, 0)), EnqLoadTail(item, i));
  }

  lemma ScanStep(s: State, h: History, t: nat, call: Call)
    requires Inv(s, h) && t < |s.threads|
    requires s.threads[t].FirstScan? || s.threads[t].SecondScan?
    requires forall u :: 0 <= u < |s.threads| && ClaimTarget(s, t) != -1 ==> HeldTail(s.threads[u]) != ClaimTarget(s, t)
    ensures GoodStep(s, h, t, call)
  {
    ThreadFacts(s, h, t);
    var pc := s.threads[t];
    if pc.node < |s.m.nodes| && s.m.nodes[pc.node].free {
      ClaimStep(s, h, t, pc.node, pc.item);
    } else {
      var (s', e) := Step(s, t, call);
      LocalStep(s, h, t, s.freeIndex, s'.threads[t], e);
    }
  }

  lemma EnqueueReadLocal(s: State, h: History, t: nat, call: Call)
    requires Shape(s.m, h) && t < |s.threads| && Local(s.m, h, s.threads[t])
    requires s.threads[t].EnqLoadTail? || s.threads[t].EnqLoadNext? || s.threads[t].EnqCheckTail?
    ensures
      var (s', e) := Step(s, t, call);
      && s' == s.(threads := s.threads[t := s'.threads[t]]) && e == Silent
      && ClaimedNode(s'.threads[t]) == ClaimedNode(s.threads[t])
      && Local(s.m, h, s'.threads[t])
  {
  }

  lemma EnqueueReadStep(s: State, h: History, t: nat, call: Call)
    requires Inv(s, h) && t < |s.threads|
    requires s.threads[t].EnqLoadTail? || s.threads[t].EnqLoadNext? || s.threads[t].EnqCheckTail?
    ensures GoodStep(s, h, t, call)
  {
    ThreadFacts(s, h, t);
    EnqueueReadLocal(s, h, t, call);
    LocalStep(s, h, t, s.freeIndex, Step(s, t, call).0.threads[t], Silent);
  }

  lemma EnqLinkFails(s: State, h: History, t: nat, call: Call, item: Item, i: int, tail: Pointer, next: Pointer)
    requires Inv(s, h) && t < |s.threads| && s.threads[t] == EnqLink(item, i, tail, next)
    requires InArray(s.m, tail.index) && s.m.nodes[tail.index].next != next
    ensures GoodStep(s, h, t, call)
  {
    ThreadFacts(s, h, t);
    LocalStep(s, h, t, s.freeIndex, EnqLoadTail(item, i), Silent);
  }

  lemma EnqLinkWorks(s: State, h: History, t: nat, call: Call, item: Item, i: int, tail: Pointer, next: Pointer)
    requires Inv(s, h) && t < |s.threads| && s.threads[t] == EnqLink(item, i, tail, next)
    requires InArray(s.m, tail.index) && s.m.nodes[tail.index].next == next
    ensures GoodStep(s, h, t, call)
  {
    LinkStep(s, h, t, item, i, tail, next);
    StepOfLink(s, t, call, item, i, tail, next);
  }

  lemma StepOfLink(s: State, t: nat, call: Call, item: Item, i: int, tail: Pointer, next: Pointer)
    requires t < |s.threads| && s.threads[t] == EnqLink(item, i, tail, next)
    requires InArray(s.m, tail.index) && s.m.nodes[tail.index].next == next
    ensures
      var m' := PutNext(s.m, tail.index, Pointer(i, next.version + 1));
      Step(s, t, call) == (State(m', s.freeIndex, s.threads[t := EnqSwing(item, i, tail)]), Linked(i, item))
  {
  }

  lemma SwingTailStep(s: State, h: History, t: nat, call: Call)
    requires Inv(s, h) && t < |s.threads|
    requires s.threads[t].EnqHelp? || s.threads[t].EnqSwing? || s.threads[t].DeqHelp?
    ensures GoodStep(s, h, t, call)
  {
    ThreadFacts(s, h, t);
    match s.threads[t]
    case EnqHelp(item, i, tail, next) => TailStep(s, h, t, tail, next.index, EnqLoadTail(item, i), Silent);
    case EnqSwing(item, i, tail) => TailStep(s, h, t, tail, i, Idle, Returned(Enqueued(item, true)));
    case DeqHelp(tail, next) => TailStep(s, h, t, tail, next.index, DeqLoadHead, Silent);
  }

  lemma DeqSwingStep(s: State, h: History, t: nat, call: Call)
    requires Inv(s, h) && t < |s.threads| && s.threads[t].DeqSwing?
    ensures GoodStep(s, h, t, call)
  {
    ThreadFacts(s, h, t);
    var DeqSwing(head, next, item) := s.threads[t];
    if s.m.qhead == head { UnlinkStep(s, h, t, head, next, item); }
    else { LocalStep(s, h, t, s.freeIndex, DeqLoadHead, Silent); }
  }

  lemma DeqReleaseStep(s: State, h: History, t: nat, call: Call)
    requires Inv(s, h) && t < |s.threads| && s.threads[t].DeqRelease?
    ensures GoodStep(s, h, t, call)
  {
    ThreadFacts(s, h, t);
    ReleaseStep(s, h, t, s.threads[t].head.index, s.threads[t].item);
  }

  predicate OnlyReads(pc: Pc) {
    pc.Idle? || DequeueReads(pc) || EmptyReads(pc)
  }

  predicate DequeueReads(pc: Pc) {
    pc.DeqLoadHead? || pc.DeqLoadTail? || pc.DeqLoadNext? || pc.DeqCheckHead? || pc.DeqLoadValue?
  }

  predicate EmptyReads(pc: Pc) {
    pc.EmptyLoadHead? || pc.EmptyLoadTail? || pc.EmptyLoadNext? || pc.EmptyCheck?
  }

  /** The step of a reading thread only moves it to a place whose locals are right. */
  ghost predicate ReadsWell(s: State, h: History, t: nat, call: Call)
    requires t < |s.threads|
  {
    var (s', e) := Step(s, t, call);
    && t < |s'.threads|
    && s' == s.(threads := s.threads[t := s'.threads[t]])
    && ClaimedNode(s'.threads[t]) == PassedNode(s'.threads[t]) == -1
    && (e.Silent? || e.Returned?)
    && Local(s.m, h, s'.threads[t])
  }

  lemma CheckHeadLocal(s: State, h: History, t: nat, call: Call)
    requires Shape(s.m, h) && t < |s.threads| && Local(s.m, h, s.threads[t])
    requires s.threads[t].DeqCheckHead?
    ensures ReadsWell(s, h, t, call)
  {
    if |h.chain| >= 2 { ChainNext(s.m, h.chain, 0); }
  }

  lemma DequeueReadLocal(s: State, h: History, t: nat, call: Call)
    requires Shape(s.m, h) && t < |s.threads| && Local(s.m, h, s.threads[t])
    requires DequeueReads(s.threads[t]) && !s.threads[t].DeqCheckHead?
    ensures ReadsWell(s, h, t, call)
  {
    if |h.chain| >= 2 { ChainNext(s.m, h.chain, 0); }
  }

  lemma EmptyReadLocal(s: State, h: History, t: nat, call: Call)
    requires Shape(s.m, h) && t < |s.threads| && Local(s.m, h, s.threads[t])
    requires EmptyReads(s.threads[t])
    ensures ReadsWell(s, h, t, call)
  {
    if |h.chain| >= 2 { ChainNext(s.m, h.chain, 0); }
  }

  lemma StartLocal(s: State, h: History, t: nat, call: Call)
    requires t < |s.threads| && s.threads[t].Idle?
    ensures ReadsWell(s, h, t, call)
  {
  }

  lemma ReadStep(s: State, h: History, t: nat, call: Call)
    requires Inv(s, h) && t < |s.threads| && OnlyReads(s.threads[t])
    ensures GoodStep(s, h, t, call)
  {
    ThreadFacts(s, h, t);
    var (s', e) := Step(s, t, call);
    if s.threads[t].DeqCheckHead? { CheckHeadLocal(s, h, t, call); }
    else if DequeueReads(s.threads[t]) { DequeueReadLocal(s, h, t, call); } else if EmptyReads(s.threads[t]) { EmptyReadLocal(s, h, t, call); }
    else { StartLocal(s, h, t, call); }
    LocalStep(s, h, t, s.freeIndex, s'.threads[t], e);
  }

  /** Any step of any thread, under the guard on claims, is a good step. */
  lemma StepIsGood(s: State, h: History, t: nat, call: Call)
    requires Inv(s, h) && t < |s.threads|
    requires forall u :: 0 <= u < |s.threads| && ClaimTarget(s, t) != -1 ==> HeldTail(s.threads[u]) != ClaimTarget(s, t)
    ensures GoodStep(s, h, t, call)
  {
    var pc := s.threads[t];
    if OnlyReads(pc) { ReadStep(s, h, t, call); }
    else if pc.FirstScan? || pc.SecondScan? { ScanStep(s, h, t, call); }
    else if pc.LoadFreeIndex? || pc.ResetFreeIndex? || pc.StoreFreeIndex? || pc.SetValue? || pc.SetNext? {
      PrepareStep(s, h, t, call);
    }
    else if pc.EnqLink? {
      ThreadFacts(s, h, t);
      if s.m.nodes[pc.tail.index].next == pc.next { EnqLinkWorks(s, h, t, call, pc.item, pc.node, pc.tail, pc.next); }
      else { EnqLinkFails(s, h, t, call, pc.item, pc.node, pc.tail, pc.next); }
    }
    else if pc.EnqHelp? || pc.EnqSwing? || pc.DeqHelp? { SwingTailStep(s, h, t, call); }
    else if pc.DeqSwing? { DeqSwingStep(s, h, t, call); }
    else if pc.DeqRelease? { DeqReleaseStep(s, h, t, call); }
    else { EnqueueReadStep(s, h, t, call); }
  }
}
