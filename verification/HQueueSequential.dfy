/**
  The queue of nice/include/hqueue.h called by one thread at a time: the same fields
  and the same loops, every compare_exchange meets no competitor.  What is proved here
  is what a single caller sees: a bounded FIFO queue, and exactly how bounded.
  */
module HQueueSequential {
  import opened Options
  import opened FifoTrace
  import opened HQueue
  import opened HQueueSafety

  /** chain has no duplicates, so it has as many members as entries. */
  lemma {:induction false} DistinctCount(chain: seq<int>)
    requires forall k, l :: 0 <= k < l < |chain| ==> chain[k] != chain[l]
    ensures |set i | i in chain| == |chain|
  {
    if chain != [] {
      var last := chain[|chain| - 1];
      var front := chain[..|chain| - 1];
      DistinctCount(front);
      assert last !in front;
      assert (set i | i in chain) == (set i | i in front) + {last};
    }
  }

  ghost function Below(n: nat): (r: set<int>)
    ensures forall i :: i in r <==> 0 <= i < n
    ensures |r| == n
  {
    if n == 0 then {} else Below(n - 1) + {n - 1}
  }

  /** A node other than node 0 is missing from the chain exactly if the chain is short enough. */
  lemma FreeNodeExists(chain: seq<int>, n: nat)
    requires n > 0
    requires forall k :: 0 <= k < |chain| ==> 0 <= chain[k] < n
    requires forall k, l :: 0 <= k < l < |chain| ==> chain[k] != chain[l]
    ensures (exists i :: 1 <= i < n && i !in chain) <==> |chain| < (if 0 in chain then n else n - 1)
  {
    var members := set i | i in chain;
    var all := Below(n);
    DistinctCount(chain);
    var missing := all - members;
    assert members <= all;
    assert |missing| == n - |chain|;
    if i :| 1 <= i < n && i !in chain {
      assert i in missing;
      if 0 !in chain {
        assert {0, i} <= missing;
        assert |missing - {0, i}| == |missing| - 2;
      }
    } else {
      assert missing <= {0};
      if 0 in chain { assert missing == {}; } else { assert missing == {0}; }
    }
  }

  // ------------------------------------------------------ the state, as a value

  lemma ChainEnds(m: Memory, chain: seq<int>)
    requires IsChain(m, chain)
    ensures m.nodes[m.qhead.index].next.index == -1 <==> |chain| == 1
  {
    if |chain| > 1 { ChainNext(m, chain, 0); }
  }

  /** Node 0 can only be linked as the first dummy; every other unlinked node is free. */
  ghost predicate Sound(m: Memory, chain: seq<int>) {
    && IsChain(m, chain)
    && m.qtail.index in chain
    && (forall k :: 0 < k < |chain| ==> chain[k] != 0)
    && forall i :: 0 <= i < |m.nodes| ==> (m.nodes[i].free <==> i !in chain)
  }

  /** The same, but for a node that has been taken and filled in, and is not linked yet. */
  ghost predicate Holding(m: Memory, chain: seq<int>, node: int) {
    && IsChain(m, chain)
    && m.qtail.index in chain
    && (forall k :: 0 < k < |chain| ==> chain[k] != 0)
    && 1 <= node < |m.nodes| && node !in chain && m.nodes[node].next.index == -1
    && forall i :: 0 <= i < |m.nodes| ==> (m.nodes[i].free <==> i !in chain && i != node)
  }

  lemma TakeNode(m: Memory, chain: seq<int>, node: int, item: Item)
    requires Sound(m, chain) && 1 <= node < |m.nodes| && m.nodes[node].free
    ensures
      var m' := m.(nodes := m.nodes[node := Node(Pointer(-1, 0), item, false)]);
      Holding(m', chain, node) && Content(m', chain) == Content(m, chain)
  {
    SameItems(m.nodes, m.nodes[node := Node(Pointer(-1, 0), item, false)], chain[1..]);
  }

  ghost function Attached(m: Memory, node: int): Memory
    requires InArray(m, m.qtail.index)
  {
    var tail := m.qtail;
    PutNext(m, tail.index, Pointer(node, m.nodes[tail.index].next.version + 1)).(qtail := Pointer(node, tail.version + 1))
  }

  lemma AttachSound(m: Memory, chain: seq<int>, node: int)
    requires Holding(m, chain, node) && m.qtail.index == chain[|chain| - 1]
    ensures Sound(Attached(m, node), chain + [node])
    ensures Content(Attached(m, node), chain + [node]) == Content(m, chain) + [m.nodes[node].value]
  {
    LinkContent(m, chain, node, m.qtail.index, m.nodes[m.qtail.index].next.version + 1);
  }

  ghost function Detached(m: Memory): Memory
    requires InArray(m, m.qhead.index)
  {
    SetFree(AdvanceHead(m, m.nodes[m.qhead.index].next.index), m.qhead.index, true)
  }

  lemma DetachSound(m: Memory, chain: seq<int>)
    requires Sound(m, chain) && |chain| >= 2 && m.qtail.index != m.qhead.index
    ensures Sound(Detached(m), chain[1..])
    ensures Content(m, chain) == [m.nodes[chain[1]].value] + Content(Detached(m), chain[1..])
    ensures m.nodes[chain[0]].next.index == chain[1]
  {
    var c, m' := chain, Detached(m);
    ChainNext(m, c, 0);
    UnlinkContent(m, c);
    SameItems(m.nodes, m'.nodes, c[1..][1..]);
    assert IsChain(m', c[1..]);
    forall i | 0 <= i < |m.nodes| ensures m'.nodes[i].free <==> i !in c[1..] {
      if i in c && i != c[0] {
        var k :| 0 <= k < |c| && c[k] == i;
        assert c[1..][k - 1] == i;
      }
    }
    var k :| 0 <= k < |c| && c[k] == m.qtail.index;
    assert c[1..][k - 1] == m.qtail.index;
  }

  // ------------------------------------------------------------------ the queue

  class BoundedQueue {
    const nodes: array<Node>
    var qhead: Pointer
    var qtail: Pointer
    var freeIndex: int
    ghost var chain: seq<int>

    ghost function Shared(): Memory
      reads this, nodes
    {
      Memory(nodes[..], qhead, qtail)
    }

    ghost predicate Valid()
      reads this, nodes
    {
      Sound(Shared(), chain) && freeIndex >= 1
    }

    /** The queued items, oldest first. */
    ghost function Contents(): seq<Item>
      reads this, nodes
    {
      Content(Shared(), chain)
    }

    /** No Dequeue has returned an item yet: node 0 is still the dummy. */
    ghost predicate Untouched()
      reads this
    {
      0 in chain
    }

    /** Both claim scans start behind node 0, so node 0 is lost once it has been released. */
    ghost function Capacity(): int
      reads this
    {
      if Untouched() then nodes.Length - 1 else nodes.Length - 2
    }

    constructor (size: nat)
      requires size > 0
      ensures Valid() && fresh(nodes) && nodes.Length == size
      ensures Contents() == [] && Untouched()
    {
      nodes := new Node[size](i => Node(Pointer(-1, 0), 0, i != 0));
      qhead, qtail, freeIndex := Pointer(0, 0), Pointer(0, 0), 1;
      chain := [0];
    }

    /** The two claim scans of Enqueue; the node it takes is -1 if there is none. */
    method Claim() returns (node: int)
      requires Valid()
      modifies this`freeIndex, nodes
      ensures freeIndex >= 1
      ensures
        if node == -1 then
          nodes[..] == old(nodes[..]) && forall i :: 1 <= i < nodes.Length ==> i in chain
        else
          && 1 <= node < nodes.Length && old(nodes[node].free)
          && nodes[..] == old(nodes[..])[node := old(nodes[node]).(free := false)]
    {
      node := freeIndex;
      while node < nodes.Length && !nodes[node].free
        invariant node >= 1
      {
        node := node + 1;
      }
      if node >= nodes.Length {
        freeIndex := 1;
        node := 1;
        while node < nodes.Length && !nodes[node].free
          invariant 1 <= node <= nodes.Length
          invariant forall i :: 1 <= i < node ==> i in chain
        {
          node := node + 1;
        }
        if node >= nodes.Length {
          return -1;
        }
      }
      nodes[node] := nodes[node].(free := false);
      freeIndex := node + 1;
    }

    method Enqueue(item: Item) returns (ok: bool)
      requires Valid()
      modifies this, nodes
      ensures Valid()
      ensures ok <==> |old(Contents())| < old(Capacity())
      ensures Contents() == if ok then old(Contents()) + [item] else old(Contents())
      ensures Untouched() == old(Untouched())
    {
      FreeNodeExists(chain, nodes.Length);
      var node := Claim();
      if node == -1 {
        return false;
      }
      nodes[node] := nodes[node].(value := item);
      nodes[node] := nodes[node].(next := Pointer(-1, 0));
      TakeNode(old(Shared()), chain, node, item);
      assert nodes[..] == old(nodes[..])[node := Node(Pointer(-1, 0), item, false)];
      Attach(node);
      ok := true;
    }

    /** The rounds of the retry loop that find the tail behind and help it. */
    method CatchUp()
      requires IsChain(Shared(), chain) && qtail.index in chain
      modifies this`qtail
      ensures Shared() == old(Shared()).(qtail := qtail) && qtail.index == chain[|chain| - 1]
    {
      ghost var k :| 0 <= k < |chain| && chain[k] == qtail.index;
      while nodes[qtail.index].next.index != -1
        invariant 0 <= k < |chain| && chain[k] == qtail.index
        decreases |chain| - k
      {
        ChainNext(Shared(), chain, k);
        qtail := Pointer(nodes[qtail.index].next.index, qtail.version + 1);
        k := k + 1;
      }
      if k < |chain| - 1 { ChainNext(Shared(), chain, k); }
    }

    /** The round of the retry loop that links the node. */
    method Attach(node: int)
      requires Holding(Shared(), chain, node) && freeIndex >= 1
      modifies this`qtail, this`chain, nodes
      ensures Valid() && chain == old(chain) + [node]
      ensures Contents() == old(Contents()) + [old(nodes[node].value)]
    {
      CatchUp();
      ghost var before := Shared();
      AttachSound(before, chain, node);
      var tail := qtail;
      var next := nodes[tail.index].next;
      nodes[tail.index] := nodes[tail.index].(next := Pointer(node, next.version + 1));
      qtail := Pointer(node, tail.version + 1);
      chain := chain + [node];
      assert nodes[..] == Attached(before, node).nodes;
      assert Shared() == Attached(before, node);
    }

    method Dequeue() returns (found: Option<Item>)
      requires Valid()
      modifies this, nodes
      ensures Valid()
      ensures old(Contents()) == [] ==> found == None && Contents() == [] && Untouched() == old(Untouched())
      ensures old(Contents()) != [] ==> found == Some(old(Contents())[0]) && Contents() == old(Contents())[1..]
      ensures old(Contents()) != [] ==> !Untouched()
    {
      ChainEnds(Shared(), chain);
      // The tail may have stayed behind at the dummy; help it first.
      if qhead.index == qtail.index {
        if nodes[qhead.index].next.index == -1 {
          return None;
        }
        ChainNext(Shared(), chain, 0);
        qtail := Pointer(nodes[qhead.index].next.index, qtail.version + 1);
      }
      var item := Detach();
      found := Some(item);
    }

    /** The successful round of Dequeue: move the head, release the old dummy. */
    method Detach() returns (item: Item)
      requires Sound(Shared(), chain) && |chain| >= 2 && qtail.index != qhead.index
      modifies this`qhead, this`chain, nodes
      ensures Sound(Shared(), chain) && chain == old(chain)[1..]
      ensures old(Contents()) == [item] + Contents()
    {
      DetachSound(Shared(), chain);
      item := MoveHead();
      chain := chain[1..];
    }

    /** Read the value behind the dummy, move the head there, release the dummy. */
    method MoveHead() returns (item: Item)
      requires InArray(Shared(), qhead.index) && InArray(Shared(), nodes[qhead.index].next.index)
      modifies this`qhead, nodes
      ensures Shared() == old(Detached(Shared()))
      ensures item == old(nodes[nodes[qhead.index].next.index].value)
    {
      ghost var before := Shared();
      var head := qhead;
      var next := nodes[head.index].next;
      item := nodes[next.index].value;
      qhead := Pointer(next.index, head.version + 1);
      nodes[head.index] := nodes[head.index].(free := true);
      assert nodes[..] == Detached(before).nodes;
    }

    method Empty() returns (empty: bool)
      requires Valid()
      ensures empty <==> Contents() == []
    {
      empty := qhead.index == qtail.index && nodes[qhead.index].next.index == -1;
      ChainEnds(Shared(), chain);
    }
  }
}
