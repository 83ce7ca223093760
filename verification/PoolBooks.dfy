/**
  What the pool keeps beside its allocators: the address table, the events that delay
  what is given back, and the size in use.  The operations here work on these values;
  the pool's methods store what they return.
  */
module PoolBooks {
  import opened Integers
  import opened Buffers
  import opened Vmm
  import opened PoolInvariant
  import opened Events

  /** Who waits for whom: the stream that uses the memory, and the stream it belongs to. */
  datatype Pair = Pair(user: nat, mem: nat)

  /**
    table is addr_mem_buf_allocators_: what is handed out, with the position of its
    allocator.  events has the events of the buffers that have some, by address.  pairs
    is stream_pair_mem_bufs_.
    */
  datatype Ledger = Ledger(table: map<int, nat>, events: map<int, EventMap>, pairs: map<Pair, set<int>>, used: int)

  /**
    A buffer with events is in use, and is listed under one pair of streams, its home; a
    listed buffer has events, and they are events of the pair's user stream.
    */
  ghost predicate Tracked(l: Ledger, home: map<int, Pair>) {
    && (forall a :: a in l.events ==>
          && a in l.table && a in home && home[a] in l.pairs && a in l.pairs[home[a]]
          && NoEmptyList(l.events[a]) && l.events[a].Keys == {home[a].user})
    && (forall p, a :: p in l.pairs && a in l.pairs[p] ==> a in l.events && home[a] == p)
  }

  /** A buffer that was given back and is kept only for its events has events. */
  ghost predicate Waiting(allocs: seq<Allocator>, events: map<int, EventMap>, but: set<int>) {
    forall i, b {:trigger b in InUse(allocs[i].bufs)} ::
      0 <= i < |allocs| && b in InUse(allocs[i].bufs) && b.status == UsedByEvent ==> b.addr in events || b.addr in but
  }

  /** The ledger fits the allocators. */
  ghost predicate InOrder(allocs: seq<Allocator>, l: Ledger, home: map<int, Pair>, but: set<int>) {
    Tabled(allocs, l.table) && Tracked(l, home) && Waiting(allocs, l.events, but) && l.used == Total(allocs)
  }

  lemma LessInOrder(allocs: seq<Allocator>, was: seq<Allocator>, l: Ledger, home: map<int, Pair>, i: nat, b: Buf)
    requires OneLess(allocs, was, i, b) && InOrder(was, l, home, {b.addr}) && b.addr !in l.events
    requires Tabled(allocs, l.table - {b.addr}) && Total(allocs) == Total(was) - b.size
    ensures InOrder(allocs, l.(table := l.table - {b.addr}, used := l.used - b.size), home, {})
  {
    forall j, c | 0 <= j < |allocs| && c in InUse(allocs[j].bufs) && c.status == UsedByEvent ensures c.addr in l.events {
      assert c in InUse(was[j].bufs);
    }
  }

  lemma MarkedInOrder(allocs: seq<Allocator>, was: seq<Allocator>, l: Ledger, home: map<int, Pair>, i: nat, b: Buf)
    requires OneMarked(allocs, was, i, b) && InOrder(was, l, home, {}) && b.addr in l.events
    requires Tabled(allocs, l.table) && Total(allocs) == Total(was)
    ensures InOrder(allocs, l, home, {})
  {
    forall j, c | 0 <= j < |allocs| && c in InUse(allocs[j].bufs) && c.status == UsedByEvent ensures c.addr in l.events {
      if j != i || c != b.(status := UsedByEvent) { assert c in InUse(was[j].bufs); }
    }
  }

  lemma SameUseInOrder(allocs: seq<Allocator>, was: seq<Allocator>, l: Ledger, home: map<int, Pair>)
    requires SameUse(allocs, was) && InOrder(was, l, home, {})
    ensures InOrder(allocs, l, home, {})
  {
    SameUseTabled(allocs, was, l.table);
    SameUseTotal(allocs, was);
    forall i, b | 0 <= i < |allocs| && b in InUse(allocs[i].bufs) && b.status == UsedByEvent ensures b.addr in l.events {
      assert SameUseAt(allocs[i], was[i]);
    }
  }

  lemma OneMoreInOrder(allocs: seq<Allocator>, was: seq<Allocator>, l: Ledger, home: map<int, Pair>, i: nat, b: Buf)
    requires OneMore(allocs, was, i, b) && InOrder(was, l, home, {}) && b.addr !in l.table
    ensures InOrder(allocs, l.(table := l.table[b.addr := i], used := l.used + b.size), home, {})
  {
    OneMoreTabled(allocs, was, i, b, l.table);
    OneMoreTotal(allocs, was, i, b);
    forall j, c | 0 <= j < |allocs| && c in InUse(allocs[j].bufs) && c.status == UsedByEvent ensures c.addr in l.events {
      if j != i { assert SameUseAt(allocs[j], was[j]); }
      assert c in InUse(was[j].bufs);
    }
  }

  // -------------------------------------------------------------- giving back

  /** Allocator i frees the buffer at the address. */
  method FreeBuf(allocs: seq<Allocator>, i: nat, addr: int, ghost pages: PageMap, ghost table: map<int, nat>)
    returns (r: seq<Allocator>, size: int, ghost b: Buf)
    requires Laid(pages, allocs) && Backs(pages, allocs) && Tabled(allocs, table) && addr in table && table[addr] == i
    ensures Laid(pages, r) && Backs(pages, r) && Tabled(r, table - {addr})
    ensures OneLess(r, allocs, i, b) && b.addr == addr && b.size == size > 0 && Total(r) == Total(allocs) - size
  {
    ghost var at := TableFinds(pages, allocs, table, addr);
    var bufs := allocs[i].bufs;
    var k := IndexOf(bufs, addr);
    assert Shaped(allocs[i]);
    FreeKeepsBooks(pages, allocs, table, i, k);
    b := bufs[k];
    return WithBufs(allocs, i, FreeAt(bufs, k, Idle)), bufs[k].size, b;
  }

  /** Allocator i only marks the buffer at the address. */
  method MarkBuf(allocs: seq<Allocator>, i: nat, addr: int, ghost pages: PageMap, ghost table: map<int, nat>)
    returns (r: seq<Allocator>, ghost b: Buf)
    requires Laid(pages, allocs) && Backs(pages, allocs) && Tabled(allocs, table) && addr in table && table[addr] == i
    ensures Laid(pages, r) && Backs(pages, r) && Tabled(r, table)
    ensures OneMarked(r, allocs, i, b) && b.addr == addr && Total(r) == Total(allocs)
  {
    ghost var at := TableFinds(pages, allocs, table, addr);
    var bufs := allocs[i].bufs;
    var k := IndexOf(bufs, addr);
    MarkKeepsBooks(pages, allocs, table, i, k);
    b := bufs[k];
    return WithBufs(allocs, i, bufs[k := bufs[k].(status := UsedByEvent)]), b;
  }

  /** Memory is in order, and so is the ledger. */
  ghost predicate Sound(pages: PageMap, allocs: seq<Allocator>, l: Ledger, home: map<int, Pair>, but: set<int>) {
    Laid(pages, allocs) && Backs(pages, allocs) && InOrder(allocs, l, home, but)
  }

  /** The buffer without events goes back to its allocator. */
  method GiveBack(allocs: seq<Allocator>, l: Ledger, addr: int, ghost pages: PageMap, ghost home: map<int, Pair>)
    returns (allocs': seq<Allocator>, l': Ledger, ghost b: Buf)
    requires Sound(pages, allocs, l, home, {addr}) && addr in l.table && addr !in l.events
    ensures Sound(pages, allocs', l', home, {})
    ensures OneLess(allocs', allocs, l.table[addr], b) && b.addr == addr && b.size > 0
    ensures l' == l.(table := l.table - {addr}, used := l.used - b.size)
  {
    var size;
    allocs', size, b := FreeBuf(allocs, l.table[addr], addr, pages, l.table);
    LessInOrder(allocs', allocs, l, home, l.table[addr], b);
    l' := l.(table := l.table - {addr}, used := l.used - size);
  }

  /** What giving back an address does: without events the buffer is free, with events it is only marked. */
  ghost predicate Given(allocs: seq<Allocator>, l: Ledger, allocs': seq<Allocator>, l': Ledger, addr: int, freed: bool, b: Buf) {
    && (freed <==> addr in l.table && addr !in l.events)
    && (freed ==>
          && OneLess(allocs', allocs, l.table[addr], b) && b.addr == addr && b.size > 0
          && l' == l.(table := l.table - {addr}, used := l.used - b.size))
    && (!freed ==> l' == l && if addr in l.table then OneMarked(allocs', allocs, l.table[addr], b) && b.addr == addr else allocs' == allocs)
  }

  /** DoFreeTensorMem: a buffer that still has events is only marked. */
  method DoFreeTensorMem(allocs: seq<Allocator>, l: Ledger, addr: int, ghost pages: PageMap, ghost home: map<int, Pair>)
    returns (freed: bool, allocs': seq<Allocator>, l': Ledger, ghost b: Buf)
    requires Sound(pages, allocs, l, home, {})
    ensures Sound(pages, allocs', l', home, {})
    ensures Given(allocs, l, allocs', l', addr, freed, b)
  {
    allocs', l', b := allocs, l, Buf(0, 0, Idle, 0);
    if addr !in l.table { return false, allocs', l', b; }
    if addr in l.events {
      allocs', b := MarkBuf(allocs, l.table[addr], addr, pages, l.table);
      MarkedInOrder(allocs', allocs, l, home, l.table[addr], b);
      return false, allocs', l', b;
    }
    assert Waiting(allocs, l.events, {addr});
    allocs', l', b := GiveBack(allocs, l, addr, pages, home);
    return true, allocs', l', b;
  }

  // ------------------------------------------------------------------ events

  function Recorded(l: Ledger, task: int, pair: Pair, addr: int): Ledger {
    var now := if addr in l.events then l.events[addr] else map[];
    var listed := if pair in l.pairs then l.pairs[pair] else {};
    l.(events := l.events[addr := Record(now, task, pair.user)], pairs := l.pairs[pair := listed + {addr}])
  }

  lemma RecordedInOrder(allocs: seq<Allocator>, l: Ledger, home: map<int, Pair>, task: int, pair: Pair, addr: int)
    requires InOrder(allocs, l, home, {}) && addr in l.table && (addr in l.events ==> home[addr] == pair)
    ensures InOrder(allocs, Recorded(l, task, pair, addr), home[addr := pair], {})
  {
    var now := if addr in l.events then l.events[addr] else map[];
    assert Record(now, task, pair.user).Keys == {pair.user};
  }

  /** The listed buffers have no events of another pair of streams, and none is listed for two owners. */
  ghost predicate UnderOnePair(l: Ledger, home: map<int, Pair>, user: nat, list: seq<(nat, int)>) {
    && (forall k :: 0 <= k < |list| && list[k].1 in l.events ==> list[k].1 in home && home[list[k].1] == Pair(user, list[k].0))
    && (forall k, m :: 0 <= k < m < |list| && list[k].1 == list[m].1 ==> list[k].0 == list[m].0)
  }

  /** One address of RecordEvent; one that the pool does not know is skipped. */
  method RecordOne(allocs: seq<Allocator>, l: Ledger, task: int, pair: Pair, addr: int,
                   ghost pages: PageMap, ghost home: map<int, Pair>)
    returns (l': Ledger, ghost home': map<int, Pair>)
    requires Sound(pages, allocs, l, home, {}) && (addr in l.events ==> home[addr] == pair)
    ensures Sound(pages, allocs, l', home', {}) && l'.table == l.table && l'.used == l.used
    ensures if addr in l.table then l' == Recorded(l, task, pair, addr) && home' == home[addr := pair] else l' == l && home' == home
  {
    l', home' := l, home;
    if addr in l.table {
      RecordedInOrder(allocs, l, home, task, pair, addr);
      l', home' := Recorded(l, task, pair, addr), home[addr := pair];
    }
  }

  lemma StillUnderOnePair(l: Ledger, home: map<int, Pair>, user: nat, list: seq<(nat, int)>, task: int, n: nat)
    requires UnderOnePair(l, home, user, list) && n < |list|
    ensures var pair := Pair(user, list[n].0);
            UnderOnePair(Recorded(l, task, pair, list[n].1), home[list[n].1 := pair], user, list)
  {
    var addr, pair := list[n].1, Pair(user, list[n].0);
    var l', home' := Recorded(l, task, pair, addr), home[addr := pair];
    forall k | 0 <= k < |list| && list[k].1 in l'.events ensures list[k].1 in home' && home'[list[k].1] == Pair(user, list[k].0) {
      if list[k].1 != addr { assert list[k].1 in l.events; }
    }
  }

  /** How often the address is among the first n entries. */
  function Times(list: seq<(nat, int)>, n: nat, addr: int): nat
    requires n <= |list|
  {
    if n == 0 then 0 else Times(list, n - 1, addr) + (if list[n - 1].1 == addr then 1 else 0)
  }

  /** The address is among the first n entries, as memory of this stream. */
  predicate IsNamed(list: seq<(nat, int)>, n: nat, mem: nat, addr: int)
    requires n <= |list|
  {
    n > 0 && (IsNamed(list, n - 1, mem, addr) || (list[n - 1].0 == mem && list[n - 1].1 == addr))
  }

  function EventsOf(l: Ledger, addr: int): EventMap {
    if addr in l.events then l.events[addr] else map[]
  }

  function Listed(l: Ledger, pair: Pair): set<int> {
    if pair in l.pairs then l.pairs[pair] else {}
  }

  function Copies(task: int, n: nat): seq<int> {
    if n == 0 then [] else Copies(task, n - 1) + [task]
  }

  /** The events with the task at the end of the stream's list, n times. */
  function Added(events: EventMap, task: int, stream: nat, n: nat): EventMap {
    if n == 0 then events
    else events[stream := (if stream in events then events[stream] else []) + Copies(task, n)]
  }

  lemma AddedOneMore(events: EventMap, task: int, stream: nat, n: nat)
    ensures Record(Added(events, task, stream, n), task, stream) == Added(events, task, stream, n + 1)
  {
    var list := if stream in events then events[stream] else [];
    assert list + Copies(task, n + 1) == (list + Copies(task, n)) + [task];
    assert n == 0 ==> list + Copies(task, n) == list;
  }

  /** From l to l', the task was recorded for the first n entries, and nothing else has changed in the events. */
  ghost predicate RecordedFor(l: Ledger, l': Ledger, task: int, user: nat, list: seq<(nat, int)>, n: nat)
    requires n <= |list|
  {
    && (forall a :: a in l'.events <==> a in l.events || (a in l.table && Times(list, n, a) > 0))
    && (forall a :: a in l'.events ==> l'.events[a] == Added(EventsOf(l, a), task, user, Times(list, n, a)))
    && ListedFor(l, l', user, list, n)
  }

  ghost predicate ListedFor(l: Ledger, l': Ledger, user: nat, list: seq<(nat, int)>, n: nat)
    requires n <= |list|
  {
    forall p, a {:trigger a in Listed(l', p)} ::
      a in Listed(l', p) <==> a in Listed(l, p) || (p.user == user && a in l.table && IsNamed(list, n, p.mem, a))
  }

  /** The ledger after one entry more. */
  function WithEntry(l: Ledger, task: int, user: nat, entry: (nat, int)): Ledger {
    if entry.1 in l.table then Recorded(l, task, Pair(user, entry.0), entry.1) else l
  }

  lemma RecordedOneMore(l: Ledger, l': Ledger, task: int, user: nat, list: seq<(nat, int)>, n: nat)
    requires n < |list| && RecordedFor(l, l', task, user, list, n) && l'.table == l.table
    requires forall a :: a in l.events ==> a in l.table
    ensures RecordedFor(l, WithEntry(l', task, user, list[n]), task, user, list, n + 1)
  {
    var addr, next := list[n].1, WithEntry(l', task, user, list[n]);
    AddedOneMore(EventsOf(l, addr), task, user, Times(list, n, addr));
    forall a | a in next.events ensures next.events[a] == Added(EventsOf(l, a), task, user, Times(list, n + 1, a)) {
      if a == addr { assert EventsOf(l', addr) == Added(EventsOf(l, addr), task, user, Times(list, n, addr)); }
    }
    ListedOneMore(l, l', task, user, list, n);
  }

  lemma ListedOneMore(l: Ledger, l': Ledger, task: int, user: nat, list: seq<(nat, int)>, n: nat)
    requires n < |list| && ListedFor(l, l', user, list, n) && l'.table == l.table
    ensures ListedFor(l, WithEntry(l', task, user, list[n]), user, list, n + 1)
  {
    var addr, pair, next := list[n].1, Pair(user, list[n].0), WithEntry(l', task, user, list[n]);
    assert forall p, a {:trigger a in Listed(next, p)} ::
        a in Listed(next, p) <==> a in Listed(l, p) || (p.user == user && a in l.table && IsNamed(list, n + 1, p.mem, a)) by {
      forall p: Pair, a: int
        ensures a in Listed(next, p) <==> a in Listed(l, p) || (p.user == user && a in l.table && IsNamed(list, n + 1, p.mem, a))
      {
        assert p == pair <==> p.user == user && p.mem == list[n].0;
        assert a in Listed(next, p) <==> a in Listed(l', p) || (p == pair && a == addr && addr in l.table);
        assert a in Listed(l', p) <==> a in Listed(l, p) || (p.user == user && a in l.table && IsNamed(list, n, p.mem, a));
      }
    }
  }

  lemma RecordedNone(l: Ledger, task: int, user: nat, list: seq<(nat, int)>)
    ensures RecordedFor(l, l, task, user, list, 0)
  {
  }

  /** All events are in the order of their tasks. */
  ghost predicate Chronological(l: Ledger) {
    forall a, s :: a in l.events && s in l.events[a] ==> NonDecreasing(l.events[a][s])
  }

  ghost predicate NoneLater(l: Ledger, task: int) {
    forall a, s :: a in l.events && s in l.events[a] ==> NotBelow(l.events[a][s], task)
  }

  lemma {:induction false} AddedKeepsOrder(events: EventMap, task: int, stream: nat, n: nat)
    requires forall s :: s in events ==> NonDecreasing(events[s]) && NotBelow(events[s], task)
    ensures forall s :: s in Added(events, task, stream, n) ==>
              NonDecreasing(Added(events, task, stream, n)[s]) && NotBelow(Added(events, task, stream, n)[s], task)
  {
    if n > 0 {
      AddedKeepsOrder(events, task, stream, n - 1);
      AddedOneMore(events, task, stream, n - 1);
      RecordKeepsOrder(Added(events, task, stream, n - 1), task, stream);
    }
  }

  /** Recording a task that is not below the earlier ones keeps all events in order. */
  lemma RecordingKeepsOrder(l: Ledger, l': Ledger, task: int, user: nat, list: seq<(nat, int)>)
    requires RecordedFor(l, l', task, user, list, |list|) && Chronological(l) && NoneLater(l, task)
    ensures Chronological(l') && NoneLater(l', task)
  {
    forall a, s | a in l'.events && s in l'.events[a] ensures NonDecreasing(l'.events[a][s]) && NotBelow(l'.events[a][s], task) {
      AddedKeepsOrder(EventsOf(l, a), task, user, Times(list, |list|, a));
    }
  }

  /** Waiting keeps all events in order. */
  lemma WaitingKeepsOrder(allocs: seq<Allocator>, l: Ledger, home: map<int, Pair>, allocs': seq<Allocator>, l': Ledger, task: int)
    requires Tracked(l, home) && Chronological(l) && 0 <= task < TWO32
    requires forall a :: (a in l.events && WaitedAt(allocs, l, l', task, home[a].user, a)) || Untouched(allocs, l, allocs', l', a)
    ensures Chronological(l')
  {
    forall a, s | a in l'.events && s in l'.events[a] ensures NonDecreasing(l'.events[a][s]) {
      OneStream(l, home, a);
      var user := home[a].user;
      AfterKeepsOrder(l.events[a][user], task);
    }
  }

  /** RecordEvent */
  method RecordAll(allocs: seq<Allocator>, l: Ledger, task: int, user: nat, list: seq<(nat, int)>,
                   ghost pages: PageMap, ghost home: map<int, Pair>)
    returns (l': Ledger, ghost home': map<int, Pair>)
    requires Sound(pages, allocs, l, home, {}) && UnderOnePair(l, home, user, list)
    ensures Sound(pages, allocs, l', home', {}) && l'.table == l.table && l'.used == l.used
    ensures RecordedFor(l, l', task, user, list, |list|)
  {
    l', home' := l, home;
    RecordedNone(l, task, user, list);
    for n := 0 to |list|
      invariant Recording(pages, allocs, l, l', home', task, user, list, n)
    {
      l', home' := RecordNext(allocs, l, l', task, user, list, n, pages, home');
    }
  }

  /** The first n entries have been recorded. */
  ghost predicate Recording(pages: PageMap, allocs: seq<Allocator>, l: Ledger, l': Ledger, home: map<int, Pair>, task: int, user: nat,
                            list: seq<(nat, int)>, n: nat)
  {
    && n <= |list| && Sound(pages, allocs, l', home, {}) && UnderOnePair(l', home, user, list)
    && l'.table == l.table && l'.used == l.used && RecordedFor(l, l', task, user, list, n)
  }

  method RecordNext(allocs: seq<Allocator>, ghost l: Ledger, now: Ledger, task: int, user: nat, list: seq<(nat, int)>, n: nat,
                    ghost pages: PageMap, ghost home: map<int, Pair>)
    returns (l': Ledger, ghost home': map<int, Pair>)
    requires Recording(pages, allocs, l, now, home, task, user, list, n) && n < |list| && forall a :: a in l.events ==> a in l.table
    ensures Recording(pages, allocs, l, l', home', task, user, list, n + 1)
  {
    RecordedOneMore(l, now, task, user, list, n);
    StillUnderOnePair(now, home, user, list, task, n);
    l', home' := RecordOne(allocs, now, task, Pair(user, list[n].0), list[n].1, pages, home);
  }

  method StatusOf(allocs: seq<Allocator>, table: map<int, nat>, addr: int, ghost pages: PageMap)
    returns (status: Status, ghost b: Buf)
    requires Laid(pages, allocs) && Tabled(allocs, table) && addr in table
    ensures b in InUse(allocs[table[addr]].bufs) && b.addr == addr && b.status == status
  {
    ghost var at := TableFinds(pages, allocs, table, addr);
    var bufs := allocs[table[addr]].bufs;
    b := bufs[IndexOf(bufs, addr)];
    return bufs[IndexOf(bufs, addr)].status, b;
  }

  /** The buffer has no events left and is erased from all lists. */
  function Cleared(l: Ledger, addr: int): Ledger {
    l.(events := l.events - {addr}, pairs := map p | p in l.pairs :: l.pairs[p] - {addr})
  }

  lemma ClearedInOrder(pages: PageMap, allocs: seq<Allocator>, l: Ledger, home: map<int, Pair>, addr: int, b: Buf)
    requires Laid(pages, allocs) && InOrder(allocs, l, home, {})
    requires addr in l.events && b in InUse(allocs[l.table[addr]].bufs) && b.addr == addr
    ensures InOrder(allocs, Cleared(l, addr), home, {addr})
    ensures b.status != UsedByEvent ==> InOrder(allocs, Cleared(l, addr), home, {})
  {
    var i := l.table[addr];
    forall j, c | 0 <= j < |allocs| && c in InUse(allocs[j].bufs) && c.addr == addr ensures j == i && c == b {
      var m :| 0 <= m < |allocs[j].bufs| && allocs[j].bufs[m] == c;
      StartIsUnique(pages, allocs, i, b, j, m);
    }
  }

  /** The buffer at the address is kept only for its events. */
  ghost predicate OnlyForEvents(allocs: seq<Allocator>, l: Ledger, addr: int) {
    addr in l.table && l.table[addr] < |allocs| &&
    exists b :: b in InUse(allocs[l.table[addr]].bufs) && b.addr == addr && b.status == UsedByEvent
  }

  /**
    The last events of the buffer have arrived: it is listed no longer, and it is given
    back if it was kept only for them.
    */
  method Settle(allocs: seq<Allocator>, l: Ledger, addr: int, ghost pages: PageMap, ghost home: map<int, Pair>)
    returns (allocs': seq<Allocator>, l': Ledger)
    requires Sound(pages, allocs, l, home, {}) && addr in l.events
    ensures Sound(pages, allocs', l', home, {}) && |allocs'| == |allocs| && l'.used <= l.used
    ensures l'.events == l.events - {addr} && l'.pairs == Cleared(l, addr).pairs
    ensures l'.table == if OnlyForEvents(allocs, l, addr) then l.table - {addr} else l.table
    ensures forall a :: a in l'.table && a != addr ==> (OnlyForEvents(allocs', l', a) <==> OnlyForEvents(allocs, l, a))
    ensures KeptUse(allocs', allocs)
  {
    var status;
    ghost var b;
    status, b := StatusOf(allocs, l.table, addr, pages);
    ClearedInOrder(pages, allocs, l, home, addr, b);
    OnlyByStatus(pages, allocs, l, b);
    allocs', l' := allocs, Cleared(l, addr);
    if status == UsedByEvent {
      allocs', l' := GiveBackWaiting(allocs, l', addr, pages, home, b);
    } else {
      SameUseRefl(allocs);
      SameUseIsKept(allocs, allocs);
    }
  }

  lemma OnlyByStatus(pages: PageMap, allocs: seq<Allocator>, l: Ledger, b: Buf)
    requires Laid(pages, allocs) && Tabled(allocs, l.table) && b.addr in l.table && b in InUse(allocs[l.table[b.addr]].bufs)
    ensures OnlyForEvents(allocs, l, b.addr) <==> b.status == UsedByEvent
  {
    OnlyStart(pages, allocs, l.table[b.addr], b);
  }

  /** The buffer b that was kept only for its events goes back. */
  method GiveBackWaiting(allocs: seq<Allocator>, l: Ledger, addr: int, ghost pages: PageMap, ghost home: map<int, Pair>, ghost b: Buf)
    returns (allocs': seq<Allocator>, l': Ledger)
    requires Sound(pages, allocs, l, home, {addr}) && addr in l.table && addr !in l.events
    requires b in InUse(allocs[l.table[addr]].bufs) && b.addr == addr && b.status == UsedByEvent
    ensures Sound(pages, allocs', l', home, {}) && OneLess(allocs', allocs, l.table[addr], b) && b.size > 0
    ensures l' == l.(table := l.table - {addr}, used := l.used - b.size)
    ensures KeptUse(allocs', allocs)
    ensures forall a :: a in l'.table ==> (OnlyForEvents(allocs', l', a) <==> OnlyForEvents(allocs, l, a))
  {
    OnlyStart(pages, allocs, l.table[addr], b);
    ghost var c;
    allocs', l', c := GiveBack(allocs, l, addr, pages, home);
    OneLessKept(allocs', allocs, l.table[addr], b);
    OthersStay(allocs, l, allocs', l', b);
  }

  lemma OthersStay(allocs: seq<Allocator>, l: Ledger, allocs': seq<Allocator>, l': Ledger, b: Buf)
    requires b.addr in l.table && OneLess(allocs', allocs, l.table[b.addr], b) && l'.table == l.table - {b.addr}
    ensures forall a :: a in l'.table ==> (OnlyForEvents(allocs', l', a) <==> OnlyForEvents(allocs, l, a))
  {
  }

  lemma OnlyStart(pages: PageMap, allocs: seq<Allocator>, i: nat, b: Buf)
    requires Laid(pages, allocs) && i < |allocs| && b in InUse(allocs[i].bufs)
    ensures forall c :: c in InUse(allocs[i].bufs) && c.addr == b.addr ==> c == b
  {
    forall c | c in InUse(allocs[i].bufs) && c.addr == b.addr ensures c == b {
      var m :| 0 <= m < |allocs[i].bufs| && allocs[i].bufs[m] == c;
      StartIsUnique(pages, allocs, i, b, i, m);
    }
  }

  /** What waiting for a task does to one buffer that has events, recorded in order. */
  ghost predicate WaitedAt(allocs: seq<Allocator>, l: Ledger, l': Ledger, task: int, user: nat, a: int) {
    a in l.events && user in l.events[a] && NonDecreasing(l.events[a][user]) && 0 <= task < TWO32 ==>
      var rest := After(l.events[a][user], task);
      if rest == [] then a !in l'.events && (a in l'.table <==> !OnlyForEvents(allocs, l, a))
      else a in l'.table && a in l'.events && l'.events[a] == l.events[a][user := rest]
  }

  ghost predicate Untouched(allocs: seq<Allocator>, l: Ledger, allocs': seq<Allocator>, l': Ledger, a: int) {
    && (a in l'.events <==> a in l.events) && (a in l.events ==> l'.events[a] == l.events[a])
    && (a in l'.table <==> a in l.table)
    && (OnlyForEvents(allocs', l', a) <==> OnlyForEvents(allocs, l, a))
  }

  lemma StillWaiting(allocs: seq<Allocator>, l: Ledger, home: map<int, Pair>, addr: int, left: EventMap)
    requires InOrder(allocs, l, home, {}) && addr in l.events
    requires left.Keys <= l.events[addr].Keys && NoEmptyList(left) && exists s :: s in left
    ensures InOrder(allocs, l.(events := l.events[addr := left]), home, {})
  {
    var s :| s in left;
    assert s in left.Keys;
    assert left.Keys == {home[addr].user};
  }

  lemma SettledAlone(allocs: seq<Allocator>, l: Ledger, allocs': seq<Allocator>, l': Ledger, home: map<int, Pair>, addr: int)
    requires Tracked(l, home) && l'.events == l.events - {addr} && l'.pairs == Cleared(l, addr).pairs
    requires l'.table == if OnlyForEvents(allocs, l, addr) then l.table - {addr} else l.table
    requires forall a :: a in l'.table && a != addr ==> (OnlyForEvents(allocs', l', a) <==> OnlyForEvents(allocs, l, a))
    ensures forall a :: a != addr ==> Untouched(allocs, l, allocs', l', a)
    ensures forall p :: p in l.pairs ==> p in l'.pairs
  {
  }

  /** One buffer of WaitEvent. */
  method WaitOne(allocs: seq<Allocator>, l: Ledger, task: int, user: nat, addr: int,
                 ghost pages: PageMap, ghost home: map<int, Pair>)
    returns (allocs': seq<Allocator>, l': Ledger)
    requires Sound(pages, allocs, l, home, {}) && addr in l.events && home[addr].user == user
    ensures Sound(pages, allocs', l', home, {}) && l'.used <= l.used
    ensures forall p :: p in l.pairs ==> p in l'.pairs
    ensures WaitedAt(allocs, l, l', task, user, addr)
    ensures forall a :: a != addr ==> Untouched(allocs, l, allocs', l', a)
  {
    var left := WaitEvent(l.events[addr], task, user);
    OneStream(l, home, addr);
    OneStreamLeft(l.events[addr], left, user);
    if exists s :: s in left {
      StillWaiting(allocs, l, home, addr, left);
      allocs', l' := allocs, l.(events := l.events[addr := left]);
    } else {
      allocs', l' := Settle(allocs, l, addr, pages, home);
      SettledAlone(allocs, l, allocs', l', home, addr);
    }
    WaitedAsLeft(allocs, l, l', task, user, addr, left);
  }

  lemma WaitedAsLeft(allocs: seq<Allocator>, l: Ledger, l': Ledger, task: int, user: nat, a: int, left: EventMap)
    requires a in l.events && user in l.events[a]
    requires NonDecreasing(l.events[a][user]) && 0 <= task < TWO32 ==>
               var rest := After(l.events[a][user], task);
               left == if rest == [] then l.events[a] - {user} else l.events[a][user := rest]
    requires user in left ==> a in l'.table && a in l'.events && l'.events[a] == left
    requires user !in left ==> a !in l'.events && (a in l'.table <==> !OnlyForEvents(allocs, l, a))
    ensures WaitedAt(allocs, l, l', task, user, a)
  {
  }

  lemma OneStreamLeft(events: EventMap, left: EventMap, user: nat)
    requires left.Keys <= events.Keys && forall s :: s in events <==> s == user
    ensures (exists s :: s in left) <==> user in left
    ensures forall s :: s in left ==> s == user
  {
    forall s | s in left ensures s == user { assert s in left.Keys; }
  }

  lemma OneStream(l: Ledger, home: map<int, Pair>, addr: int)
    requires Tracked(l, home) && addr in l.events
    ensures forall s :: s in l.events[addr] <==> s == home[addr].user
    ensures addr in l.table
  {
    forall s ensures s in l.events[addr] <==> s == home[addr].user {
      assert s in l.events[addr] <==> s in l.events[addr].Keys;
    }
  }

  lemma WaitedLater(allocs: seq<Allocator>, l: Ledger, allocs1: seq<Allocator>, l1: Ledger, l2: Ledger, task: int, user: nat, a: int)
    requires Untouched(allocs, l, allocs1, l1, a) && WaitedAt(allocs1, l1, l2, task, user, a)
    ensures WaitedAt(allocs, l, l2, task, user, a)
  {
  }

  lemma WaitedBefore(allocs: seq<Allocator>, l: Ledger, allocs1: seq<Allocator>, l1: Ledger,
                     allocs2: seq<Allocator>, l2: Ledger, task: int, user: nat, a: int)
    requires WaitedAt(allocs, l, l1, task, user, a) && Untouched(allocs1, l1, allocs2, l2, a)
    ensures WaitedAt(allocs, l, l2, task, user, a)
  {
  }

  /** Exactly the buffers at home in the pair are listed under it. */
  lemma ListedAreHome(l: Ledger, home: map<int, Pair>, pair: Pair)
    requires Tracked(l, home) && pair in l.pairs
    ensures forall a :: a in l.pairs[pair] <==> a in l.events && home[a] == pair
  {
  }

  /** WaitEvent: the buffers listed under one pair of streams, and no other. */
  method WaitPair(allocs: seq<Allocator>, l: Ledger, task: int, pair: Pair, ghost pages: PageMap, ghost home: map<int, Pair>)
    returns (allocs': seq<Allocator>, l': Ledger)
    requires Sound(pages, allocs, l, home, {}) && pair in l.pairs
    ensures Sound(pages, allocs', l', home, {}) && l'.used <= l.used
    ensures forall p :: p in l.pairs ==> p in l'.pairs
    ensures forall a :: a in l.pairs[pair] ==> WaitedAt(allocs, l, l', task, pair.user, a)
    ensures forall a :: a !in l.pairs[pair] ==> Untouched(allocs, l, allocs', l', a)
  {
    allocs', l' := allocs, l;
    var todo := l.pairs[pair];
    while exists a :: a in todo
      invariant Sound(pages, allocs', l', home, {}) && l'.used <= l.used && todo <= l.pairs[pair]
      invariant forall p :: p in l.pairs ==> p in l'.pairs
      invariant forall a :: a in todo || a !in l.pairs[pair] ==> Untouched(allocs, l, allocs', l', a)
      invariant forall a :: a in l.pairs[pair] && a !in todo ==> WaitedAt(allocs, l, l', task, pair.user, a)
      decreases todo
    {
      var addr :| addr in todo;
      ghost var allocs1, l1 := allocs', l';
      allocs', l' := WaitOne(allocs', l', task, pair.user, addr, pages, home);
      PairStep(allocs, l, allocs1, l1, allocs', l', task, pair, todo, addr);
      todo := todo - {addr};
    }
  }

  lemma PairStep(allocs: seq<Allocator>, l: Ledger, allocs1: seq<Allocator>, l1: Ledger,
                 allocs2: seq<Allocator>, l2: Ledger, task: int, pair: Pair, todo: set<int>, addr: int)
    requires pair in l.pairs && addr in todo && addr in l.pairs[pair]
    requires forall a :: a in todo || a !in l.pairs[pair] ==> Untouched(allocs, l, allocs1, l1, a)
    requires forall a :: a in l.pairs[pair] && a !in todo ==> WaitedAt(allocs, l, l1, task, pair.user, a)
    requires WaitedAt(allocs1, l1, l2, task, pair.user, addr)
    requires forall a :: a != addr ==> Untouched(allocs1, l1, allocs2, l2, a)
    ensures forall a :: a in todo - {addr} || a !in l.pairs[pair] ==> Untouched(allocs, l, allocs2, l2, a)
    ensures forall a :: a in l.pairs[pair] && a !in todo - {addr} ==> WaitedAt(allocs, l, l2, task, pair.user, a)
  {
    forall a | a in todo - {addr} || a !in l.pairs[pair] ensures Untouched(allocs, l, allocs2, l2, a) {
      assert Untouched(allocs1, l1, allocs2, l2, a);
    }
    forall a | a in l.pairs[pair] && a !in todo - {addr} ensures WaitedAt(allocs, l, l2, task, pair.user, a) {
      if a == addr {
        WaitedLater(allocs, l, allocs1, l1, l2, task, pair.user, a);
      } else {
        WaitedBefore(allocs, l, allocs1, l1, allocs2, l2, task, pair.user, a);
      }
    }
  }

  /** a is among the buffers that waiting for the memory stream concerns, and its pair is not in todo. */
  ghost predicate Concerned(l: Ledger, home: map<int, Pair>, mem: nat, todo: set<Pair>, a: int) {
    a in l.events && a in home && home[a].mem == mem && home[a] !in todo
  }

  /** WaitEvent without a user stream: every pair of that memory stream. */
  method WaitMemory(allocs: seq<Allocator>, l: Ledger, task: int, mem: nat, ghost pages: PageMap, ghost home: map<int, Pair>)
    returns (allocs': seq<Allocator>, l': Ledger)
    requires Sound(pages, allocs, l, home, {})
    ensures Sound(pages, allocs', l', home, {}) && l'.used <= l.used
    ensures forall a :: Concerned(l, home, mem, {}, a) ==> WaitedAt(allocs, l, l', task, home[a].user, a)
    ensures forall a :: !Concerned(l, home, mem, {}, a) ==> Untouched(allocs, l, allocs', l', a)
  {
    allocs', l' := allocs, l;
    var todo := set p | p in l.pairs && p.mem == mem;
    while exists p :: p in todo
      invariant Sound(pages, allocs', l', home, {}) && l'.used <= l.used
      invariant forall p :: p in todo ==> p in l'.pairs && p.mem == mem
      invariant forall a :: if Concerned(l, home, mem, todo, a) then WaitedAt(allocs, l, l', task, home[a].user, a)
                            else Untouched(allocs, l, allocs', l', a)
      decreases todo
    {
      var pair :| pair in todo;
      ghost var allocs1, l1 := allocs', l';
      ListedAreHome(l1, home, pair);
      allocs', l' := WaitPair(allocs', l', task, pair, pages, home);
      MemoryStep(allocs, l, allocs1, l1, allocs', l', home, task, mem, todo, pair);
      todo := todo - {pair};
    }
    forall a ensures Concerned(l, home, mem, {}, a) <==> Concerned(l, home, mem, todo, a) {}
  }

  lemma MemoryStep(allocs: seq<Allocator>, l: Ledger, allocs1: seq<Allocator>, l1: Ledger, allocs2: seq<Allocator>, l2: Ledger,
                   home: map<int, Pair>, task: int, mem: nat, todo: set<Pair>, pair: Pair)
    requires pair in todo && pair.mem == mem && pair in l1.pairs && forall a :: a in l1.events ==> a in home
    requires forall a :: if Concerned(l, home, mem, todo, a) then WaitedAt(allocs, l, l1, task, home[a].user, a)
                         else Untouched(allocs, l, allocs1, l1, a)
    requires forall a :: a in l1.pairs[pair] <==> a in l1.events && home[a] == pair
    requires forall a :: a in l1.pairs[pair] ==> WaitedAt(allocs1, l1, l2, task, pair.user, a)
    requires forall a :: a !in l1.pairs[pair] ==> Untouched(allocs1, l1, allocs2, l2, a)
    ensures forall a :: if Concerned(l, home, mem, todo - {pair}, a) then WaitedAt(allocs, l, l2, task, home[a].user, a)
                        else Untouched(allocs, l, allocs2, l2, a)
  {
    forall a
      ensures if Concerned(l, home, mem, todo - {pair}, a) then WaitedAt(allocs, l, l2, task, home[a].user, a)
              else Untouched(allocs, l, allocs2, l2, a)
    {
      if Concerned(l, home, mem, todo - {pair}, a) {
        if home[a] == pair {
          WaitedLater(allocs, l, allocs1, l1, l2, task, pair.user, a);
        } else {
          assert Concerned(l, home, mem, todo, a);
          WaitedBefore(allocs, l, allocs1, l1, allocs2, l2, task, home[a].user, a);
        }
      } else {
        assert !Concerned(l, home, mem, todo, a);
        assert Untouched(allocs1, l1, allocs2, l2, a);
      }
    }
  }

  /**
    DoSyncAllEvents: all events have arrived.  The buffers that were kept only for theirs
    are given back, and no other.  The code clears the lists after the loop; each buffer
    leaves them here when its events do.
    */
  method SyncAll(allocs: seq<Allocator>, l: Ledger, ghost pages: PageMap, ghost home: map<int, Pair>)
    returns (allocs': seq<Allocator>, l': Ledger)
    requires Sound(pages, allocs, l, home, {})
    ensures Sound(pages, allocs', l', home, {}) && |allocs'| == |allocs| && l'.used <= l.used
    ensures l'.events == map[] && l'.pairs == map[] && KeptUse(allocs', allocs)
    ensures forall a :: a in l'.table <==> a in l.table && !OnlyForEvents(allocs, l, a)
  {
    allocs', l' := allocs, l;
    var todo := set p, a | p in l.pairs && a in l.pairs[p] :: a;
    SameUseRefl(allocs);
    SameUseIsKept(allocs, allocs);
    while exists a :: a in todo
      invariant Sound(pages, allocs', l', home, {}) && KeptUse(allocs', allocs) && l'.used <= l.used
      invariant SyncedBut(allocs, l, allocs', l', todo)
      decreases todo
    {
      var addr :| addr in todo;
      ghost var allocs1, l1 := allocs', l';
      allocs', l' := Settle(allocs', l', addr, pages, home);
      SyncStep(allocs, l, allocs1, l1, allocs', l', todo, addr);
      KeptUseTrans(allocs', allocs1, allocs);
      todo := todo - {addr};
    }
    NoneWaits(allocs, l);
    NoLists(allocs', l', home);
    l' := l'.(events := map[], pairs := map[]);
  }

  /** The events of all buffers but those in todo have arrived. */
  ghost predicate SyncedBut(allocs: seq<Allocator>, l: Ledger, allocs': seq<Allocator>, l': Ledger, todo: set<int>) {
    && (forall a :: a in l'.events <==> a in todo)
    && (forall a :: a in l'.table <==> a in l.table && (a in todo || !(a in l.events && OnlyForEvents(allocs, l, a))))
    && (forall a :: a in todo ==> a in l.events && (OnlyForEvents(allocs', l', a) <==> OnlyForEvents(allocs, l, a)))
  }

  lemma SyncStep(allocs: seq<Allocator>, l: Ledger, allocs1: seq<Allocator>, l1: Ledger,
                 allocs2: seq<Allocator>, l2: Ledger, todo: set<int>, addr: int)
    requires SyncedBut(allocs, l, allocs1, l1, todo) && addr in todo
    requires l2.events == l1.events - {addr}
    requires l2.table == if OnlyForEvents(allocs1, l1, addr) then l1.table - {addr} else l1.table
    requires forall a :: a in l2.table && a != addr ==> (OnlyForEvents(allocs2, l2, a) <==> OnlyForEvents(allocs1, l1, a))
    ensures SyncedBut(allocs, l, allocs2, l2, todo - {addr})
  {
  }

  lemma NoneWaits(allocs: seq<Allocator>, l: Ledger)
    requires Waiting(allocs, l.events, {})
    ensures forall a :: OnlyForEvents(allocs, l, a) ==> a in l.events
  {
  }

  lemma NoLists(allocs: seq<Allocator>, l: Ledger, home: map<int, Pair>)
    requires InOrder(allocs, l, home, {}) && !exists a :: a in l.events
    ensures InOrder(allocs, l.(events := map[], pairs := map[]), home, {})
  {
    forall i, b | 0 <= i < |allocs| && b in InUse(allocs[i].bufs) ensures b.status != UsedByEvent {
      assert b.status == UsedByEvent ==> b.addr in l.events;
    }
  }

  /** A buffer with events is in use: no free buffer starts where it starts. */
  lemma PendingIsInUse(pages: PageMap, allocs: seq<Allocator>, l: Ledger, home: map<int, Pair>, a: int)
    requires Sound(pages, allocs, l, home, {}) && a in l.events
    ensures a in l.table && exists b :: b in InUse(allocs[l.table[a]].bufs) && b.addr == a
    ensures forall i, k :: 0 <= i < |allocs| && 0 <= k < |allocs[i].bufs| && IsFree(allocs[i].bufs[k].status) ==>
                             !allocs[i].bufs[k].Contains(a)
  {
    var j := l.table[a];
    var b :| b in InUse(allocs[j].bufs) && b.addr == a;
    var m :| 0 <= m < |allocs[j].bufs| && allocs[j].bufs[m] == b;
    forall i, k | 0 <= i < |allocs| && 0 <= k < |allocs[i].bufs| && IsFree(allocs[i].bufs[k].status)
      ensures !allocs[i].bufs[k].Contains(a)
    {
      assert Shaped(allocs[i]) && Shaped(allocs[j]);
      BufsApart(pages, allocs, j, m, i, k);
    }
  }

  /** The memory of a buffer that is in use or idle is mapped, byte by byte. */
  lemma InUseOrIdleIsMapped(pages: PageMap, allocs: seq<Allocator>, l: Ledger, home: map<int, Pair>, i: nat, k: nat, x: int)
    requires Sound(pages, allocs, l, home, {})
    requires i < |allocs| && k < |allocs[i].bufs| && allocs[i].bufs[k].status != EagerFree && allocs[i].bufs[k].Contains(x)
    ensures PageOf(x) in pages && pages[PageOf(x)].Some?
  {
    assert AllBacked(pages, allocs[i].bufs) && BufBacked(pages, allocs[i].bufs[k]);
    assert ByteBacked(pages, x);
  }
}
