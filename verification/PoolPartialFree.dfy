/** Partial free for the whole pool: several allocators, the address table and the page map. */
module PoolPartialFree {
  import opened Options
  import opened OrderedSets
  import opened Buffers
  import opened Vmm
  import PF = PartialFree
  import opened PoolInvariant
  import opened PoolBooks
  import opened PoolCutting

  /** The buffers in use that a list of addresses names. */
  function FreedFrom(allocs: seq<Allocator>, addrs: seq<int>): set<Buf> {
    set b | b in AllInUse(allocs) && b.addr in addrs
  }

  lemma CarvedCuts(c: Buf, keep: Range)
    requires PF.Inside(keep, c)
    ensures Cuts(c, PF.Carved(c, keep, Used)) && NotIdle(PF.Carved(c, keep, Used)) == PF.CutUp(c, keep)
  {
    PF.NotIdleInCarved(c, keep);
  }

  /** The listed addresses that the table knows. */
  function Candidates(addrs: seq<int>, table: map<int, nat>): set<int> {
    set a | a in addrs && a in table
  }

  /** The addresses that the table knows are those of the buffers to be freed, and these are in use. */
  lemma CandidatesAreFreed(pages: PageMap, allocs: seq<Allocator>, l: Ledger, home: map<int, Pair>, addrs: seq<int>)
    requires Sound(pages, allocs, l, home, {}) && forall a :: a in addrs ==> a !in l.events
    ensures Candidates(addrs, l.table) == PF.Addrs(FreedFrom(allocs, addrs))
    ensures forall f :: f in FreedFrom(allocs, addrs) ==> f.status == Used
  {
    forall a | a in addrs && a in l.table ensures a in PF.Addrs(FreedFrom(allocs, addrs)) {
      var b :| b in InUse(allocs[l.table[a]].bufs) && b.addr == a;
      assert b in FreedFrom(allocs, addrs);
    }
    forall f | f in FreedFrom(allocs, addrs) ensures f.addr in l.table && f.status == Used {
      var i :| 0 <= i < |allocs| && f in InUse(allocs[i].bufs);
      assert f.status == UsedByEvent ==> f.addr in l.events;
    }
  }

  /** What starts inside a buffer in use, behind its first byte, has no events. */
  lemma InsideHasNoEvents(pages: PageMap, allocs: seq<Allocator>, l: Ledger, home: map<int, Pair>, c: Buf, x: int)
    requires Sound(pages, allocs, l, home, {}) && c in AllInUse(allocs) && c.Contains(x) && x != c.addr
    ensures x !in l.events
  {
    if x in l.events {
      var b :| b in InUse(allocs[l.table[x]].bufs) && b.addr == x;
      InUseApart(pages, allocs);
      assert b in AllInUse(allocs) && b.Contains(x);
      assert false;
    }
  }

  /** The loop over the keep addresses: where it stands. */
  ghost predicate Underway(pages: PageMap, allocs: seq<Allocator>, l: Ledger, home: map<int, Pair>, used: set<Buf>,
                           freed: set<Buf>, keeps: seq<Range>, n: nat, candidates: set<int>, remainders: set<Buf>)
  {
    && n <= |keeps| && Sound(pages, allocs, l, home, {})
    && PF.Halfway(used, AllInUse(allocs), freed, keeps, n, remainders)
    && candidates == PF.Addrs(remainders) && forall a :: a in candidates ==> a !in l.events
  }

  /** The candidate found holds the keep range, and it is without events like all candidates. */
  lemma CandidateHoldsKeep(pages: PageMap, allocs: seq<Allocator>, l: Ledger, home: map<int, Pair>, used: set<Buf>,
                           freed: set<Buf>, keeps: seq<Range>, n: nat, candidates: set<int>, remainders: set<Buf>,
                           found: Option<int>) returns (c: Buf)
    requires PF.NoOverlap(used) && freed <= used && PF.ValidKeeps(freed, keeps) && n < |keeps|
    requires Underway(pages, allocs, l, home, used, freed, keeps, n, candidates, remainders)
    requires found == None ==> forall a :: a in candidates ==> a > keeps[n].addr
    requires found.Some? ==> IsLastNotAbove(candidates, found.value, keeps[n].addr)
    ensures found == Some(c.addr) && c in remainders && c in AllInUse(allocs) && c.status == Used && PF.Inside(keeps[n], c)
    ensures forall f :: f in freed && PF.Inside(keeps[n], f) ==> f.block == c.block
  {
    InUseApart(pages, allocs);
    c := PF.KeepStartsInRemainder(AllInUse(allocs), freed, keeps, n, remainders, found);
    PF.KeepEndsInRemainder(used, freed, keeps, n, c);
  }

  lemma CandidatesStay(pages: PageMap, allocs: seq<Allocator>, l: Ledger, home: map<int, Pair>, keep: Range, c: Buf,
                       candidates: set<int>, remainders: set<Buf>)
    requires Sound(pages, allocs, l, home, {}) && remainders <= AllInUse(allocs) && c in remainders && PF.Inside(keep, c)
    requires candidates == PF.Addrs(remainders) && forall a :: a in candidates ==> a !in l.events
    ensures PF.CandidatesAfter(candidates, c, keep) == PF.Addrs(remainders - {c} + PF.Rests(c, keep))
    ensures forall a :: a in PF.CandidatesAfter(candidates, c, keep) ==> a !in l.events
  {
    InUseApart(pages, allocs);
    PF.AddrsAfterSplit(AllInUse(allocs), remainders, c, keep);
    if keep.End() < c.End() { InsideHasNoEvents(pages, allocs, l, home, c, keep.End()); }
  }

  /** One round of it. */
  method SplitCandidate(allocs: seq<Allocator>, l: Ledger, keeps: seq<Range>, n: nat, candidates: set<int>,
                        ghost pages: PageMap, ghost home: map<int, Pair>, ghost used: set<Buf>, ghost freed: set<Buf>,
                        ghost remainders: set<Buf>)
    returns (allocs': seq<Allocator>, l': Ledger, candidates': set<int>, ghost remainders': set<Buf>)
    requires PF.NoOverlap(used) && freed <= used && PF.ValidKeeps(freed, keeps) && n < |keeps|
    requires Underway(pages, allocs, l, home, used, freed, keeps, n, candidates, remainders)
    ensures Underway(pages, allocs', l', home, used, freed, keeps, n + 1, candidates', remainders')
    ensures l'.events == l.events && l'.pairs == l.pairs && l'.used == l.used
  {
    var keep := keeps[n];
    var found := LastNotAbove(candidates, keep.addr);
    ghost var c := CandidateHoldsKeep(pages, allocs, l, home, used, freed, keeps, n, candidates, remainders, found);
    FindInUse(pages, allocs, l.table, c);
    var i := l.table[found.value];
    var k := IndexOf(allocs[i].bufs, found.value);
    var b := allocs[i].bufs[k];
    candidates' := PF.CandidatesAfter(candidates, b, keep);
    remainders' := remainders - {c} + PF.Rests(c, keep);
    allocs' := WithBufs(allocs, i, PF.CarveAt(allocs[i].bufs, k, keep, Used));
    l' := l.(table := TableWith(l.table, PF.CutUp(b, keep), i));
    CarvedCuts(b, keep);
    CutKeepsSound(pages, allocs, l, home, i, k, PF.Carved(b, keep, Used));
    GoesOn(pages, allocs, used, freed, keeps, n, remainders, c);
    CandidatesStay(pages, allocs, l, home, keep, c, candidates, remainders);
  }

  lemma GoesOn(pages: PageMap, allocs: seq<Allocator>, used: set<Buf>, freed: set<Buf>, keeps: seq<Range>, n: nat,
               remainders: set<Buf>, c: Buf)
    requires Laid(pages, allocs) && PF.NoOverlap(used) && freed <= used && PF.ValidKeeps(freed, keeps) && n < |keeps|
    requires PF.Halfway(used, AllInUse(allocs), freed, keeps, n, remainders) && c in remainders && PF.Inside(keeps[n], c)
    requires forall f :: f in freed && PF.Inside(keeps[n], f) ==> f.block == c.block
    ensures PF.Halfway(used, AllInUse(allocs) - {c} + PF.CutUp(c, keeps[n]), freed, keeps, n + 1,
                       remainders - {c} + PF.Rests(c, keeps[n]))
  {
    InUseApart(pages, allocs);
    PF.HalfwayGoesOn(used, AllInUse(allocs), freed, keeps, n, remainders, c);
  }

  method FreeCandidates(allocs: seq<Allocator>, l: Ledger, addrs: set<int>,
                        ghost pages: PageMap, ghost home: map<int, Pair>, ghost remainders: set<Buf>)
    returns (allocs': seq<Allocator>, l': Ledger)
    requires Sound(pages, allocs, l, home, {}) && remainders <= AllInUse(allocs) && addrs == PF.Addrs(remainders)
    requires forall a :: a in addrs ==> a !in l.events
    ensures Sound(pages, allocs', l', home, {}) && AllInUse(allocs') == AllInUse(allocs) - remainders
    ensures l'.events == l.events && l'.pairs == l.pairs && l'.used <= l.used
  {
    allocs', l' := allocs, l;
    var todo := addrs;
    ghost var left := remainders;
    while todo != {}
      invariant Sound(pages, allocs', l', home, {}) && todo == PF.Addrs(left) && left <= remainders
      invariant todo <= addrs && AllInUse(allocs') == AllInUse(allocs) - (remainders - left)
      invariant l'.events == l.events && l'.pairs == l.pairs && l'.used <= l.used
      decreases todo
    {
      var a :| a in todo;
      ghost var b :| b in left && b.addr == a;
      OneLeft(pages, allocs, AllInUse(allocs'), remainders, left, b);
      allocs', l' := FreeOne(allocs', l', a, pages, home, b);
      todo := todo - {a};
      left := left - {b};
    }
    PF.AddrsEmpty(left);
  }

  lemma OneLeft(pages: PageMap, allocs: seq<Allocator>, now: set<Buf>, remainders: set<Buf>, left: set<Buf>, b: Buf)
    requires Laid(pages, allocs) && left <= remainders <= AllInUse(allocs) && b in left
    requires now == AllInUse(allocs) - (remainders - left)
    ensures b in now && now - {b} == AllInUse(allocs) - (remainders - (left - {b}))
    ensures PF.Addrs(left - {b}) == PF.Addrs(left) - {b.addr}
  {
    InUseApart(pages, allocs);
    PF.AddrsWithout(AllInUse(allocs), left, b);
  }

  method FreeOne(allocs: seq<Allocator>, l: Ledger, addr: int, ghost pages: PageMap, ghost home: map<int, Pair>, ghost b: Buf)
    returns (allocs': seq<Allocator>, l': Ledger)
    requires Sound(pages, allocs, l, home, {}) && b in AllInUse(allocs) && b.addr == addr && addr !in l.events
    ensures Sound(pages, allocs', l', home, {}) && AllInUse(allocs') == AllInUse(allocs) - {b}
    ensures l'.events == l.events && l'.pairs == l.pairs && l'.used <= l.used
  {
    FindInUse(pages, allocs, l.table, b);
    var freed;
    ghost var c;
    freed, allocs', l', c := DoFreeTensorMem(allocs, l, addr, pages, home);
    InUseApart(pages, allocs);
    assert c in AllInUse(allocs) && c.Contains(c.addr) && b.Contains(b.addr);
    ReplacedInAll(pages, allocs', allocs, l.table[addr], b, {});
  }

  /**
    DoFreePartTensorMems, for buffers without events: in all allocators together, what is in
    use afterwards is what was, without the freed buffers and with the kept ranges.
    */
  method FreePart(allocs: seq<Allocator>, l: Ledger, freeAddrs: seq<int>, keeps: seq<Range>,
                  ghost pages: PageMap, ghost home: map<int, Pair>)
    returns (allocs': seq<Allocator>, l': Ledger)
    requires Sound(pages, allocs, l, home, {}) && forall a :: a in freeAddrs ==> a !in l.events
    requires PF.ValidKeeps(FreedFrom(allocs, freeAddrs), keeps)
    ensures Sound(pages, allocs', l', home, {})
    ensures var freed := FreedFrom(allocs, freeAddrs);
      AllInUse(allocs') == (AllInUse(allocs) - freed) + PF.Kept(freed, keeps)
    ensures l'.events == l.events && l'.pairs == l.pairs && l'.used <= l.used
  {
    ghost var used, freed := AllInUse(allocs), FreedFrom(allocs, freeAddrs);
    ghost var remainders := freed;
    Starts(pages, allocs, l, home, freeAddrs, keeps);
    var candidates := Candidates(freeAddrs, l.table);
    allocs', l' := allocs, l;
    for n := 0 to |keeps|
      invariant Underway(pages, allocs', l', home, used, freed, keeps, n, candidates, remainders)
      invariant l'.events == l.events && l'.pairs == l.pairs && l'.used == l.used
    {
      allocs', l', candidates, remainders := SplitCandidate(allocs', l', keeps, n, candidates, pages, home, used, freed, remainders);
    }
    assert keeps[..|keeps|] == keeps;
    allocs', l' := FreeCandidates(allocs', l', candidates, pages, home, remainders);
  }

  lemma Starts(pages: PageMap, allocs: seq<Allocator>, l: Ledger, home: map<int, Pair>, addrs: seq<int>, keeps: seq<Range>)
    requires Sound(pages, allocs, l, home, {}) && forall a :: a in addrs ==> a !in l.events
    ensures PF.NoOverlap(AllInUse(allocs)) && FreedFrom(allocs, addrs) <= AllInUse(allocs)
    ensures Underway(pages, allocs, l, home, AllInUse(allocs), FreedFrom(allocs, addrs), keeps, 0,
                     Candidates(addrs, l.table), FreedFrom(allocs, addrs))
  {
    InUseApart(pages, allocs);
    CandidatesAreFreed(pages, allocs, l, home, addrs);
    PF.HalfwayStarts(AllInUse(allocs), FreedFrom(allocs, addrs), keeps);
  }
}
