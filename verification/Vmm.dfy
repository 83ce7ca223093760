/**
  The virtual-memory adapter: reserved address ranges are cut into pages, and a page is
  backed by a physical handle while it is mapped.  The device is the environment: it
  may refuse to reserve or to map, unmapping succeeds.
  */
module Vmm {
  import opened Options
  import opened OrderedSets

  /** kVmmAlignSize, kDefaultMapSize */
  const PAGE := 0x20_0000

  /** kMaxUsedMemSize */
  const MAX_USED_MEM_SIZE := 58 * 0x4000_0000

  /** GetRoundUpAlignSize */
  function RoundUp(size: nat): (r: nat)
    ensures size <= r < size + 0x20_0000 && r % 0x20_0000 == 0
  {
    (size + PAGE - 1) / PAGE * PAGE
  }

  /** How often x can be raised by one while x * PAGE is below the bound. */
  function Room(x: nat, bound: nat): (r: nat)
    ensures r == 0 <==> x * PAGE >= bound
    ensures r > 0 ==> (x + r - 1) * PAGE < bound <= (x + r) * PAGE
  {
    if x * PAGE >= bound then 0 else (bound + PAGE - 1) / PAGE - x
  }

  function Min(a: nat, b: nat): nat {
    if a < b then a else b
  }

  // ------------------------------------------------------------- the device

  /** The identity of a physical handle. */
  type Handle = int

  datatype Outcome = Done | Refused | Threw

  /**
    When VmmManager::Map throws.  The neighbour below is looked at only if there is a
    neighbour above.
    */
  predicate MapThrows(keys: set<int>, addr: int) {
    || addr in keys
    || ((exists a :: a in keys && a > addr) &&
        exists a :: a in keys && addr - PAGE < a < addr + PAGE)
  }

  class VmmManager {
    const limit: nat
    /** Where each handle is mapped: MemHandle's addr_ while mapped_ is set. */
    var handles: map<Handle, Option<int>>
    var mapped: map<int, Handle>
    /** operator new: an address that is not in use. */
    var nextHandle: Handle
    var baseAddr: int

    constructor (limit: nat, base: int)
      ensures this.limit == limit && handles == map[] && mapped == map[] && baseAddr == base
    {
      this.limit, handles, mapped, nextHandle, baseAddr := limit, map[], map[], 0, base;
    }

    /** The address space is unlimited; the environment may still refuse. */
    method MallocVirtualAddress(size: nat) returns (addr: Option<int>)
      modifies this`baseAddr
      ensures addr.Some? ==> addr.value == old(baseAddr) && baseAddr == old(baseAddr) + size
      ensures addr == None ==> baseAddr == old(baseAddr)
    {
      if * { return None; }
      addr := Some(baseAddr);
      baseAddr := baseAddr + size;
    }

    method GetHandle() returns (h: Option<Handle>)
      requires forall k :: k in handles ==> k < nextHandle
      modifies this`handles, this`nextHandle
      ensures h == None <==> old(|handles|) * PAGE >= limit
      ensures h == None ==> handles == old(handles)
      ensures h.Some? ==> h.value !in old(handles) && handles == old(handles)[h.value := None]
      ensures forall k :: k in handles ==> k < nextHandle
    {
      if |handles| * PAGE >= limit { return None; }
      h := Some(nextHandle);
      handles := handles[nextHandle := None];
      nextHandle := nextHandle + 1;
    }

    method Map(h: Handle, addr: int) returns (o: Outcome)
      requires h in handles
      modifies this`mapped, this`handles
      ensures o.Threw? <==> MapThrows(old(mapped).Keys, addr)
      ensures !o.Done? ==> mapped == old(mapped) && handles == old(handles)
      ensures o.Done? ==> mapped == old(mapped)[addr := h] && handles == old(handles)[h := Some(addr)]
    {
      if MapThrows(mapped.Keys, addr) { return Threw; }
      if * { return Refused; }
      handles := handles[h := Some(addr)];
      mapped := mapped[addr := h];
      return Done;
    }

    /** Throws if nothing is mapped there, and if the handle says it is mapped elsewhere. */
    method Unmap(addr: int) returns (o: Outcome)
      modifies this`mapped, this`handles
      ensures o.Threw? <==> addr !in old(mapped) || old(mapped)[addr] !in old(handles) ||
                            old(handles)[old(mapped)[addr]] != Some(addr)
      ensures o.Threw? ==> mapped == old(mapped) && handles == old(handles)
      ensures !o.Threw? ==>
                o.Done? && mapped == old(mapped) - {addr} && handles == old(handles)[old(mapped)[addr] := None]
    {
      if addr !in mapped { return Threw; }
      var h := mapped[addr];
      if h !in handles || handles[h] != Some(addr) { return Threw; }
      handles := handles[h := None];
      mapped := mapped - {addr};
      return Done;
    }
  }

  // ------------------------------------------------------------ the page map

  type PageMap = map<int, Option<Handle>>

  /** The pages that are backed by a handle. */
  ghost function Backed(pages: PageMap): set<int> {
    set a | a in pages && pages[a].Some?
  }

  /** The pages of [start, end) without a handle. */
  ghost function Missing(pages: PageMap, start: int, end: int): set<int> {
    set a | a in pages && start <= a < end && pages[a] == None
  }

  /** Every page from start up to end exists. */
  ghost predicate Covers(pages: PageMap, start: int, end: int) {
    forall a :: start <= a < end && a % PAGE == 0 ==> a in pages
  }

  ghost predicate Aligned(pages: PageMap, base: int) {
    && base > 0 && base % PAGE == 0
    && forall a :: a in pages ==> a > 0 && a % PAGE == 0 && a + PAGE <= base
  }

  /**
    The adapter's page map and the device's map are the same map, no handle is mapped
    twice, and the handles that are not mapped are those cached or just taken.
    */
  ghost predicate Agree(pages: PageMap, cached: set<Handle>, taken: set<Handle>,
                        mapped: map<int, Handle>, handles: map<Handle, Option<int>>)
  {
    && (forall a :: a in mapped ==> a in pages && pages[a].Some? && pages[a].value == mapped[a])
    && (forall a :: a in pages && pages[a].Some? ==> a in mapped)
    && (forall a :: a in mapped ==> mapped[a] in handles && handles[mapped[a]].Some? && handles[mapped[a]].value == a)
    && (forall h :: h in handles && handles[h].Some? ==> handles[h].value in mapped && mapped[handles[h].value] == h)
    && (forall h :: h in handles && handles[h].None? ==> h in cached || h in taken)
    && (forall h :: h in cached || h in taken ==> h in handles && handles[h].None?)
    && cached !! taken
  }

  ghost function Image(s: set<int>, f: map<int, Handle>): set<Handle>
    requires s <= f.Keys
  {
    set a | a in s :: f[a]
  }

  lemma {:induction false} ImageCount(s: set<int>, f: map<int, Handle>)
    requires s <= f.Keys
    requires forall a, b :: a in s && b in s && f[a] == f[b] ==> a == b
    ensures |Image(s, f)| == |s|
  {
    if s != {} {
      var a := Any(s);
      var rest := s - {a};
      ImageCount(rest, f);
      assert Image(s, f) == Image(rest, f) + {f[a]};
    }
  }

  /** Every handle is mapped at exactly one page or is cached, so the counts add up. */
  lemma Conservation(pages: PageMap, cached: set<Handle>, mapped: map<int, Handle>, handles: map<Handle, Option<int>>)
    requires Agree(pages, cached, {}, mapped, handles)
    ensures |handles| == |mapped| + |cached| && mapped.Keys == Backed(pages)
  {
    forall a ensures a in mapped <==> a in Backed(pages) {}
    ImageCount(mapped.Keys, mapped);
    var image := Image(mapped.Keys, mapped);
    forall h | h in handles ensures h in image <==> h !in cached {
      if handles[h].Some? { assert mapped[handles[h].value] in image; }
    }
    assert forall h :: h in handles.Keys <==> h in image + cached;
    assert handles.Keys == image + cached;
  }

  /** pages is was with the pages in newly backed. */
  ghost predicate Ahead(pages: PageMap, was: PageMap, newly: set<int>) {
    && pages.Keys == was.Keys && newly <= was.Keys
    && (forall a :: a in newly ==> was[a] == None && pages[a].Some?)
    && (forall a :: a in was && a !in newly ==> pages[a] == was[a])
  }

  lemma AheadByNone(pages: PageMap, was: PageMap)
    requires Ahead(pages, was, {})
    ensures pages == was
  {
    forall a | a in was ensures pages[a] == was[a] {}
  }

  lemma SamePage(a: int, cur: int)
    requires cur <= a < cur + PAGE && a % PAGE == 0 && cur % PAGE == 0
    ensures a == cur
  {
    assert a == a / PAGE * PAGE && cur == cur / PAGE * PAGE;
  }

  lemma CoversOneMore(pages: PageMap, start: int, cur: int)
    requires Covers(pages, start, cur) && cur % PAGE == 0 && cur in pages
    ensures Covers(pages, start, cur + PAGE)
  {
    forall a | start <= a < cur + PAGE && a % PAGE == 0 ensures a in pages {
      if a >= cur { SamePage(a, cur); }
    }
  }

  lemma MissingOneMore(pages: PageMap, base: int, start: int, cur: int)
    requires Aligned(pages, base) && start <= cur && cur % PAGE == 0 && cur in pages
    ensures Missing(pages, start, cur + PAGE) == Missing(pages, start, cur) + if pages[cur] == None then {cur} else {}
  {
    forall a | cur < a < cur + PAGE ensures a !in pages {}
  }

  lemma MissingFewer(pages: PageMap, start: int, cur: int, end: int)
    requires start <= cur < end && cur in pages && pages[cur] == None
    ensures |Missing(pages, start, cur)| < |Missing(pages, start, end)|
  {
    var part, all := Missing(pages, start, cur) + {cur}, Missing(pages, start, end);
    assert all == part + (all - part);
  }

  /** The backed pages that lie fully inside [addr, end). */
  ghost function BackedInside(pages: PageMap, addr: int, end: int): set<int> {
    set a | a in pages && addr <= a && a + PAGE <= end && pages[a].Some?
  }

  lemma NextInside(pages: PageMap, base: int, addr: int, cur: int)
    requires Aligned(pages, base) && addr <= cur && cur % PAGE == 0 && cur in pages
    ensures BackedInside(pages, addr, cur + PAGE) ==
            BackedInside(pages, addr, cur) + if pages[cur].Some? then {cur} else {}
    ensures (cur + PAGE) % PAGE == 0
  {
    forall a | cur - PAGE < a < cur ensures a !in pages {}
  }

  lemma LastInside(pages: PageMap, base: int, addr: int, cur: int, end: int)
    requires Aligned(pages, base) && cur % PAGE == 0 && cur + PAGE > end
    ensures BackedInside(pages, addr, end) <= BackedInside(pages, addr, cur)
  {
  }

  lemma SumAligned(a: int, b: int)
    requires a % PAGE == 0 && b % PAGE == 0
    ensures (a + b) % PAGE == 0
  {
  }

  lemma NextPage(cur: int, end: int)
    requires cur < end && cur % PAGE == 0 && end % PAGE == 0
    ensures cur + PAGE <= end && (cur + PAGE) % PAGE == 0
  {
  }

  /** The exception "addr is already exist" and its relatives cannot be reached. */
  lemma MapNeverThrows(pages: PageMap, base: int, cached: set<Handle>, taken: set<Handle>,
                       mapped: map<int, Handle>, handles: map<Handle, Option<int>>, a: int)
    requires Agree(pages, cached, taken, mapped, handles) && Aligned(pages, base)
    requires a in pages && pages[a] == None
    ensures !MapThrows(mapped.Keys, a)
  {
    forall b | b in mapped && a - PAGE < b < a + PAGE ensures b == a { assert b in pages; }
  }

  // -------------------------------------------------------- backed addresses

  function PageOf(x: int): (a: int)
    ensures a % PAGE == 0 && a <= x < a + PAGE
  {
    x / PAGE * PAGE
  }

  ghost predicate ByteBacked(pages: PageMap, x: int) {
    PageOf(x) in pages && pages[PageOf(x)].Some?
  }

  ghost predicate BytesBacked(pages: PageMap, lo: int, hi: int) {
    forall x :: lo <= x < hi ==> ByteBacked(pages, x)
  }

  lemma PageIsUnique(x: int, a: int)
    requires a % PAGE == 0 && a <= x < a + PAGE
    ensures PageOf(x) == a
  {
  }

  /** Mapping [addr, addr + size) inside existing pages backs these bytes. */
  lemma MappedIsBacked(pages: PageMap, was: PageMap, base: int, start: int, addr: int, size: nat, backed: set<int>)
    requires Aligned(was, base) && IsLastNotAbove(was.Keys, start, addr)
    requires Covers(was, start, start + RoundUp(size + addr - start))
    requires Ahead(pages, was, backed) && backed == Missing(was, start, start + RoundUp(size + addr - start))
    ensures BytesBacked(pages, addr, addr + size)
  {
    forall x | addr <= x < addr + size ensures ByteBacked(pages, x) {
      var a := PageOf(x);
      SumAligned(start, RoundUp(size + addr - start));
      assert start <= a < start + RoundUp(size + addr - start) by {
        if a < start { PageIsUnique(x, start - PAGE); }
      }
      assert a in was;
    }
  }

  lemma AheadKeepsBacked(pages: PageMap, was: PageMap, backed: set<int>, lo: int, hi: int)
    requires Ahead(pages, was, backed) && BytesBacked(was, lo, hi)
    ensures BytesBacked(pages, lo, hi)
  {
    forall x | lo <= x < hi ensures ByteBacked(pages, x) { assert ByteBacked(was, x); }
  }

  /** Eager free of one range leaves every byte of a disjoint range backed. */
  lemma EagerFreeSparesOthers(pages: PageMap, was: PageMap, freed: set<int>, addr: int, end: int, lo: int, hi: int)
    requires Ahead(was, pages, freed) && freed <= BackedInside(was, addr, end)
    requires BytesBacked(was, lo, hi) && (hi <= addr || end <= lo)
    ensures BytesBacked(pages, lo, hi)
  {
    forall x | lo <= x < hi ensures ByteBacked(pages, x) { assert ByteBacked(was, x); }
  }

  /** A range inside a block of whole pages can be mapped: all its pages exist. */
  lemma BlockIsMappable(pages: PageMap, base: int, lo: int, hi: int, addr: int, size: nat)
    requires Aligned(pages, base) && Covers(pages, lo, hi) && lo % PAGE == 0 && hi % PAGE == 0
    requires lo <= addr && addr + size <= hi && size > 0
    ensures IsLastNotAbove(pages.Keys, PageOf(addr), addr)
    ensures Covers(pages, PageOf(addr), PageOf(addr) + RoundUp(size + addr - PageOf(addr)))
    ensures forall start :: IsLastNotAbove(pages.Keys, start, addr) ==> start == PageOf(addr)
  {
    var start := PageOf(addr);
    assert lo <= start;
    assert start in pages;
    var end := start + RoundUp(size + addr - start);
    assert end <= hi;
    forall a | a in pages && a <= addr ensures a <= start {
      if a > start { PageIsUnique(addr, a); }
    }
  }

  // ----------------------------------------------------------- the adapter

  class VmmAdapter {
    const manager: VmmManager
    var pages: PageMap
    var cached: set<Handle>
    var physical: nat

    ghost predicate ValidHolding(taken: set<Handle>)
      reads this, manager
    {
      && Agree(pages, cached, taken, manager.mapped, manager.handles)
      && Aligned(pages, manager.baseAddr)
      && (forall h :: h in manager.handles ==> h < manager.nextHandle)
      && physical == |manager.handles|
      && physical * PAGE < manager.limit + PAGE
    }

    ghost predicate Valid()
      reads this, manager
    {
      ValidHolding({})
    }

    constructor (manager: VmmManager)
      requires manager.handles == map[] && manager.mapped == map[]
      requires manager.baseAddr > 0 && manager.baseAddr % PAGE == 0
      ensures Valid() && this.manager == manager && pages == map[] && cached == {} && physical == 0
    {
      this.manager, pages, cached, physical := manager, map[], {}, 0;
    }

    /** How many more pages can be backed: by cached handles, then by new ones. */
    ghost function Supply(maxSize: nat): nat
      reads this
    {
      |cached| + Room(physical, Min(maxSize, manager.limit))
    }

    /** A cached handle, or a new one unless the limits forbid it. */
    method TakeHandle(maxSize: nat) returns (h: Option<Handle>)
      requires Valid()
      modifies this`cached, this`physical, manager`handles, manager`nextHandle
      ensures h == None ==> Valid() && cached == old(cached) && physical == old(physical) && manager.handles == old(manager.handles)
      ensures h == None <==> old(Supply(maxSize)) == 0
      ensures h.Some? ==> ValidHolding({h.value}) && Supply(maxSize) == old(Supply(maxSize)) - 1
    {
      if cached != {} {
        ghost var one := Any(cached);
        var next :| next in cached;
        cached := cached - {next};
        return Some(next);
      }
      if physical * PAGE >= maxSize { return None; }
      h := manager.GetHandle();
      if h.Some? { physical := physical + 1; }
    }

    /** Back one page. */
    method MapPage(a: int, maxSize: nat) returns (done: bool, refused: bool)
      requires Valid() && a in pages && pages[a] == None
      modifies this, manager`mapped, manager`handles, manager`nextHandle
      ensures Valid()
      ensures !done ==> pages == old(pages) && (refused <==> old(Supply(maxSize)) > 0)
      ensures done ==> !refused && a in pages && pages[a].Some? && pages == old(pages)[a := pages[a]]
      ensures done ==> Supply(maxSize) == old(Supply(maxSize)) - 1
    {
      var h := TakeHandle(maxSize);
      if h == None { return false, false; }
      MapNeverThrows(pages, manager.baseAddr, cached, {h.value}, manager.mapped, manager.handles, a);
      var o := manager.Map(h.value, a);
      assert !o.Threw?;
      if o != Done {
        cached := cached + {h.value};
        return false, true;
      }
      pages := pages[a := h];
      return true, false;
    }

    /** Unmap one page and keep its handle for later. */
    method UnmapPage(a: int)
      requires Valid() && a in pages && pages[a].Some?
      modifies this`pages, this`cached, manager`mapped, manager`handles
      ensures Valid()
      ensures pages == old(pages)[a := None]
      ensures cached == old(cached) + {old(pages)[a].value} && |cached| == old(|cached|) + 1
    {
      var handle := pages[a].value;
      var o := manager.Unmap(a);
      assert o == Done;
      pages := pages[a := None];
      cached := cached + {handle};
    }

    /** Undo what a failed call has mapped so far. */
    method MoveBackMappedHandle(newly: map<int, Handle>, ghost was: PageMap)
      requires Valid() && Ahead(pages, was, newly.Keys)
      modifies this`pages, this`cached, manager`mapped, manager`handles
      ensures Valid() && Ahead(pages, was, {})
    {
      var todo := newly.Keys;
      while true
        invariant Valid() && Ahead(pages, was, todo)
        decreases todo
      {
        var next := First(todo);
        if next == None { break; }
        UnmapPage(next.value);
        todo := todo - {next.value};
      }
    }

    /** One round of the loop below: back the page unless it is backed, or give everything back. */
    method MapNext(a: int, newly: map<int, Handle>, ghost was: PageMap, maxSize: nat)
      returns (ok: bool, refused: bool, more: map<int, Handle>)
      requires Valid() && Ahead(pages, was, newly.Keys) && a in pages && a !in newly
      modifies this, manager`mapped, manager`handles, manager`nextHandle
      ensures Valid()
      ensures ok ==> more.Keys == newly.Keys + (if was[a] == None then {a} else {}) && Ahead(pages, was, more.Keys)
      ensures ok ==> |more.Keys| + Supply(maxSize) == old(|newly.Keys| + Supply(maxSize))
      ensures !ok ==> Ahead(pages, was, {}) && was[a] == None && (refused <==> old(Supply(maxSize)) > 0)
    {
      more := newly;
      if pages[a].Some? { return true, false, newly; }
      ok, refused := MapPage(a, maxSize);
      if !ok {
        MoveBackMappedHandle(newly, was);
        return;
      }
      more := newly[a := pages[a].value];
    }

    /** The loop over the pages from start up to end. */
    method MapPages(start: int, end: int, maxSize: nat) returns (done: bool, refused: bool, ghost backed: set<int>)
      requires Valid() && start <= end && start % PAGE == 0 && end % PAGE == 0
      modifies this, manager`mapped, manager`handles, manager`nextHandle
      ensures Valid()
      ensures Ahead(pages, old(pages), backed) && backed <= Missing(old(pages), start, end)
      ensures done ==> Covers(old(pages), start, end) && backed == Missing(old(pages), start, end)
      ensures !done && Covers(old(pages), start, end) ==> backed == {}
      ensures Covers(old(pages), start, end) && !refused ==>
                (done <==> |Missing(old(pages), start, end)| <= old(Supply(maxSize)))
    {
      ghost var was := pages;
      var newly: map<int, Handle> := map[];
      var cur := start;
      while cur < end
        invariant Valid()
        invariant start <= cur <= end && cur % PAGE == 0
        invariant Covers(was, start, cur)
        invariant newly.Keys == Missing(was, start, cur) && Ahead(pages, was, newly.Keys)
        invariant |newly.Keys| + Supply(maxSize) == old(Supply(maxSize))
      {
        if cur !in pages { return false, false, newly.Keys; }
        NextPage(cur, end);
        CoversOneMore(was, start, cur);
        MissingOneMore(was, manager.baseAddr, start, cur);
        var ok, no, more := MapNext(cur, newly, was, maxSize);
        if !ok {
          MissingFewer(was, start, cur, end);
          return false, no, {};
        }
        newly := more;
        cur := cur + PAGE;
      }
      return true, false, newly.Keys;
    }

    /**
      Back the pages that hold [addr, addr + size).  If they all exist, the call either
      backs them all or leaves the page map as it was, and unless the device refuses it
      succeeds exactly if the handles suffice.
      */
    method MmapDeviceMem(size: nat, addr: int, maxSize: nat) returns (r: nat, refused: bool, ghost backed: set<int>)
      requires Valid() && size > 0
      modifies this, manager`mapped, manager`handles, manager`nextHandle
      ensures Valid()
      ensures Ahead(pages, old(pages), backed) && (r == 0 || r == size)
      ensures (forall a :: a in old(pages) ==> a > addr) ==> r == 0 && backed == {}
      ensures forall start :: IsLastNotAbove(old(pages).Keys, start, addr) ==>
                var end := start + RoundUp(size + addr - start);
                && backed <= Missing(old(pages), start, end)
                && (r == size ==> Covers(old(pages), start, end) && backed == Missing(old(pages), start, end))
                && (r == 0 && Covers(old(pages), start, end) ==> backed == {})
                && (Covers(old(pages), start, end) && !refused ==>
                      (r == size <==> |Missing(old(pages), start, end)| <= old(Supply(maxSize))))
    {
      var segment := LastNotAbove(pages.Keys, addr);
      if segment == None { return 0, false, {}; }
      var start := segment.value;
      var done;
      done, refused, backed := MapPages(start, start + RoundUp(size + addr - start), maxSize);
      r := if done then size else 0;
    }

    /** Reserve pages for size bytes at a new address; none of them is backed yet. */
    method AllocDeviceMem(size: nat) returns (alignSize: nat, addr: int)
      requires Valid()
      modifies this`pages, manager`baseAddr
      ensures Valid()
      ensures alignSize == 0 || alignSize == RoundUp(size)
      ensures forall a :: a in old(pages) ==> a in pages && pages[a] == old(pages)[a]
      ensures forall a :: a in pages && a !in old(pages) ==> addr <= a < addr + alignSize && pages[a] == None
      ensures alignSize > 0 ==>
                && addr > 0 && addr % PAGE == 0 && (addr + alignSize) % PAGE == 0
                && Covers(pages, addr, addr + alignSize)
                && (forall a :: a in old(pages) ==> a + PAGE <= addr)
    {
      alignSize := RoundUp(size);
      var reserved := manager.MallocVirtualAddress(alignSize);
      if reserved == None { return 0, 0; }
      addr := reserved.value;
      SumAligned(addr, alignSize);
      ghost var was := pages;
      var cur := addr;
      while cur < addr + alignSize
        invariant addr <= cur <= addr + alignSize == manager.baseAddr && cur % PAGE == 0
        invariant Aligned(pages, cur) && Covers(pages, addr, cur)
        invariant forall a :: a in was ==> a in pages && pages[a] == was[a]
        invariant forall a :: a in pages && a !in was ==> addr <= a && pages[a] == None
        invariant Agree(pages, cached, {}, manager.mapped, manager.handles)
      {
        NextPage(cur, addr + alignSize);
        pages := pages[cur := None];
        CoversOneMore(pages, addr, cur);
        cur := cur + PAGE;
      }
    }

    /** One round of the loop below. */
    method FreeNext(a: int, ghost was: PageMap, ghost freed: set<int>) returns (n: nat, ghost more: set<int>)
      requires Valid() && a in pages && Ahead(was, pages, freed) && a !in freed
      modifies this`pages, this`cached, manager`mapped, manager`handles
      ensures Valid() && Ahead(was, pages, more)
      ensures more == freed + (if was[a].Some? then {a} else {}) && n == (|more| - |freed|) * PAGE
    {
      if pages[a] == None { return 0, freed; }
      UnmapPage(a);
      return PAGE, freed + {a};
    }

    /** Unmap the pages that lie fully inside [addr, addr + size). */
    method EagerFreeDeviceMem(addr: int, size: nat) returns (r: nat, ghost freed: set<int>)
      requires Valid()
      modifies this`pages, this`cached, manager`mapped, manager`handles
      ensures Valid()
      ensures Ahead(old(pages), pages, freed) && freed <= BackedInside(old(pages), addr, addr + size)
      ensures Covers(old(pages), addr, addr + size - PAGE + 1) ==>
                freed == BackedInside(old(pages), addr, addr + size) && r == |freed| * PAGE
    {
      freed, r := {}, 0;
      var first := FirstNotBelow(pages.Keys, addr);
      if first == None { return; }
      var cur := first.value;
      while cur + PAGE <= addr + size
        invariant Valid() && cur % PAGE == 0 && cur >= addr
        invariant Ahead(old(pages), pages, freed) && freed == BackedInside(old(pages), addr, cur)
        invariant freed <= BackedInside(old(pages), addr, addr + size) && r == |freed| * PAGE
      {
        if cur !in pages { return 0, freed; }
        NextInside(old(pages), manager.baseAddr, addr, cur);
        var n, more := FreeNext(cur, old(pages), freed);
        freed, r := more, r + n;
        cur := cur + PAGE;
      }
      LastInside(old(pages), manager.baseAddr, addr, cur, addr + size);
    }
  }
}
