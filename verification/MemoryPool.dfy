/**
  The dynamic memory pool over the virtual-memory adapter: several allocators share the
  adapter, an address table lists what is handed out, events delay what is given back.
  The allocators appear here as the sequences of buffers that their methods are proved
  to work on.
  */
module MemoryPool {
  import opened Integers
  import opened Options
  import opened OrderedSets
  import opened Buffers
  import opened Vmm
  import opened PoolInvariant
  import opened PoolBooks
  import PartialFree
  import PoolCutting
  import PoolPartialFree
  import PoolContinuous
  import ContinuousAlloc

  /** The pages that mapping the front of a buffer needs exist, and then its bytes are backed. */
  lemma FrontIsMappable(pages: PageMap, base: int, allocs: seq<Allocator>, i: nat, k: nat, size: nat)
    requires Aligned(pages, base) && Laid(pages, allocs) && i < |allocs| && k < |allocs[i].bufs|
    requires 0 < size <= allocs[i].bufs[k].size
    ensures var addr := allocs[i].bufs[k].addr;
            && IsLastNotAbove(pages.Keys, PageOf(addr), addr)
            && Covers(pages, PageOf(addr), PageOf(addr) + RoundUp(size + addr - PageOf(addr)))
  {
    var a, b := allocs[i], allocs[i].bufs[k];
    assert Shaped(a) && AllReserved(pages, a.blocks);
    InBlock(a.bufs, a.blocks, k);
    var block := a.blocks[b.block];
    assert Reserved(pages, block);
    BlockIsMappable(pages, base, block.addr, block.End(), b.addr, size);
  }

  class MemoryPool {
    const vmm: VmmAdapter
    /** common_unit_size_, and what the device says about its memory */
    const unitSize: nat
    const freeMemSize: nat
    const totalMemSize: nat
    var allocators: seq<Allocator>
    var ledger: Ledger
    ghost var home: map<int, Pair>
    var peakSize: int

    constructor (vmm: VmmAdapter, unitSize: nat, freeMemSize: nat, totalMemSize: nat)
      requires vmm.Valid() && unitSize > 0
      ensures Valid() && this.vmm == vmm && ledger == Ledger(map[], map[], map[], 0)
    {
      this.vmm, allocators, ledger, home, peakSize := vmm, [], Ledger(map[], map[], map[], 0), map[], 0;
      this.unitSize, this.freeMemSize, this.totalMemSize := unitSize, freeMemSize, totalMemSize;
    }

    /** Memory that is not eager-free is mapped, in every allocator. */
    ghost predicate Mem()
      reads this, vmm, vmm.manager
    {
      vmm.Valid() && unitSize > 0 && Laid(vmm.pages, allocators) && Backs(vmm.pages, allocators)
    }

    /** Memory and ledger are in order, and the peak is no smaller than what is in use. */
    ghost predicate Valid()
      reads this, vmm, vmm.manager
    {
      Mem() && InOrder(allocators, ledger, home, {}) && ledger.used <= peakSize
    }

    /**
      mem_mapper_: back the front of an eager-free buffer, or leave everything as it is.  Unless the
      device refuses it, it is backed exactly if the handles suffice.
      */
    method MapFront(i: nat, k: nat, mapSize: nat) returns (ok: bool, ghost refused: bool)
      requires Mem() && i < |allocators| && k < |allocators[i].bufs|
      requires 0 < mapSize <= allocators[i].bufs[k].size
      modifies vmm, vmm.manager
      ensures Mem()
      ensures ok ==> BytesBacked(vmm.pages, allocators[i].bufs[k].addr, allocators[i].bufs[k].addr + mapSize)
      ensures !ok ==> vmm.pages == old(vmm.pages)
      ensures !refused ==>
                var addr := allocators[i].bufs[k].addr;
                var end := PageOf(addr) + RoundUp(mapSize + addr - PageOf(addr));
                ok <==> |Missing(old(vmm.pages), PageOf(addr), end)| <= old(vmm.Supply(MAX_USED_MEM_SIZE))
    {
      var addr := allocators[i].bufs[k].addr;
      ghost var was, base := vmm.pages, vmm.manager.baseAddr;
      FrontIsMappable(was, base, allocators, i, k, mapSize);
      var mapped, no;
      ghost var backed;
      mapped, no, backed := vmm.MmapDeviceMem(mapSize, addr, MAX_USED_MEM_SIZE);
      refused := no;
      MapKeepsBacks(vmm.pages, was, backed, allocators);
      ok := mapped == mapSize;
      if ok {
        MappedIsBacked(vmm.pages, was, base, PageOf(addr), addr, mapSize, backed);
      } else {
        AheadByNone(vmm.pages, was);
      }
    }

    /** MapAndSplitMemBuf */
    method MapAndSplit(i: nat, k: nat, size: nat) returns (ok: bool, ghost refused: bool)
      requires Mem() && i < |allocators| && k < |allocators[i].bufs|
      requires 0 < size <= allocators[i].bufs[k].size && IsFree(allocators[i].bufs[k].status)
      modifies this`allocators, vmm, vmm.manager
      ensures Mem()
      ensures ok ==> allocators == WithBufs(old(allocators), i, SplitAt(old(allocators)[i].bufs, k, size))
      ensures old(allocators)[i].bufs[k].status == Idle ==> ok && vmm.pages == old(vmm.pages)
      ensures !ok && !refused ==> FrontMissing(vmm.pages, old(allocators)[i].bufs[k], size) > old(vmm.Supply(MAX_USED_MEM_SIZE))
      ensures !ok ==> allocators == old(allocators) && vmm.pages == old(vmm.pages) && allocators[i].bufs[k].status == EagerFree
    {
      var b := allocators[i].bufs[k];
      var mapSize := if b.size - size >= ALIGN_SIZE then size else b.size;
      if b.status == EagerFree {
        ok, refused := MapFront(i, k, mapSize);
        if !ok { return; }
      }
      SplitKeepsMem(vmm.pages, allocators, i, k, size);
      allocators := WithBufs(allocators, i, SplitAt(allocators[i].bufs, k, size));
      return true, false;
    }

    /** Hand out the front of a free buffer: one buffer more is in use. */
    method HandOut(i: nat, k: nat, size: nat) returns (b: Option<Buf>, ghost refused: bool)
      requires Mem() && i < |allocators| && k < |allocators[i].bufs|
      requires 0 < size <= allocators[i].bufs[k].size && IsFree(allocators[i].bufs[k].status)
      modifies this`allocators, vmm, vmm.manager
      ensures Mem()
      ensures b == None ==>
                allocators == old(allocators) && vmm.pages == old(vmm.pages) && allocators[i].bufs[k].status == EagerFree
      ensures b.Some? ==>
                && b.value == Pieces(old(allocators)[i].bufs[k], size)[0]
                && OneMore(allocators, old(allocators), i, b.value)
                && size <= b.value.size < size + ALIGN_SIZE
                && allocators == WithBufs(old(allocators), i, SplitAt(old(allocators)[i].bufs, k, size))
      ensures old(allocators)[i].bufs[k].status == Idle ==> b.Some? && vmm.pages == old(vmm.pages)
      ensures b == None && !refused ==> FrontMissing(vmm.pages, old(allocators)[i].bufs[k], size) > old(vmm.Supply(MAX_USED_MEM_SIZE))
    {
      ghost var was := allocators;
      b := Some(Pieces(allocators[i].bufs[k], size)[0]);
      SplitInUse(allocators[i].bufs, k, size);
      forall c | c in InUse(was[i].bufs) ensures c.addr != b.value.addr {
        if c.addr == b.value.addr { StartIsUnique(vmm.pages, was, i, c, i, k); }
      }
      var ok;
      ok, refused := MapAndSplit(i, k, size);
      if !ok { return None, refused; }
    }

    /** Malloc of an allocator that has blocks: the best fit of the idle buffers, or else of the released ones. */
    method MallocFromBufs(i: nat, size: nat) returns (b: Option<Buf>, ghost k: int, ghost refused: bool)
      requires Mem() && i < |allocators| && size > 0
      modifies this`allocators, vmm, vmm.manager
      ensures Mem()
      ensures b == None ==> allocators == old(allocators) && vmm.pages == old(vmm.pages)
      ensures b == None ==> NoneFits(allocators[i].bufs, Idle, size)
      ensures b == None && !refused ==> NoneMappable(allocators[i].bufs, vmm.pages, size, old(vmm.Supply(MAX_USED_MEM_SIZE)))
      ensures b.Some? ==>
                var bufs := old(allocators)[i].bufs;
                && 0 <= k < |bufs|
                && (IsBestFit(bufs, Idle, size, k) || (NoneFits(bufs, Idle, size) && IsBestFit(bufs, EagerFree, size, k)))
                && b.value == Pieces(bufs[k], size)[0]
      ensures !NoneFits(old(allocators)[i].bufs, Idle, size) ==>
                b.Some? && TookIdle(allocators, old(allocators), i, size, b.value) && vmm.pages == old(vmm.pages)
      ensures b.Some? ==> OneMore(allocators, old(allocators), i, b.value) && size <= b.value.size < size + ALIGN_SIZE
    {
      var a := allocators[i];
      assert Shaped(a);
      BestFitIsBest(a.bufs, a.blocks, Idle, size);
      BestFitIsBest(a.bufs, a.blocks, EagerFree, size);
      var found := BestFit(a.bufs, Idle, size);
      if found == -1 {
        found := BestFit(a.bufs, EagerFree, size);
        if found == -1 { return None, 0, false; }
      }
      k := found;
      b, refused := HandOut(i, found, size);
    }

    /** ExpandBlock: reserve a block of whole pages; none of it is backed yet. */
    method ExpandBlock(i: nat, blockSize: nat) returns (ok: bool, ghost block: Range)
      requires Mem() && i < |allocators| && blockSize > 0
      modifies this`allocators, vmm`pages, vmm.manager`baseAddr
      ensures Mem()
      ensures !ok ==> allocators == old(allocators)
      ensures ok ==> block.size == RoundUp(blockSize) && allocators == WithBlock(old(allocators), i, block)
      ensures ok ==> forall a :: a in old(vmm.pages) ==> a + PAGE <= block.addr
      ensures NothingMapped(vmm.pages, old(vmm.pages))
    {
      ghost var was := vmm.pages;
      var alignSize, addr := vmm.AllocDeviceMem(blockSize);
      block := Range(addr, alignSize);
      if alignSize == 0 {
        GrowKeepsBacks(vmm.pages, was, allocators);
        return false, block;
      }
      ReserveKeepsBacks(vmm.pages, was, block, allocators);
      WithBlockLaid(vmm.pages, allocators, i, block);
      allocators := WithBlock(allocators, i, Range(addr, alignSize));
      return true, block;
    }

    /**
      A new block is reserved, and the front of it is handed out if it can be mapped.  It has the
      size that the pool asks for, unless the device is short of memory or refuses.
      */
    method MallocExpandBlock(i: nat, size: nat) returns (b: Option<Buf>, ghost refused: bool, ghost block: Option<Range>)
      requires Mem() && i < |allocators| && size > 0
      modifies this`allocators, vmm, vmm.manager
      ensures Mem()
      ensures block == None ==> b == None && allocators == old(allocators)
      ensures block == None && !refused ==> freeMemSize < size
      ensures block.Some? ==> IsBlockSize(unitSize, freeMemSize, totalMemSize, size, block.value.size)
      ensures block.Some? && b == None ==> allocators == WithBlock(old(allocators), i, block.value)
      ensures b == None ==> SameUse(allocators, old(allocators)) && OnlyReserved(vmm.pages, allocators, old(vmm.pages), old(allocators), i)
      ensures b == None && old(allocators)[i].bufs == [] ==> NoneFits(allocators[i].bufs, Idle, size)
      ensures b.Some? ==> OneMore(allocators, old(allocators), i, b.value) && size <= b.value.size < size + ALIGN_SIZE
      ensures b.Some? ==> b.value.addr == block.value.addr
      ensures b == None ==> Expanded(i, size, old(allocators), refused)
    {
      ghost var was := allocators;
      SameUseRefl(was);
      block, refused := None, false;
      var blockSize := CalMemBlockAllocSize(size, unitSize, freeMemSize);
      if blockSize == 0 { return None, false, None; }
      var k := |allocators[i].bufs|;
      var ok;
      ghost var range;
      ok, range := ExpandBlock(i, Max(blockSize, totalMemSize));
      if !ok { return None, true, None; }
      block := Some(range);
      WithBlockSameUse(was, i, range);
      if allocators[i].bufs[k].size < size { return None, false, block; }
      ghost var mid := allocators;
      b, refused := HandOut(i, k, size);
      if b.Some? { SameThenMore(allocators, mid, was, i, b.value); }
    }

    /** Malloc of one allocator; a fitting idle buffer is always taken, and the best one. */
    method Malloc(i: nat, size: nat) returns (b: Option<Buf>, ghost refused: bool)
      requires Mem() && i < |allocators| && size > 0
      modifies this`allocators, vmm, vmm.manager
      ensures Mem()
      ensures b == None ==> SameUse(allocators, old(allocators)) && NoneFits(allocators[i].bufs, Idle, size)
      ensures b == None ==> OnlyReserved(vmm.pages, allocators, old(vmm.pages), old(allocators), i)
      ensures b.Some? ==> OneMore(allocators, old(allocators), i, b.value) && size <= b.value.size < size + ALIGN_SIZE
      ensures !NoneFits(old(allocators)[i].bufs, Idle, size) ==>
                b.Some? && TookIdle(allocators, old(allocators), i, size, b.value) && vmm.pages == old(vmm.pages)
    {
      if allocators[i].blocks == [] {
        assert Shaped(allocators[i]);
        ghost var block;
        b, refused, block := MallocExpandBlock(i, size);
        return;
      }
      ghost var k;
      b, k, refused := MallocFromBufs(i, size);
      SameUseRefl(allocators);
    }

    /** mem_eager_freer_ on every eager-free buffer of one allocator. */
    method UnmapReleased(i: nat)
      requires Mem() && i < |allocators|
      modifies vmm`pages, vmm`cached, vmm.manager`mapped, vmm.manager`handles
      ensures Mem()
      ensures Fewer(old(vmm.pages), vmm.pages)
      ensures forall k :: 0 <= k < |allocators[i].bufs| && allocators[i].bufs[k].status == EagerFree ==>
                BackedInside(vmm.pages, allocators[i].bufs[k].addr, allocators[i].bufs[k].End()) == {}
    {
      var k := 0;
      while k < |allocators[i].bufs|
        invariant 0 <= k <= |allocators[i].bufs| && Mem()
        invariant Fewer(old(vmm.pages), vmm.pages)
        invariant forall j :: 0 <= j < k && allocators[i].bufs[j].status == EagerFree ==>
                    BackedInside(vmm.pages, allocators[i].bufs[j].addr, allocators[i].bufs[j].End()) == {}
      {
        var b := allocators[i].bufs[k];
        if b.status == EagerFree {
          ghost var was := vmm.pages;
          assert Shaped(allocators[i]);
          BufIsCovered(was, allocators, i, k);
          var size, freed := vmm.EagerFreeDeviceMem(b.addr, b.size);
          EagerFreeKeepsBacks(vmm.pages, was, freed, allocators, i, k);
          FewerBacked(was, vmm.pages, freed);
        }
        k := k + 1;
      }
    }

    /** Release the idle memory of one allocator: all free memory is eager-free then, and unmapped. */
    method ReleaseIdle(i: nat)
      requires Mem() && i < |allocators|
      modifies this`allocators, vmm`pages, vmm`cached, vmm.manager`mapped, vmm.manager`handles
      ensures Mem() && SameUse(allocators, old(allocators))
      ensures forall j :: 0 <= j < |allocators| && j != i ==> allocators[j] == old(allocators)[j]
      ensures Fewer(old(vmm.pages), vmm.pages)
      ensures Released(vmm.pages, allocators[i].bufs)
    {
      var a := allocators[i];
      assert Shaped(a) && AllBacked(vmm.pages, a.bufs);
      var bufs := IdleToEager(a.bufs, a.blocks);
      InUseIsBacked(vmm.pages, bufs, a.bufs);
      WithBufsLaid(vmm.pages, allocators, i, bufs);
      WithBufsBacked(vmm.pages, allocators, i, bufs);
      WithBufsSameUse(allocators, i, bufs);
      allocators := WithBufs(allocators, i, bufs);
      UnmapReleased(i);
    }

    /** No allocator keeps idle memory, and no page that lies inside free memory stays mapped. */
    method FreeIdleMemsByEagerFree()
      requires Mem()
      modifies this`allocators, vmm`pages, vmm`cached, vmm.manager`mapped, vmm.manager`handles
      ensures Mem() && SameUse(allocators, old(allocators))
      ensures forall i :: 0 <= i < |allocators| ==> Released(vmm.pages, allocators[i].bufs)
    {
      var i := 0;
      SameUseRefl(allocators);
      while i < |allocators|
        invariant 0 <= i <= |allocators| && Mem() && SameUse(allocators, old(allocators))
        invariant forall j :: 0 <= j < i ==> Released(vmm.pages, allocators[j].bufs)
      {
        ghost var mid, was := allocators, vmm.pages;
        ReleaseIdle(i);
        SameUseTrans(allocators, mid, old(allocators));
        forall j | 0 <= j < i ensures Released(vmm.pages, allocators[j].bufs) {
          StaysReleased(was, vmm.pages, allocators[j].bufs);
        }
        i := i + 1;
      }
    }

    // ------------------------------------------------------------- the service

    method AddAllocator(key: Key)
      requires Valid()
      modifies this`allocators
      ensures Valid() && allocators == old(allocators) + [Allocator(key, [], [])]
    {
      NewAllocatorLaid(vmm.pages, allocators, key);
      NewAllocatorInOrder(allocators, ledger, home, key);
      allocators := allocators + [Allocator(key, [], [])];
    }

    /** The allocator of the key, made when it is first asked for. */
    method GetMemBufAllocator(key: Key) returns (i: nat)
      requires Valid()
      modifies this`allocators
      ensures Valid() && i < |allocators| && allocators[i].key == key && forall j :: 0 <= j < i ==> allocators[j].key != key
      ensures allocators == if i < |old(allocators)| then old(allocators) else old(allocators) + [Allocator(key, [], [])]
    {
      i := FindKey(allocators, key);
      if i == |allocators| { AddAllocator(key); }
    }

    /** Malloc that leaves the books in order if it fails. */
    method TryMalloc(i: nat, size: nat) returns (b: Option<Buf>, ghost refused: bool)
      requires Valid() && i < |allocators| && size > 0
      modifies this`allocators, vmm, vmm.manager
      ensures Mem() && i < |allocators|
      ensures b == None ==> Valid() && SameUse(allocators, old(allocators)) && NoneFits(allocators[i].bufs, Idle, size)
      ensures b == None ==> OnlyReserved(vmm.pages, allocators, old(vmm.pages), old(allocators), i)
      ensures b.Some? ==> OneMore(allocators, old(allocators), i, b.value) && size <= b.value.size < size + ALIGN_SIZE
      ensures !NoneFits(old(allocators)[i].bufs, Idle, size) ==>
                b.Some? && TookIdle(allocators, old(allocators), i, size, b.value) && vmm.pages == old(vmm.pages)
    {
      ghost var was := allocators;
      b, refused := Malloc(i, size);
      if b == None { SameUseInOrder(allocators, was, ledger, home); }
    }

    method TryExpand(i: nat, size: nat) returns (b: Option<Buf>, ghost refused: bool)
      requires Valid() && i < |allocators| && size > 0
      modifies this`allocators, vmm, vmm.manager
      ensures Mem() && i < |allocators|
      ensures b == None ==> Valid() && SameUse(allocators, old(allocators)) && Expanded(i, size, old(allocators), refused)
      ensures b == None ==> OnlyReserved(vmm.pages, allocators, old(vmm.pages), old(allocators), i)
      ensures b.Some? ==> OneMore(allocators, old(allocators), i, b.value) && size <= b.value.size < size + ALIGN_SIZE
    {
      ghost var was := allocators;
      ghost var block;
      b, refused, block := MallocExpandBlock(i, size);
      if b == None { SameUseInOrder(allocators, was, ledger, home); }
    }

    /** A block has been added, unless the device refused it or is short of memory. */
    ghost predicate Expanded(i: nat, size: nat, was: seq<Allocator>, refused: bool)
      reads this
    {
      i < |was| && i < |allocators| && (refused || freeMemSize < size || |was[i].blocks| < |allocators[i].blocks|)
    }

    /** The eager free between two attempts. */
    method ReleaseIdleMemory()
      requires Valid()
      modifies this`allocators, vmm, vmm.manager
      ensures Valid() && |allocators| == |old(allocators)|
      ensures SameUse(allocators, old(allocators))
      ensures forall i :: 0 <= i < |allocators| ==> Released(vmm.pages, allocators[i].bufs)
    {
      ghost var was := allocators;
      FreeIdleMemsByEagerFree();
      SameUseInOrder(allocators, was, ledger, home);
    }

    /** The table and the statistics learn of the buffer that was handed out. */
    method Enter(i: nat, b: Buf, ghost was: seq<Allocator>)
      requires Mem() && InOrder(was, ledger, home, {}) && OneMore(allocators, was, i, b) && ledger.used <= peakSize
      modifies this`ledger, this`peakSize
      ensures Valid() && Handed(vmm.pages, allocators, ledger, b)
      ensures b.addr !in old(ledger).table
      ensures ledger == old(ledger).(table := old(ledger).table[b.addr := i], used := old(ledger).used + b.size)
      ensures peakSize == if old(peakSize) < ledger.used then ledger.used else old(peakSize)
    {
      NewIsNotTabled(vmm.pages, allocators, was, i, b, ledger.table);
      EnteredIsHanded(vmm.pages, allocators, was, i, b);
      OneMoreInOrder(allocators, was, ledger, home, i, b);
      ledger := ledger.(table := ledger.table[b.addr := i], used := ledger.used + b.size);
      if peakSize < ledger.used { peakSize := ledger.used; }
    }

    method SyncAllEvents() returns (any: bool)
      requires Valid()
      modifies this`allocators, this`ledger
      ensures Valid() && KeptUse(allocators, old(allocators)) && ledger.used <= old(ledger).used
      ensures any <==> exists p :: p in old(ledger).pairs
      ensures forall a :: a in ledger.table <==> a in old(ledger).table && !OnlyForEvents(old(allocators), old(ledger), a)
      ensures forall a :: a !in ledger.events
    {
      if exists p :: p in ledger.pairs {
        var allocs, l := SyncAll(allocators, ledger, vmm.pages, home);
        allocators, ledger := allocs, l;
        return true;
      }
      NothingToSync(allocators, ledger, home);
      SameUseRefl(allocators);
      SameUseIsKept(allocators, allocators);
      return false;
    }

    /** A free buffer was found in what the allocators held at `was`; until then use had not changed. */
    ghost predicate Found(i: nat, alignSize: nat, found: Option<Buf>, was: seq<Allocator>, first: seq<Allocator>)
      reads this
    {
      && SameUse(was, first)
      && match found
         case None => was == allocators
         case Some(b) => OneMore(allocators, was, i, b) && alignSize <= b.size < alignSize + ALIGN_SIZE
    }

    /** One attempt; if it fails, use has not changed. */
    method Attempt(i: nat, alignSize: nat, expand: bool, ghost first: seq<Allocator>)
      returns (found: Option<Buf>, ghost was: seq<Allocator>, ghost refused: bool)
      requires Valid() && i < |allocators| && alignSize > 0 && SameUse(allocators, first)
      modifies this`allocators, vmm, vmm.manager
      ensures Mem() && InOrder(was, ledger, home, {}) && i < |allocators| && Found(i, alignSize, found, was, first)
      ensures found == None ==> OnlyReserved(vmm.pages, allocators, old(vmm.pages), old(allocators), i)
      ensures found == None && !expand ==> NoneFits(allocators[i].bufs, Idle, alignSize)
      ensures found == None && expand ==> Expanded(i, alignSize, old(allocators), refused)
    {
      was := allocators;
      if expand {
        found, refused := TryExpand(i, alignSize);
      } else {
        found, refused := TryMalloc(i, alignSize);
      }
      if found == None {
        SameUseTrans(allocators, was, first);
        was := allocators;
      }
    }

    /** The second attempt: if it fails as well, all idle memory has been released. */
    method AllocAfterRelease(i: nat, alignSize: nat, ghost first: seq<Allocator>) returns (found: Option<Buf>, ghost was: seq<Allocator>)
      requires Valid() && i < |allocators| && alignSize > 0 && SameUse(allocators, first)
      modifies this`allocators, vmm, vmm.manager
      ensures Mem() && InOrder(was, ledger, home, {}) && i < |allocators| && Found(i, alignSize, found, was, first)
      ensures found == None ==> forall j :: 0 <= j < |allocators| ==> Released(vmm.pages, allocators[j].bufs)
    {
      ghost var start := allocators;
      ReleaseIdleMemory();
      SameUseTrans(allocators, start, first);
      ghost var mid, pages, refused := allocators, vmm.pages, false;
      found, was, refused := Attempt(i, alignSize, false, first);
      if found == None { ReservedStaysReleased(vmm.pages, allocators, pages, mid, i); }
    }

    /** The second and the third attempt. */
    method AllocReleasing(i: nat, alignSize: nat, ghost first: seq<Allocator>)
      returns (found: Option<Buf>, ghost was: seq<Allocator>, ghost refused: bool)
      requires Valid() && i < |allocators| && alignSize > 0 && SameUse(allocators, first)
      modifies this`allocators, vmm, vmm.manager
      ensures Mem() && InOrder(was, ledger, home, {}) && i < |allocators| && Found(i, alignSize, found, was, first)
      ensures found == None ==> Expanded(i, alignSize, first, refused)
      ensures found == None ==> forall j :: 0 <= j < |allocators| ==> Released(vmm.pages, allocators[j].bufs)
    {
      found, was := AllocAfterRelease(i, alignSize, first);
      refused := false;
      if found.Some? { return; }
      ghost var mid, pages := allocators, vmm.pages;
      assert SameUseAt(mid[i], first[i]);
      found, was, refused := Attempt(i, alignSize, true, first);
      if found == None { ReservedStaysReleased(vmm.pages, allocators, pages, mid, i); }
    }

    /**
      The steps of AllocMemBuf that need no event; each is tried if the one before has failed.
      A fitting idle buffer is taken at once.  If all fail, all idle memory has been released
      and a block has been reserved.
      */
    method AllocWithoutSync(i: nat, alignSize: nat) returns (found: Option<Buf>, ghost was: seq<Allocator>, ghost refused: bool)
      requires Valid() && i < |allocators| && alignSize > 0
      modifies this`allocators, vmm, vmm.manager
      ensures Mem() && InOrder(was, ledger, home, {}) && i < |allocators| && Found(i, alignSize, found, was, old(allocators))
      ensures !NoneFits(old(allocators)[i].bufs, Idle, alignSize) ==>
                && found.Some? && was == old(allocators) && vmm.pages == old(vmm.pages)
                && TookIdle(allocators, was, i, alignSize, found.value)
      ensures found == None ==> Expanded(i, alignSize, old(allocators), refused)
      ensures found == None ==> forall j :: 0 <= j < |allocators| ==> Released(vmm.pages, allocators[j].bufs)
    {
      was := allocators;
      SameUseRefl(was);
      found, refused := TryMalloc(i, alignSize);
      if found.Some? { return; }
      found, was, refused := AllocReleasing(i, alignSize, old(allocators));
    }

    /** AllocMemBuf: as a last resort all events are waited for. */
    method AllocMemBuf(i: nat, alignSize: nat) returns (found: Option<Buf>, ghost was: seq<Allocator>, ghost refused: bool)
      requires Valid() && i < |allocators| && alignSize > 0
      modifies this`allocators, this`ledger, vmm, vmm.manager
      ensures Mem() && InOrder(was, ledger, home, {}) && ledger.used <= peakSize && KeptUse(was, old(allocators))
      ensures i < |allocators| && OnlyWaitingLeft(old(allocators), old(ledger), ledger)
      ensures found == None ==>
                && was == allocators
                && NoneLeftAt(allocators, old(allocators), i, alignSize, refused || freeMemSize < alignSize)
      ensures found.Some? ==>
                && OneMore(allocators, was, i, found.value) && alignSize <= found.value.size < alignSize + ALIGN_SIZE
                && AtOnce(vmm.pages, allocators, old(vmm.pages), old(allocators), i, alignSize, found.value)
    {
      found, was, refused := AllocWithoutSync(i, alignSize);
      SameUseIsKept(was, old(allocators));
      if found.Some? { return; }
      ghost var mid := allocators;
      SameUseOnly(mid, old(allocators), ledger);
      KeptUseRefl(mid);
      found, was := AllocAfterSync(i, alignSize, mid);
      assert KeptUseAt(was[i], mid[i]);
      KeptUseTrans(was, mid, old(allocators));
    }

    method AllocAfterSync(i: nat, alignSize: nat, ghost first: seq<Allocator>) returns (found: Option<Buf>, ghost was: seq<Allocator>)
      requires Valid() && i < |allocators| && alignSize > 0 && KeptUse(allocators, first)
      modifies this`allocators, this`ledger, vmm, vmm.manager
      ensures Mem() && InOrder(was, ledger, home, {}) && ledger.used <= peakSize && KeptUse(was, first)
      ensures found == None ==> was == allocators && NoneFits(allocators[i].bufs, Idle, alignSize)
      ensures found.Some? ==>
                OneMore(allocators, was, i, found.value) && alignSize <= found.value.size < alignSize + ALIGN_SIZE
      ensures AllWaitingLeft(old(allocators), old(ledger), ledger)
    {
      SyncKeeping(first);
      found, was := AttemptKeeping(i, alignSize, first);
    }

    method SyncKeeping(ghost first: seq<Allocator>)
      requires Valid() && KeptUse(allocators, first)
      modifies this`allocators, this`ledger
      ensures Valid() && KeptUse(allocators, first) && |allocators| == |old(allocators)|
      ensures AllWaitingLeft(old(allocators), old(ledger), ledger)
    {
      ghost var start := allocators;
      var any := SyncAllEvents();
      KeptUseTrans(allocators, start, first);
    }

    method AttemptKeeping(i: nat, alignSize: nat, ghost first: seq<Allocator>) returns (found: Option<Buf>, ghost was: seq<Allocator>)
      requires Valid() && i < |allocators| && alignSize > 0 && KeptUse(allocators, first)
      modifies this`allocators, vmm, vmm.manager
      ensures Mem() && InOrder(was, ledger, home, {}) && KeptUse(was, first)
      ensures found == None ==> was == allocators && NoneFits(allocators[i].bufs, Idle, alignSize)
      ensures found.Some? ==>
                OneMore(allocators, was, i, found.value) && alignSize <= found.value.size < alignSize + ALIGN_SIZE
    {
      ghost var start := allocators;
      SameUseRefl(start);
      ghost var refused;
      found, was, refused := Attempt(i, alignSize, false, start);
      SameUseIsKept(was, start);
      KeptUseTrans(was, start, first);
    }

    method AllocTensorMem(size: nat, key: Key) returns (addr: Option<int>, ghost b: Buf, ghost refused: bool)
      requires Valid()
      modifies this`allocators, this`ledger, this`peakSize, vmm, vmm.manager
      ensures Valid()
      ensures addr.Some? ==> b.addr == addr.value
      ensures OnlyWaitingLeft(old(allocators), old(ledger), ledger)
      ensures addr.Some? ==>
                Gave(vmm.pages, allocators, ledger, old(vmm.pages), old(allocators), old(ledger), key, AlignMemorySize(size), b)
      ensures addr == None ==>
                NoneLeft(allocators, old(allocators), key, AlignMemorySize(size), refused || freeMemSize < AlignMemorySize(size))
      ensures peakSize == if addr.Some? && old(peakSize) < ledger.used then ledger.used else old(peakSize)
    {
      ghost var first, wasL, wasPages, alignSize := allocators, ledger, vmm.pages, AlignMemorySize(size);
      assert InOrder(first, wasL, home, {});
      var i := GetMemBufAllocator(key);
      ghost var start := allocators;
      addr, b, refused := AllocFrom(i, AlignMemorySize(size));
      AnswerForFirst(vmm.pages, allocators, ledger, wasPages, start, first, wasL, i, alignSize, addr.Some?, b,
                     refused || freeMemSize < alignSize);
    }

    /** The buffer comes from allocator i, and is entered. */
    method AllocFrom(i: nat, alignSize: nat) returns (addr: Option<int>, ghost b: Buf, ghost refused: bool)
      requires Valid() && i < |allocators| && alignSize > 0
      modifies this`allocators, this`ledger, this`peakSize, vmm, vmm.manager
      ensures Valid()
      ensures addr.Some? ==> b.addr == addr.value
      ensures OnlyWaitingLeft(old(allocators), old(ledger), ledger)
      ensures addr.Some? ==>
                Gave(vmm.pages, allocators, ledger, old(vmm.pages), old(allocators), old(ledger), old(allocators)[i].key, alignSize, b)
      ensures addr == None ==> i < |allocators| && allocators[i].key == old(allocators)[i].key
      ensures addr == None ==> NoneLeftAt(allocators, old(allocators), i, alignSize, refused || freeMemSize < alignSize)
      ensures peakSize == if addr.Some? && old(peakSize) < ledger.used then ledger.used else old(peakSize)
    {
      var found;
      ghost var was, start := allocators, allocators;
      found, was, refused := AllocMemBuf(i, alignSize);
      b := Buf(0, 0, Idle, 0);
      if found == None {
        KeptUseKey(was, start, i);
        return None, b, refused;
      }
      b := found.value;
      EnterFrom(i, found.value, was, start, old(ledger), old(vmm.pages), alignSize);
      return Some(found.value.addr), b, refused;
    }

    /** Enter a buffer that came from allocator i, after what only waited for its events may have gone. */
    method EnterFrom(i: nat, b: Buf, ghost was: seq<Allocator>, ghost start: seq<Allocator>, ghost startL: Ledger,
                     ghost startPages: PageMap, ghost size: nat)
      requires Mem() && InOrder(was, ledger, home, {}) && OneMore(allocators, was, i, b) && ledger.used <= peakSize
      requires KeptUse(was, start) && OnlyWaitingLeft(start, startL, ledger) && size <= b.size < size + ALIGN_SIZE
      requires AtOnce(vmm.pages, allocators, startPages, start, i, size, b)
      modifies this`ledger, this`peakSize
      ensures Valid() && OnlyWaitingLeft(start, startL, ledger)
      ensures Gave(vmm.pages, allocators, ledger, startPages, start, startL, start[i].key, size, b)
      ensures peakSize == if old(peakSize) < ledger.used then ledger.used else old(peakSize)
    {
      ghost var l := ledger;
      MoreAfterKept(allocators, was, start, i, b);
      Enter(i, b, was);
      ItGave(vmm.pages, allocators, ledger, l, startPages, start, startL, i, size, b);
    }

    /** DoFreeTensorMem: b is the buffer that is given back, or only marked. */
    method FreeTensorMem(addr: int) returns (freed: bool, ghost b: Buf)
      requires Valid()
      modifies this`allocators, this`ledger
      ensures Valid()
      ensures Given(old(allocators), old(ledger), allocators, ledger, addr, freed, b)
    {
      var allocs, l;
      freed, allocs, l, b := DoFreeTensorMem(allocators, ledger, addr, vmm.pages, home);
      allocators, ledger := allocs, l;
    }

    /** FreePartTensorMems, for buffers without events and ranges inside them. */
    method FreePartTensorMems(freeAddrs: seq<int>, keeps: seq<Range>)
      requires Valid() && forall a :: a in freeAddrs ==> a !in ledger.events
      requires PartialFree.ValidKeeps(PoolPartialFree.FreedFrom(allocators, freeAddrs), keeps)
      modifies this`allocators, this`ledger
      ensures Valid() && ledger.events == old(ledger).events && ledger.pairs == old(ledger).pairs
      ensures var freed := PoolPartialFree.FreedFrom(old(allocators), freeAddrs);
              PoolCutting.AllInUse(allocators) ==
              (PoolCutting.AllInUse(old(allocators)) - freed) + PartialFree.Kept(freed, keeps)
    {
      var allocs, l := PoolPartialFree.FreePart(allocators, ledger, freeAddrs, keeps, vmm.pages, home);
      allocators, ledger := allocs, l;
    }

    /**
      AllocContinuousTensorMem: one buffer b for the sum of the sizes, cut into pieces.  The pool
      stays in order exactly if the pieces use up the buffer; they do not if there are several
      and the sum is not a multiple of the alignment.
      */
    method AllocContinuousTensorMem(sizes: seq<nat>, stream: nat)
      returns (addrs: seq<int>, ghost b: Buf, ghost mid: seq<Allocator>, ghost midL: Ledger, ghost refused: bool)
      requires Valid() && PoolContinuous.Positive(sizes)
      modifies this`allocators, this`ledger, this`peakSize, vmm, vmm.manager
      ensures Valid() <==> addrs == [] || PoolContinuous.UsesUp(b, sizes)
      ensures addrs == [] ==>
                var size := AlignMemorySize(ContinuousAlloc.Sum(sizes));
                && OnlyWaitingLeft(old(allocators), old(ledger), ledger)
                && NoneLeft(allocators, old(allocators), Key(false, stream), size, refused || freeMemSize < size)
      ensures addrs != [] ==>
                && addrs == PoolContinuous.Starts(PoolContinuous.PiecesOf(b, sizes))
                && Gave(vmm.pages, mid, midL, old(vmm.pages), old(allocators), old(ledger), Key(false, stream),
                        AlignMemorySize(ContinuousAlloc.Sum(sizes)), b)
                && PoolContinuous.CutAs(allocators, ledger, mid, midL, b, PoolContinuous.PiecesOf(b, sizes))
      ensures addrs != [] && |sizes| > 1 && ContinuousAlloc.Sum(sizes) % ALIGN_SIZE != 0 ==> !Valid()
      ensures addrs != [] && Valid() ==> NotIdle(PoolContinuous.PiecesOf(b, sizes)) <= PoolCutting.AllInUse(allocators)
    {
      var total := ContinuousAlloc.Sum(sizes);
      var addr;
      addr, b, refused := AllocTensorMem(total, Key(false, stream));
      mid, midL := allocators, ledger;
      if addr == None { return [], b, mid, midL, refused; }
      if |sizes| > 1 && total % ALIGN_SIZE != 0 { PoolContinuous.OddSumLeavesSlack(b, sizes); }
      addrs := CutAllocated(addr.value, sizes, b);
    }

    /** The buffer just handed out is cut. */
    method CutAllocated(addr: int, sizes: seq<nat>, ghost b: Buf) returns (addrs: seq<int>)
      requires Valid() && Handed(vmm.pages, allocators, ledger, b) && b.addr == addr && PoolContinuous.Positive(sizes)
      modifies this`allocators, this`ledger
      ensures Valid() <==> PoolContinuous.UsesUp(b, sizes)
      ensures addrs == PoolContinuous.Starts(PoolContinuous.PiecesOf(b, sizes))
      ensures PoolContinuous.CutAs(allocators, ledger, old(allocators), old(ledger), b, PoolContinuous.PiecesOf(b, sizes))
      ensures PoolContinuous.UsesUp(b, sizes) ==>
                PoolCutting.AllInUse(allocators) ==
                PoolCutting.AllInUse(old(allocators)) - {b} + NotIdle(PoolContinuous.PiecesOf(b, sizes))
    {
      var allocs, l;
      allocs, l, addrs := PoolContinuous.CutHanded(allocators, ledger, addr, sizes, vmm.pages, home, b);
      allocators, ledger := allocs, l;
    }

    method RecordEvent(task: int, user: nat, list: seq<(nat, int)>)
      requires Valid() && UnderOnePair(ledger, home, user, list)
      modifies this`ledger, this`home
      ensures Valid() && ledger.table == old(ledger).table && ledger.used == old(ledger).used
      ensures RecordedFor(old(ledger), ledger, task, user, list, |list|)
      ensures Chronological(old(ledger)) && NoneLater(old(ledger), task) ==> Chronological(ledger) && NoneLater(ledger, task)
    {
      var l;
      ghost var h;
      l, h := RecordAll(allocators, ledger, task, user, list, vmm.pages, home);
      if Chronological(ledger) && NoneLater(ledger, task) { RecordingKeepsOrder(ledger, l, task, user, list); }
      ledger, home := l, h;
    }

    /** WaitEvent of one user stream for one memory stream. */
    method WaitEvent(task: int, user: nat, mem: nat) returns (any: bool)
      requires Valid()
      modifies this`allocators, this`ledger
      ensures Valid() && (any <==> Pair(user, mem) in old(ledger).pairs)
      ensures !any ==> allocators == old(allocators) && ledger == old(ledger)
      ensures any ==> forall a :: if a in old(ledger).pairs[Pair(user, mem)]
                                  then WaitedAt(old(allocators), old(ledger), ledger, task, user, a)
                                  else Untouched(old(allocators), old(ledger), allocators, ledger, a)
      ensures Chronological(old(ledger)) && 0 <= task < TWO32 ==> Chronological(ledger)
    {
      var pair := Pair(user, mem);
      if pair !in ledger.pairs { return false; }
      var allocs, l := WaitPair(allocators, ledger, task, pair, vmm.pages, home);
      ListedAreHome(ledger, home, pair);
      if Chronological(ledger) && 0 <= task < TWO32 { WaitingKeepsOrder(allocators, ledger, home, allocs, l, task); }
      allocators, ledger := allocs, l;
      return true;
    }

    /** WaitEvent of all user streams for one memory stream. */
    method WaitEventOfMemory(task: int, mem: nat)
      requires Valid()
      modifies this`allocators, this`ledger
      ensures Valid()
      ensures forall a :: if Concerned(old(ledger), home, mem, {}, a)
                          then WaitedAt(old(allocators), old(ledger), ledger, task, home[a].user, a)
                          else Untouched(old(allocators), old(ledger), allocators, ledger, a)
      ensures Chronological(old(ledger)) && 0 <= task < TWO32 ==> Chronological(ledger)
    {
      var allocs, l := WaitMemory(allocators, ledger, task, mem, vmm.pages, home);
      if Chronological(ledger) && 0 <= task < TWO32 { WaitingKeepsOrder(allocators, ledger, home, allocs, l, task); }
      allocators, ledger := allocs, l;
    }
  }

  /**
    So many bytes are allocated as b: it is handed out, its address was unused or that of a buffer
    that only waited, and apart from it all allocators have in use what they had.
    */
  ghost predicate Allocated(pages: PageMap, allocs: seq<Allocator>, l: Ledger, was: seq<Allocator>, wasL: Ledger, size: nat, b: Buf) {
    && Handed(pages, allocs, l, b) && size <= b.size < size + ALIGN_SIZE
    && (b.addr in wasL.table ==> OnlyForEvents(was, wasL, b.addr))
    && TakenFrom(allocs, was, l.table[b.addr], b)
  }

  /**
    The allocator of the key had and has no idle buffer that is large enough, and has one block
    more unless the device is short of memory or refused something.
    */
  ghost predicate NoneLeft(allocs: seq<Allocator>, was: seq<Allocator>, key: Key, size: int, short: bool) {
    exists i :: 0 <= i < |allocs| && allocs[i].key == key && NoneLeftAt(allocs, was, i, size, short)
  }

  ghost predicate NoneLeftAt(allocs: seq<Allocator>, was: seq<Allocator>, i: nat, size: int, short: bool)
    requires i < |allocs|
  {
    && NoneFits(allocs[i].bufs, Idle, size) && (i < |was| ==> NoneFits(was[i].bufs, Idle, size))
    && (short || (if i < |was| then |was[i].blocks| else 0) < |allocs[i].blocks|)
  }

  /** What a successful allocation of a key means. */
  ghost predicate Gave(pages: PageMap, allocs: seq<Allocator>, l: Ledger, wasPages: PageMap, was: seq<Allocator>, wasL: Ledger,
                       key: Key, size: nat, b: Buf) {
    && Allocated(pages, allocs, l, was, wasL, size, b)
    && allocs[l.table[b.addr]].key == key && AtOnce(pages, allocs, wasPages, was, l.table[b.addr], size, b)
  }

  /** If the allocator of b had a fitting idle buffer, b is cut from the best one and nothing else has changed. */
  ghost predicate AtOnce(pages: PageMap, allocs: seq<Allocator>, wasPages: PageMap, was: seq<Allocator>, i: nat, size: int, b: Buf) {
    i < |was| && !NoneFits(was[i].bufs, Idle, size) ==> TookIdle(allocs, was, i, size, b) && pages == wasPages
  }

  lemma KeptUseKey(allocs: seq<Allocator>, was: seq<Allocator>, i: nat)
    requires KeptUse(allocs, was) && i < |allocs|
    ensures allocs[i].key == was[i].key
  {
    assert KeptUseAt(allocs[i], was[i]);
  }

  lemma ItGave(pages: PageMap, allocs: seq<Allocator>, l: Ledger, mid: Ledger, wasPages: PageMap, was: seq<Allocator>, wasL: Ledger,
               i: nat, size: nat, b: Buf)
    requires Handed(pages, allocs, l, b) && TakenFrom(allocs, was, i, b) && i < |was|
    requires b.addr !in mid.table && l.table == mid.table[b.addr := i] && size <= b.size < size + ALIGN_SIZE
    requires OnlyWaitingLeft(was, wasL, mid) && AtOnce(pages, allocs, wasPages, was, i, size, b)
    ensures Gave(pages, allocs, l, wasPages, was, wasL, was[i].key, size, b) && OnlyWaitingLeft(was, wasL, l)
  {
  }

  /** A new allocator changes nothing for the others. */
  ghost predicate OneNew(start: seq<Allocator>, first: seq<Allocator>, key: Key) {
    start == first || (start == first + [Allocator(key, [], [])] && forall j :: 0 <= j < |first| ==> first[j].key != key)
  }

  lemma GaveForFirst(pages: PageMap, allocs: seq<Allocator>, l: Ledger, wasPages: PageMap, start: seq<Allocator>, first: seq<Allocator>,
                     wasL: Ledger, key: Key, size: nat, b: Buf)
    requires OneNew(start, first, key) && Tabled(first, wasL.table)
    requires Gave(pages, allocs, l, wasPages, start, wasL, key, size, b)
    ensures Gave(pages, allocs, l, wasPages, first, wasL, key, size, b)
  {
    KeysDoNotMatter(start, first, wasL);
    assert InUse([]) == {};
  }

  lemma NoneForFirst(allocs: seq<Allocator>, start: seq<Allocator>, first: seq<Allocator>, i: nat, size: int, short: bool)
    requires i < |start| && OneNew(start, first, start[i].key)
    requires i < |allocs| && allocs[i].key == start[i].key && NoneLeftAt(allocs, start, i, size, short)
    ensures NoneLeft(allocs, first, start[i].key, size, short)
  {
    assert NoneLeftAt(allocs, first, i, size, short);
  }

  /** What is said of an allocation holds in view of the allocators before a new one was made. */
  lemma AnswerForFirst(pages: PageMap, allocs: seq<Allocator>, l: Ledger, wasPages: PageMap, start: seq<Allocator>, first: seq<Allocator>,
                       wasL: Ledger, i: nat, size: nat, some: bool, b: Buf, short: bool)
    requires i < |start| && OneNew(start, first, start[i].key) && Tabled(first, wasL.table) && OnlyWaitingLeft(start, wasL, l)
    requires some ==> Gave(pages, allocs, l, wasPages, start, wasL, start[i].key, size, b)
    requires !some ==> i < |allocs| && allocs[i].key == start[i].key && NoneLeftAt(allocs, start, i, size, short)
    ensures OnlyWaitingLeft(first, wasL, l)
    ensures some ==> Gave(pages, allocs, l, wasPages, first, wasL, start[i].key, size, b)
    ensures !some ==> NoneLeft(allocs, first, start[i].key, size, short)
  {
    KeysDoNotMatter(start, first, wasL);
    if some {
      GaveForFirst(pages, allocs, l, wasPages, start, first, wasL, start[i].key, size, b);
    } else {
      NoneForFirst(allocs, start, first, i, size, short);
    }
  }

  /** Nothing has left the table but buffers that were only waiting for their events. */
  ghost predicate OnlyWaitingLeft(was: seq<Allocator>, l: Ledger, l': Ledger) {
    forall a :: a in l.table ==> a in l'.table || OnlyForEvents(was, l, a)
  }

  /** Exactly the buffers that were only waiting for their events have left the table. */
  ghost predicate AllWaitingLeft(was: seq<Allocator>, l: Ledger, l': Ledger) {
    forall a :: a in l'.table <==> a in l.table && !OnlyForEvents(was, l, a)
  }

  lemma SameUseOnly(allocs: seq<Allocator>, was: seq<Allocator>, l: Ledger)
    requires SameUse(allocs, was)
    ensures forall a :: OnlyForEvents(allocs, l, a) <==> OnlyForEvents(was, l, a)
  {
    forall a ensures OnlyForEvents(allocs, l, a) <==> OnlyForEvents(was, l, a) {
      if a in l.table && l.table[a] < |allocs| { assert SameUseAt(allocs[l.table[a]], was[l.table[a]]); }
    }
  }

  lemma KeysDoNotMatter(allocs: seq<Allocator>, was: seq<Allocator>, l: Ledger)
    requires was <= allocs && Tabled(was, l.table)
    ensures forall a :: OnlyForEvents(allocs, l, a) <==> OnlyForEvents(was, l, a)
  {
  }

  lemma EnteredIsHanded(pages: PageMap, allocs: seq<Allocator>, was: seq<Allocator>, i: nat, b: Buf)
    requires OneMore(allocs, was, i, b) && Backs(pages, allocs)
    ensures b in InUse(allocs[i].bufs) && BytesBacked(pages, b.addr, b.End())
  {
    assert b in InUse(allocs[i].bufs) && AllBacked(pages, allocs[i].bufs);
    var k :| 0 <= k < |allocs[i].bufs| && allocs[i].bufs[k] == b;
    assert BufBacked(pages, allocs[i].bufs[k]);
  }

  /** How many pages are to be mapped before the front of a free buffer can be handed out. */
  ghost function FrontMissing(pages: PageMap, b: Buf, size: int): nat
    requires 0 < size <= b.size
  {
    var start := PageOf(b.addr);
    |Missing(pages, start, start + RoundUp((if b.size - size >= 512 then size else b.size) + b.addr - start))|
  }

  /** The best eager-free buffer, if there is one, needs more pages than there are. */
  ghost predicate NoneMappable(bufs: seq<Buf>, pages: PageMap, size: int, supply: nat)
    requires size > 0
  {
    || NoneFits(bufs, EagerFree, size)
    || exists k: nat {:trigger IsBestFit(bufs, EagerFree, size, k)} ::
         IsBestFit(bufs, EagerFree, size, k) && FrontMissing(pages, bufs[k], size) > supply
  }

  /** b is the front of the best idle buffer, and nothing else has changed. */
  ghost predicate TookIdle(allocs: seq<Allocator>, was: seq<Allocator>, i: nat, size: int, b: Buf)
    requires i < |was|
  {
    var bufs := was[i].bufs;
    exists k: nat {:trigger IsBestFit(bufs, Idle, size, k)} ::
      IsBestFit(bufs, Idle, size, k) && b == Pieces(bufs[k], size)[0] && allocs == WithBufs(was, i, SplitAt(bufs, k, size))
  }

  /** No page has been mapped. */
  ghost predicate NothingMapped(pages: PageMap, was: PageMap) {
    forall a :: a in pages && pages[a].Some? ==> a in was && was[a].Some?
  }

  /** At most a block has been added to allocator i, behind all pages, and none of it is mapped. */
  ghost predicate OnlyReserved(pages: PageMap, allocs: seq<Allocator>, wasPages: PageMap, was: seq<Allocator>, i: nat) {
    && i < |was| && NothingMapped(pages, wasPages)
    && (allocs != was ==> exists block: Range {:trigger WithBlock(was, i, block)} ::
          allocs == WithBlock(was, i, block) && forall a :: a in wasPages ==> a + PAGE <= block.addr)
  }

  /** What was released stays so when a block is reserved. */
  lemma ReservedStaysReleased(pages: PageMap, allocs: seq<Allocator>, wasPages: PageMap, was: seq<Allocator>, i: nat)
    requires OnlyReserved(pages, allocs, wasPages, was, i)
    requires forall j :: 0 <= j < |was| ==> Released(wasPages, was[j].bufs)
    ensures forall j :: 0 <= j < |allocs| ==> Released(pages, allocs[j].bufs)
  {
    forall j | 0 <= j < |allocs| ensures Released(pages, allocs[j].bufs) {
      forall k | 0 <= k < |allocs[j].bufs|
        ensures var b := allocs[j].bufs[k]; b.status != Idle && (b.status == EagerFree ==> BackedInside(pages, b.addr, b.End()) == {})
      {
        var b := allocs[j].bufs[k];
        if k < |was[j].bufs| {
          assert b == was[j].bufs[k];
          assert BackedInside(pages, b.addr, b.End()) <= BackedInside(wasPages, b.addr, b.End());
        }
      }
    }
  }

  /** The first doubling, at most the free memory, at least the total, in whole pages. */
  ghost predicate IsBlockSize(unit: nat, free: nat, total: nat, size: nat, n: int) {
    exists d: nat {:trigger IsFirstDoubling(unit, size, d)} ::
      IsFirstDoubling(unit, size, d) && n == RoundUp(Max(if d < free then d else free, total))
  }

  /** b is in use, listed, without events, and all its bytes are mapped. */
  ghost predicate Handed(pages: PageMap, allocs: seq<Allocator>, l: Ledger, b: Buf) {
    && b.addr in l.table && l.table[b.addr] < |allocs| && b in InUse(allocs[l.table[b.addr]].bufs)
    && b.status == Used && b.addr !in l.events
    && BytesBacked(pages, b.addr, b.End())
  }

  method FindKey(allocs: seq<Allocator>, key: Key) returns (i: nat)
    ensures i <= |allocs| && (i < |allocs| ==> allocs[i].key == key)
    ensures forall j :: 0 <= j < i ==> allocs[j].key != key
  {
    i := 0;
    while i < |allocs| && allocs[i].key != key
      invariant i <= |allocs| && forall j :: 0 <= j < i ==> allocs[j].key != key
    {
      i := i + 1;
    }
  }

  lemma NothingToSync(allocs: seq<Allocator>, l: Ledger, home: map<int, Pair>)
    requires InOrder(allocs, l, home, {}) && !exists p :: p in l.pairs
    ensures forall a :: a !in l.events && !OnlyForEvents(allocs, l, a)
  {
    NoneWaits(allocs, l);
  }

  lemma NewAllocatorInOrder(allocs: seq<Allocator>, l: Ledger, home: map<int, Pair>, key: Key)
    requires InOrder(allocs, l, home, {})
    ensures InOrder(allocs + [Allocator(key, [], [])], l, home, {})
  {
    var r := allocs + [Allocator(key, [], [])];
    assert InUse([]) == {};
    TabledSame(allocs, l.table, r);
    assert r[..|r| - 1] == allocs;
    forall i, b | 0 <= i < |r| && b in InUse(r[i].bufs) && b.status == UsedByEvent ensures b.addr in l.events {
      assert b in InUse(allocs[i].bufs);
    }
  }

  /** Fewer pages are backed than before. */
  ghost predicate Fewer(was: PageMap, pages: PageMap) {
    pages.Keys == was.Keys && forall a :: a in pages && pages[a].Some? ==> was[a].Some?
  }

  lemma FewerBacked(was: PageMap, pages: PageMap, freed: set<int>)
    requires Ahead(was, pages, freed)
    ensures Fewer(was, pages)
    ensures forall addr, end :: BackedInside(was, addr, end) <= freed ==> BackedInside(pages, addr, end) == {}
    ensures forall addr, end :: BackedInside(was, addr, end) == {} ==> BackedInside(pages, addr, end) == {}
  {
    forall addr, end ensures BackedInside(pages, addr, end) == BackedInside(was, addr, end) - freed {}
  }

  ghost predicate Released(pages: PageMap, bufs: seq<Buf>) {
    forall k :: 0 <= k < |bufs| ==>
      bufs[k].status != Idle && (bufs[k].status == EagerFree ==> BackedInside(pages, bufs[k].addr, bufs[k].End()) == {})
  }

  lemma StaysReleased(was: PageMap, pages: PageMap, bufs: seq<Buf>)
    requires Fewer(was, pages) && Released(was, bufs)
    ensures Released(pages, bufs)
  {
    forall k | 0 <= k < |bufs| && bufs[k].status == EagerFree
      ensures BackedInside(pages, bufs[k].addr, bufs[k].End()) == {}
    {
      assert BackedInside(pages, bufs[k].addr, bufs[k].End()) <= BackedInside(was, bufs[k].addr, bufs[k].End());
    }
  }

  /** Free every idle buffer with the status eager-free. */
  method IdleToEager(bufs: seq<Buf>, blocks: seq<Range>) returns (r: seq<Buf>)
    requires Tiled(bufs, blocks) && Coalesced(bufs)
    ensures Tiled(r, blocks) && Coalesced(r)
    ensures InUse(r) == InUse(bufs) && UsedBytes(r) == UsedBytes(bufs)
    ensures forall k :: 0 <= k < |r| ==> r[k].status != Idle
  {
    r := bufs;
    while exists k :: 0 <= k < |r| && r[k].status == Idle
      invariant Tiled(r, blocks) && Coalesced(r)
      invariant InUse(r) == InUse(bufs) && UsedBytes(r) == UsedBytes(bufs)
      decreases SizeOf(r, Idle)
    {
      var k :| 0 <= k < |r| && r[k].status == Idle;
      SizeOfIsNat(r, Idle);
      ReleaseSparesInUse(r, k);
      ReleaseKeepsUsedBytes(r, k);
      FreeRetiles(r, blocks, k, EagerFree);
      FreeKeepsCoalesced(r, blocks, k, EagerFree);
      r := FreeAt(r, k, EagerFree);
    }
  }

  function Max(a: nat, b: nat): nat {
    if a < b then b else a
  }

  function Doubled(unit: nat, k: nat): nat {
    if k == 0 then unit else 2 * Doubled(unit, k - 1)
  }

  /** r is the first doubling of the unit that is not below the size. */
  ghost predicate IsFirstDoubling(unit: nat, size: nat, r: nat) {
    r >= size && exists k: nat :: r == Doubled(unit, k) && (k > 0 ==> Doubled(unit, k - 1) < size)
  }

  /** The unit is doubled until the size fits, but never beyond the free device memory. */
  method CalMemBlockAllocSize(size: nat, unit: nat, free: nat) returns (r: nat)
    requires unit > 0
    ensures r == 0 <==> free < size || free == 0
    ensures free >= size ==> exists d: nat :: IsFirstDoubling(unit, size, d) && r == if d < free then d else free
  {
    if free < size { return 0; }
    r := unit;
    ghost var k: nat := 0;
    while r < size
      invariant r == Doubled(unit, k) > 0 && (k > 0 ==> Doubled(unit, k - 1) < size)
      decreases size - r
    {
      r := r * 2;
      k := k + 1;
    }
    assert IsFirstDoubling(unit, size, r);
    if r > free { r := free; }
  }

  /** There is only one first doubling. */
  lemma FirstDoublingIsUnique(unit: nat, size: nat, r: nat, q: nat)
    requires unit > 0 && IsFirstDoubling(unit, size, r) && IsFirstDoubling(unit, size, q)
    ensures r == q
  {
    var k: nat :| r == Doubled(unit, k) && (k > 0 ==> Doubled(unit, k - 1) < size);
    var l: nat :| q == Doubled(unit, l) && (l > 0 ==> Doubled(unit, l - 1) < size);
    if k < l { DoublingGrows(unit, k, l - 1); }
    if l < k { DoublingGrows(unit, l, k - 1); }
  }

  lemma {:induction false} DoublingGrows(unit: nat, k: nat, l: nat)
    requires k <= l
    ensures Doubled(unit, k) <= Doubled(unit, l)
  {
    if k < l { DoublingGrows(unit, k, l - 1); }
  }

  lemma SplitKeepsMem(pages: PageMap, allocs: seq<Allocator>, i: nat, k: nat, size: int)
    requires Laid(pages, allocs) && Backs(pages, allocs) && i < |allocs| && k < |allocs[i].bufs|
    requires 0 < size <= allocs[i].bufs[k].size
    requires var b := allocs[i].bufs[k]; b.status == EagerFree ==> BytesBacked(pages, b.addr, Pieces(b, size)[0].End())
    ensures var r := WithBufs(allocs, i, SplitAt(allocs[i].bufs, k, size)); Laid(pages, r) && Backs(pages, r)
  {
    var a := allocs[i];
    assert Shaped(a) && AllBacked(pages, a.bufs) && BufBacked(pages, a.bufs[k]);
    SplitRetiles(a.bufs, a.blocks, k, size);
    SplitKeepsCoalesced(a.bufs, k, size);
    SplitStaysBacked(pages, a.bufs, k, size);
    WithBufsLaid(pages, allocs, i, SplitAt(a.bufs, k, size));
    WithBufsBacked(pages, allocs, i, SplitAt(a.bufs, k, size));
  }
}
