# Verification of queues, memory pool, random fill, indexes and message framing

A Dafny model of the intricate parts of this repository, with proofs. `dafny verify dfyconfig.toml` checks all of
it. Every file holds one module; the modules follow the program.

**Queues** (`FifoTrace`, `HQueue`, `HQueueSafety`, `HQueueTheorems`, `HQueueAnswers`, `HQueueSolo`,
`HQueueProgress`, `HQueueSequential`, `TwoLockQueue`, `TwoLockSafety`, `TwoLockCalls`). The lock-free array queue
and the two-lock queue are state machines: one step per atomic access, lock operation, malloc or free, any number of
threads, each with a program counter and its local variables. A run is a list of turns, and a trace records which
items were linked and unlinked. The central results say that in every run what entered is what left followed by what
is in the queue. For the lock-free queue this needs a guard when there are several enqueuers (no node is claimed
again while an enqueuer still holds it as the tail it read); with one enqueuer the guard always holds. A call that
no other thread disturbs answers like a bounded queue, and threads that stop in the middle of a call block nobody.
The class `BoundedQueue` is the same queue used by one thread, with its exact capacity. The atomics are sequentially
consistent and versions are unbounded.

**Memory** (`Buffers`, `MemBufAllocator`, `PartialFree`, `ContinuousAlloc`, `Vmm`, `PoolInvariant`, `Events`,
`PoolBooks`, `PoolCutting`, `PoolPartialFree`, `PoolContinuous`, `MemoryPool`). `Buffers` describes the neighbour
lists of an allocator as one sequence of buffers that tiles the blocks, and freeing, splitting and expanding as
functions on it. The class `MemBufAllocator` works on linked nodes and two ordered sets, and its methods are proved
to do what these functions say. `Vmm` is the adapter over physical handles of 2 MB together with the manager that
simulates the device. The class `MemoryPool` puts both together with the address table, the statistics of used
memory and the events. Its invariant `Valid` holds at the start and is kept by every operation, but for a continuous
allocation that loses slack: all used and idle memory is mapped (`InUseOrIdleIsMapped` spells this out for single
bytes), buffers with pending events are in use, and the used size is the sum over the table. `PartialFree` proves
that the two implementations of partial free reach the same tiling, `PoolPartialFree` what the newer one does to the
whole pool. `ContinuousAlloc` and `PoolContinuous` say exactly when a continuous allocation keeps the pool in order.

**Random numbers** (`Philox`, `PhiloxAnswers`, `RandomFill`, `ThreadPool`, `ThreadPoolProgress`, `ParallelFill`).
The generator is a class over 32-bit words; its abstract state gives meaning to discarding. Distributions are
uninterpreted functions of the words they draw. Dispatcher and workers are interleaved steps, and under a fair
scheduler the dispatcher returns. The end-to-end result: the parallel fill writes what one thread would write.

**Indexes** (`RobinHood`, `SkipList`). Classes over an array of entries, and over nodes with arrays of forward
pointers. A ghost map is the specification of both.

**Messages** (`Codes`, `Framing`, `FramingLayout`, `Iovecs`, `TcpSocket`, `Connection`, `Sending`, `Transport`,
`EventLoop`). A socket is a byte stream with a script that says what each call does, so that a statement about all
scripts is one about all ways to break the stream into pieces. The receiver is the resumable parser, the sender the
writer of buffer lists, and `Transported` joins them. `EventLoop` is the wake-up protocol of the queue of functions.

`Options`, `Integers` and `OrderedSets` are small helpers.

Four properties do not hold as one might expect, and the exact condition is proved instead: `skip` loses a carry for
some counts (`SkipIsSkips`), `discard` wraps around at 2^64 (`DiscardIsDrawing`), a continuous allocation loses the
slack of the alignment (`ContinuousKeepsTilingIff`), and a send that gives up after a part of a message was written
reports that nothing was sent, so that this message is never finished (`FlushesIff`, with a case in
`GivenUpInside`).

## Model

| member | source | states |
|---|---|---|
| `HQueueSafety.StepIsGood` | nice/include/hqueue.h:66-167 | Every atomic step of Enqueue, Dequeue and Empty that respects the guard keeps the invariant of the queue and changes the abstract queue by exactly the item it links or unlinks; no step leaves the node array. |
| `HQueueTheorems.RunIsFifo` | nice/include/hqueue.h:66-167 | In every guarded interleaving of any number of threads, what was in the queue plus what entered equals what left plus what is in it, in this order. |
| `HQueueTheorems.InitialRunIsFifo` | nice/include/hqueue.h:34-167 | From Init on, in every guarded interleaving: the items linked so far are the items unlinked so far followed by the items on the chain from the head, and no access is out of range. |
| `HQueueTheorems.OneEnqueuerIsGuarded` | nice/include/hqueue.h:66-118 | With a single enqueuing thread every interleaving satisfies the guard. |
| `HQueueTheorems.OneEnqueuerIsFifo` | nice/include/hqueue.h:34-167 | One enqueuer and any number of dequeuers: every interleaving is first-in first-out, without further assumption. |
| `HQueueTheorems.CallsReturnTheirEffects` | nice/include/hqueue.h:92-149 | Per thread, the calls that return true, or an item, are exactly the links and unlinks it made, in this order, but for one that is still on its way to the return. |
| `HQueueTheorems.DequeueTakesTheHead` | nice/include/hqueue.h:143-147 | The value a Dequeue takes is the first item of the abstract queue at its head CAS. |
| `HQueueTheorems.EmptyAnswerWasTrue` | nice/include/hqueue.h:128-166 | Dequeue answers null, and Empty true, only if the abstract queue was empty when `next` was read, whatever the other threads did in between. |
| `HQueueTheorems.HeadOnlyAdvances` | nice/include/hqueue.h:143-144 | In every run the head pointer keeps its index or its version has grown. |
| `HQueueTheorems.TailNotBehindHead` | nice/include/hqueue.h:95-149 | In every guarded run from Init, for the one chain the memory has: it starts at the head pointer, and the tail pointer names a node of it. |
| `HQueueTheorems.OneRolePerNode` | nice/include/hqueue.h:66-149 | In every guarded run from Init a node is free, or on the chain, or owned by exactly one thread that has claimed it or has to release it; never two of these. |
| `HQueueTheorems.ChainIsUnique` | nice/include/hqueue.h:168-174 | The memory determines the chain of nodes, so the abstract queue is a function of the memory. |
| `HQueueAnswers.RefusedOnlyIfAllWereBusy` | nice/include/hqueue.h:66-90 | In every run, guarded or not: if an Enqueue returns false, each of the nodes 1 to n-1 was taken at some moment between the start of this call and its return. |
| `HQueueAnswers.NotEmptyWasTrue` | nice/include/hqueue.h:153-166 | In every guarded run: if Empty returns false, the abstract queue held an item at some moment between the start of this call and its return. |
| `HQueueSolo.CallAtRest` | nice/include/hqueue.h:66-166 | After any guarded run that has come to rest, a call that no other thread disturbs returns, and answers like a first-in first-out queue with room for n-1 items before the first item was taken and n-2 after it: Enqueue is refused, Dequeue finds nothing and Empty is true exactly then. |
| `HQueueSolo.EnqueueTakes` | nice/include/hqueue.h:66-90 | An undisturbed Enqueue takes the first free node from free_index on, and leaves free_index behind it. |
| `HQueueProgress.ReturnsAlone` | nice/include/hqueue.h:66-166 | From every state of the invariant, wherever the other threads have stopped: a thread that goes on alone returns, if it keeps the guard. It swings the tail for an enqueuer that stopped before it did. |
| `HQueueProgress.StoppedThreadsBlockNobody` | nice/include/hqueue.h:92-166 | After any guarded run a thread that has claimed its node, dequeues, or asks for emptiness returns alone without any assumption. |
| `HQueueSequential.BoundedQueue.constructor` | nice/include/hqueue.h:34-57 | Init yields an empty queue whose dummy is node 0. |
| `HQueueSequential.BoundedQueue.Claim` | nice/include/hqueue.h:66-90 | The two scans take a free node other than node 0, and fail only if all other nodes are in the queue. |
| `HQueueSequential.BoundedQueue.Enqueue` | nice/include/hqueue.h:66-118 | Used by one thread: the item is appended exactly if fewer than n-1 items are in the queue before the first successful dequeue, or fewer than n-2 after it. |
| `HQueueSequential.BoundedQueue.Dequeue` | nice/include/hqueue.h:120-151 | Used by one thread: the first item is removed and returned; null is returned for an empty queue only. |
| `HQueueSequential.BoundedQueue.Empty` | nice/include/hqueue.h:153-166 | Used by one thread: true exactly for an empty queue. |
| `TwoLockSafety.StepIsGood` | libc/concurrent_queue.cc:39-91 | Every step of any thread keeps the invariant, dereferences no freed node and frees no node twice. |
| `TwoLockSafety.RunIsFifo` | libc/concurrent_queue.cc:39-91 | Every interleaving of any number of producers and consumers keeps the account: content plus entered equals left plus content. |
| `TwoLockSafety.InitialRunIsFifo` | libc/concurrent_queue.cc:6-91 | From concurrent_queue_init on, for every interleaving and every choice of addresses by malloc, including freed ones: first-in first-out, and no step touches a freed node. |
| `TwoLockSafety.LiveNodesAreAccountedFor` | libc/concurrent_queue.cc:39-91 | Every allocated node is on the chain or belongs to exactly one thread, so no node leaks. |
| `TwoLockSafety.EmptyAnswerWasTrue` | libc/concurrent_queue.cc:74-80 | try_dequeue reports an empty queue only if it was empty at the test. |
| `TwoLockSafety.CallsReturnTheirEffects` | libc/concurrent_queue.cc:39-91 | Per thread, completed calls are exactly its links and unlinks, in order. |
| `TwoLockCalls.OnlyTryAnswersEmpty` | libc/concurrent_queue.cc:53-91 | In every run the answer that there is no item is given only by try_dequeue. |
| `TwoLockCalls.OnlyDequeueWaits` | libc/concurrent_queue.cc:57-60 | In every run only dequeue waits on the condition. |
| `TwoLockCalls.TryAnswersAtOnce` | libc/concurrent_queue.cc:74-80 | A try_dequeue that tests an empty queue answers so with its next step, whatever the others do in between. |
| `TwoLockCalls.CallAtRest` | libc/concurrent_queue.cc:39-91 | After any run that has come to rest, an undisturbed enqueue appends its item, a dequeue or try_dequeue of a nonempty queue takes the first one; on an empty queue try_dequeue answers so, and dequeue waits without the lock. |
| `Buffers.AlignMemorySize` | memory/dynamic_memory_pool.h:156-161 | The aligned size is the least positive multiple of 512 that is not smaller. |
| `Buffers.OneOwner` | memory/abstract_dynamic_memory_pool.h:135-147 | In a tiling of disjoint blocks each address belongs to one buffer only. |
| `Buffers.FreeRetiles` | memory/abstract_dynamic_memory_pool.cc:119-170 | Freeing with both merges leaves every block tiled, and the merged buffer covers exactly what it replaces. |
| `Buffers.FreeKeepsCoalesced` | memory/abstract_dynamic_memory_pool.cc:119-176 | After a free no two neighbours are both idle or both eager-free. |
| `Buffers.SplitRetiles` | memory/abstract_dynamic_memory_pool.cc:264-307 | Splitting a buffer leaves its block tiled. |
| `Buffers.ExpandTiled` | memory/abstract_dynamic_memory_pool.cc:181-198 | A new block is tiled by its one buffer, and the other blocks stay as they are. |
| `Buffers.BestFitIsBest` | memory/abstract_dynamic_memory_pool.cc:92-104 | What lower_bound finds is the smallest buffer that is large enough, and the one with the lowest address among those. |
| `Buffers.ReleaseSparesInUse` | memory/abstract_dynamic_memory_pool.cc:201-208 | Turning an idle buffer into an eager-free one changes no buffer in use. |
| `Buffers.AllIdleIsOnePerBlock` | memory/abstract_dynamic_memory_pool.cc:112-179 | If everything has been freed without eager free, each block is one idle buffer. |
| `Buffers.CanonicalIsUnique` | memory/abstract_dynamic_memory_pool.cc:112-179 | A coalesced tiling is determined by its blocks and the buffers that are not idle. |
| `MemBufAllocator.DropPrev` | memory/abstract_dynamic_memory_pool.cc:121-128 | Unlinking the previous neighbour leaves the doubly linked list without it, both directions inverse. |
| `MemBufAllocator.DropNext` | memory/abstract_dynamic_memory_pool.cc:148-155 | Unlinking the next neighbour likewise. |
| `MemBufAllocator.LinkBehind` | memory/abstract_dynamic_memory_pool.cc:280-290 | Linking the remainder behind its buffer keeps both directions inverse. |
| `MemBufAllocator.Merge` | memory/abstract_dynamic_memory_pool.cc:119-170 | The two merges on linked nodes do what freeing does on the sequence of buffers, and the two nodes that drop out are exactly those merged. |
| `MemBufAllocator.LowerBound` | memory/abstract_dynamic_memory_pool.h:149-153 | The first element of an ordered set of buffers that does not precede the search key. |
| `MemBufAllocator.SplitMemBuf` | memory/abstract_dynamic_memory_pool.cc:278-301 | The linked split is the split of the sequence; the remainder is filed under its status. |
| `MemBufAllocator.MemBufAllocator.constructor` | memory/abstract_dynamic_memory_pool.h:273-286 | A new allocator satisfies the invariant of tiling, linking, filing and coalescing. |
| `MemBufAllocator.MemBufAllocator.Free` | memory/abstract_dynamic_memory_pool.cc:112-179 | With pending events only the status changes; otherwise the neighbour list and the ordered sets become those of the freed and merged buffer, and the invariant holds. |
| `MemBufAllocator.MemBufAllocator.MapAndSplitMemBuf` | memory/abstract_dynamic_memory_pool.cc:264-307 | The front is mapped exactly if the candidate is eager-free; only if the mapper refuses it the candidate is filed again and nothing else has changed, otherwise it is split and handed out. |
| `MemBufAllocator.MemBufAllocator.Malloc` | memory/abstract_dynamic_memory_pool.cc:86-110 | Hands out the best fit among the idle buffers, or else among the eager-free ones; fails exactly if none fits or the mapper refuses the best eager-free one. Without blocks it reserves one first, and keeps it as one free buffer if it is too small or the mapper refuses it. |
| `MemBufAllocator.MemBufAllocator.MallocExpandBlock` | memory/abstract_dynamic_memory_pool.cc:181-199 | A new block becomes one buffer, which is handed out in part, or filed exactly if it is too small or the mapper refuses it. |
| `MemBufAllocator.MemBufAllocator.FreeIdleMemsByEagerFree` | memory/abstract_dynamic_memory_pool.cc:201-217 | Afterwards nothing is idle, the buffers in use are the same, the size returned is the idle memory there was, and all lists and sets agree although the loop frees while it walks. |
| `ContinuousAlloc.CutContinuous` | memory/abstract_dynamic_memory_pool.cc:464-516 | The pieces have the sizes asked for, one behind the other; the correction of the last size never takes effect. |
| `ContinuousAlloc.CutTilesIff` | memory/abstract_dynamic_memory_pool.cc:485-507 | Two or more pieces leave the block tiled exactly if their sizes add up to the buffer's size. |
| `ContinuousAlloc.ContinuousKeepsTilingIff` | memory/abstract_dynamic_memory_pool.cc:467-507 | With aligned sizes: exactly if the sum of the sizes is a multiple of 512. |
| `ContinuousAlloc.SlackIsLost` | memory/abstract_dynamic_memory_pool.cc:485-507 | A request for 512 and 100 bytes, for which the tiling is lost. |
| `PartialFree.FreeThenCarve` | application/src/mem_dynamic_allocator.cpp:659-733 | Freeing the buffers and carving the kept ranges out of idle memory: afterwards all that is not idle is what was, without the freed buffers and with the kept ranges; eager-free buffers and those waiting for events are not touched. |
| `PartialFree.KeepIsIdle` | application/src/mem_dynamic_allocator.cpp:735-773 | The buffer that the lookup of a kept range finds is idle and contains the whole range. |
| `PartialFree.SplitThenFree` | memory/abstract_dynamic_memory_pool.cc:571-654 | Splitting the kept ranges off the buffers and then freeing the remainders: the same account. |
| `PartialFree.BothPoolsAgree` | memory/abstract_dynamic_memory_pool.cc:571-654 | Both algorithms end in the same tiling of every block, buffer by buffer. |
| `PartialFree.HalfwayGoesOn` | memory/abstract_dynamic_memory_pool.cc:589-645 | One round of the loop over the kept ranges keeps the account: what is not idle is the old buffers without the freed ones, the ranges kept so far, and remainders that cover the rest of the freed buffers. |
| `PoolCutting.CutKeepsSound` | memory/abstract_dynamic_memory_pool.cc:485-507 | A buffer in use may be cut into buffers in use: blocks stay tiled, memory mapped, the table exact and the used size the sum. |
| `PoolPartialFree.FreePart` | memory/abstract_dynamic_memory_pool.cc:571-654 | For all allocators of the pool together: in use afterwards is what was, without the freed buffers and with the kept ranges, and pool, table and used size stay in order. |
| `PoolContinuous.SlackLeavesGap` | memory/abstract_dynamic_memory_pool.cc:485-507 | Several pieces that do not use up the buffer leave a gap in the block of the pool. |
| `Vmm.RoundUp` | memory/ascend_vmm_adapter.cc:28-30 | The least multiple of 2 MB that is not smaller. |
| `Vmm.VmmManager.MallocVirtualAddress` | memory/ascend_vmm_adapter.h:90-96 | Reservations follow each other. |
| `Vmm.VmmManager.GetHandle` | memory/ascend_vmm_adapter.h:109-118 | Fails exactly if the handles there are fill the limit; otherwise a new handle. |
| `Vmm.VmmManager.Map` | memory/ascend_vmm_adapter.h:130-158 | Throws exactly under the three checks; otherwise the map and the handle agree. |
| `Vmm.VmmManager.Unmap` | memory/ascend_vmm_adapter.h:160-171 | Throws exactly if the address is not mapped or its handle says otherwise. |
| `Vmm.Conservation` | memory/ascend_vmm_adapter.cc:131-331 | Every handle is mapped at exactly one page or cached: the number of handles is that of mapped pages plus cached ones, and both maps have the same pages. |
| `Vmm.MapNeverThrows` | memory/ascend_vmm_adapter.h:130-152 | For a page that the adapter knows to be unmapped, no check of Map throws. |
| `Vmm.VmmAdapter.MoveBackMappedHandle` | memory/ascend_vmm_adapter.cc:100-123 | The roll-back restores the page map. |
| `Vmm.VmmAdapter.MmapDeviceMem` | memory/ascend_vmm_adapter.cc:131-252 | Maps exactly the missing pages of the range; succeeds, if no map call is refused, exactly if cached handles and those still to be had suffice; a failure inside the reserved pages restores the page map exactly. |
| `Vmm.VmmAdapter.AllocDeviceMem` | memory/ascend_vmm_adapter.cc:254-277 | Reserves whole unmapped pages above all others, or none. |
| `Vmm.VmmAdapter.EagerFreeDeviceMem` | memory/ascend_vmm_adapter.cc:279-331 | Unmaps only pages that lie completely inside the range, all of them if the range is reserved, and returns their size; their handles are cached. |
| `Vmm.MappedIsBacked` | memory/ascend_vmm_adapter.cc:156-251 | After a successful mapping every byte of the range is on a mapped page. |
| `Vmm.EagerFreeSparesOthers` | memory/ascend_vmm_adapter.cc:294-327 | An eager free leaves every range that does not meet it mapped. |
| `Vmm.BlockIsMappable` | memory/ascend_vmm_adapter.cc:142-168 | For a range inside a block the segment found is the page of its address, and all pages needed exist. |
| `PoolInvariant.FreeStaysBacked` | memory/abstract_dynamic_memory_pool.cc:112-179 | Merging on a free keeps all memory mapped that has to be. |
| `PoolInvariant.SplitStaysBacked` | memory/abstract_dynamic_memory_pool.cc:264-307 | So does a split, if the part handed out is mapped. |
| `PoolInvariant.EagerFreeKeepsBacks` | memory/abstract_dynamic_memory_pool.cc:211-214 | Unmapping an eager-free buffer unmaps nothing that a used or idle buffer of any allocator needs. |
| `PoolInvariant.ReserveKeepsBacks` | memory/abstract_dynamic_memory_pool.cc:309-322 | A new block keeps clear of all blocks of all allocators. |
| `PoolInvariant.NewIsNotTabled` | memory/abstract_dynamic_memory_pool.cc:417-418 | A buffer just handed out has no entry in the address table, so emplace takes effect. |
| `PoolInvariant.FreeKeepsBooks` | memory/abstract_dynamic_memory_pool.cc:532-535 | Freeing a buffer, removing its table entry and subtracting its size keeps table, sizes and mapping in order. |
| `Events.WaitEvent` | memory/dynamic_memory_pool.cc:96-115 | Drops exactly the events up to the id, for ids below 2^32 recorded in nondecreasing order, and an empty list with its stream. |
| `Events.AfterIsLater` | memory/dynamic_memory_pool.cc:96-115 | What stays are the tasks after the id, each as often as it was recorded. |
| `Events.RecordKeepsOrder` | memory/dynamic_memory_pool.cc:78-94 | A task that is not below the recorded ones goes to the end of its list, and the list stays in order. |
| `PoolBooks.PendingIsInUse` | memory/abstract_dynamic_memory_pool.cc:112-117 | A buffer with pending events is in use: no idle or eager-free buffer contains its address. |
| `PoolBooks.DoFreeTensorMem` | memory/abstract_dynamic_memory_pool.cc:525-542 | Frees exactly if the address is listed and has no events; table, used size and buffers change together, or the buffer is only marked. |
| `PoolBooks.SyncAll` | memory/abstract_dynamic_memory_pool.cc:801-820 | Afterwards there are no events, and exactly the buffers that were only waiting for them have left the table. |
| `MemoryPool.FrontIsMappable` | memory/abstract_dynamic_memory_pool.cc:266-276 | The pages that mapping the front of a buffer needs exist. |
| `MemoryPool.MemoryPool.MapFront` | memory/abstract_dynamic_memory_pool.cc:698-701 | A mapping that succeeds backs all bytes asked for; one that fails leaves the page map as it was. Unless the device refuses, it succeeds exactly if there are handles for the missing pages. |
| `MemoryPool.MemoryPool.MapAndSplit` | memory/abstract_dynamic_memory_pool.cc:264-307 | The pool keeps all used and idle memory mapped, whether mapping succeeds or not. |
| `MemoryPool.MemoryPool.ExpandBlock` | memory/abstract_dynamic_memory_pool.cc:658-691 | A new block is reserved with the rounded size, or nothing changes. |
| `MemoryPool.MemoryPool.MallocExpandBlock` | memory/abstract_dynamic_memory_pool.cc:181-199 | A block of the size that the pool asks for is reserved, unless the device is short of memory or refuses; the front of it is handed out, or the block stays as one unmapped buffer. |
| `MemoryPool.MemoryPool.UnmapReleased` | memory/abstract_dynamic_memory_pool.cc:209-214 | After the second loop no page that lies completely inside an eager-free buffer is mapped. |
| `MemoryPool.MemoryPool.FreeIdleMemsByEagerFree` | memory/abstract_dynamic_memory_pool.cc:998-1022 | Over all allocators: nothing is idle, no page inside an eager-free buffer is mapped, and the buffers in use are untouched. |
| `MemoryPool.MemoryPool.GetMemBufAllocator` | memory/abstract_dynamic_memory_pool.cc:544-559 | The allocator of the key, made if there is none. |
| `MemoryPool.MemoryPool.Malloc` | memory/abstract_dynamic_memory_pool.cc:86-110 | If an idle buffer fits, the best one is cut and nothing else changes. Otherwise one more buffer is in use, between the size and 511 bytes more, or the same buffers are, and at most an unmapped block has been added. |
| `MemoryPool.MemoryPool.AllocWithoutSync` | memory/abstract_dynamic_memory_pool.cc:421-447 | The three attempts without events: a fitting idle buffer is taken at once; if all fail, no allocator has idle memory, no page inside free memory is mapped, and one more block is there unless the device is short or has refused. |
| `MemoryPool.MemoryPool.AllocMemBuf` | memory/abstract_dynamic_memory_pool.cc:421-462 | Gives one more buffer in use, of the size or up to 511 bytes more. It gives none only if no idle buffer fits even after all events, and a block was added unless the device is short or has refused; nothing leaves the table but buffers that only waited for their events. |
| `MemoryPool.MemoryPool.AllocTensorMem` | memory/abstract_dynamic_memory_pool.cc:407-419 | The memory handed out comes from the allocator of the key (best idle fit if there is one, and then nothing else changes). It is listed for this allocator, has no events, is new unless a waiting buffer was released, has the aligned size and is mapped to its last byte; all allocators otherwise have in use what they had, apart from buffers that only waited. It fails only if the allocator of the key had and has no fitting idle buffer and got one more block, unless the device is short of memory or refused. Used size and its running maximum are kept. |
| `MemoryPool.MemoryPool.FreeTensorMem` | memory/abstract_dynamic_memory_pool.cc:519-542 | Frees exactly if the address is listed and has no events; the used size falls by the buffer's size, the other buffers in use and the other entries stay. |
| `MemoryPool.MemoryPool.FreePartTensorMems` | memory/abstract_dynamic_memory_pool.cc:563-654 | The account of FreePart for the pool, which stays valid; events are not touched. |
| `MemoryPool.MemoryPool.AllocContinuousTensorMem` | memory/abstract_dynamic_memory_pool.cc:464-516 | One buffer for the sum of the sizes is allocated for the key (not persistent, stream), or none, as AllocTensorMem says. In its place come the pieces, one behind the other, each listed for the same allocator, and nothing else changes. The pool stays valid exactly if the pieces use the buffer up; if there are several and the sum is no multiple of 512, they do not. |
| `MemoryPool.MemoryPool.SyncAllEvents` | memory/abstract_dynamic_memory_pool.cc:795-820 | True exactly if a pair of streams has been recorded; the buffers that only waited are freed and no others. |
| `MemoryPool.MemoryPool.RecordEvent` | memory/abstract_dynamic_memory_pool.cc:712-734 | Each listed address that the table knows gets the task at the end of the user stream's list, once for each time it is listed, and is listed under the pair of streams; no other event or list changes, and the lists stay in order if the task is not below a recorded one. |
| `PoolBooks.RecordedOneMore` | memory/abstract_dynamic_memory_pool.cc:718-734 | One entry of the call more: events and lists are exactly those of the entries so far. |
| `PoolBooks.RecordingKeepsOrder` | memory/dynamic_memory_pool.cc:78-94 | Recording a task that is not below any recorded one keeps all lists of the pool in order, as WaitEvent needs them. |
| `PoolBooks.WaitingKeepsOrder` | memory/dynamic_memory_pool.cc:96-115 | Waiting keeps them in order as well. |
| `MemoryPool.MemoryPool.WaitEvent` | memory/abstract_dynamic_memory_pool.cc:736-764 | Exactly the buffers of the pair are waited for: a buffer stays waiting exactly with later events, is freed if it was only waiting, and all others are untouched. Lists in order stay in order. |
| `MemoryPool.MemoryPool.WaitEventOfMemory` | memory/abstract_dynamic_memory_pool.cc:766-793 | The same for all pairs of the memory stream. |
| `MemoryPool.CalMemBlockAllocSize` | memory/abstract_dynamic_memory_pool.cc:822-856 | 0 exactly if the device has too little memory; otherwise the unit, doubled until it is not below the size, and at most the free memory. |
| `MemoryPool.FirstDoublingIsUnique` | memory/abstract_dynamic_memory_pool.cc:841-851 | There is only one such doubling of the unit. |
| `Philox.XorCancels` | testing/random.h:198-200 | Exclusive or with the same word twice is the identity. |
| `Philox.MulUndone` | testing/random.h:192-196 | The two odd multipliers have inverses modulo 2^32. |
| `Philox.RoundIsBijective` | testing/random.h:191-202 | One round has an inverse, for every key. |
| `Philox.RoundsAreInjective` | testing/random.h:210-236 | Different counters give different blocks, for every key and number of rounds. |
| `Philox.SkipOneCounts` | testing/random.h:239-247 | skip_one adds one to the 128-bit counter. |
| `Philox.SkipIsSkips` | testing/random.h:250-263 | skip(count) is count increments exactly if the high word is not full while the low word overflows; there it loses a carry. |
| `Philox.SkipQuarter` | testing/random.h:250-263 | Below 2^62, which is all discard uses, skip is exact. |
| `Philox.BlocksDiffer` | testing/random.h:210-236 | No block repeats within 2^128 steps. |
| `Philox.SameOutputs` | testing/random.h:144-150 | States that differ only in words already taken produce the same words for ever. |
| `Philox.DiscardIsDrawing` | testing/random.h:152-177 | Every later word after discard(n) is the word after n calls of the generator, exactly if index plus n does not reach 2^64 inside a block. |
| `Philox.WrappedDiffers` | testing/random.h:152-177 | If it does, one of the next eight words differs. |
| `Philox.LargestStepGoesBack` | testing/random.h:152-177 | A case in which it does: after one call, discard(2^64 - 1) leads back to the word of that call. |
| `Philox.Philox.constructor` | testing/random.h:132-135 | The seeded state. |
| `Philox.Philox.Next` | testing/random.h:210-236 | The ten rounds of the counter, which is then increased. |
| `PhiloxAnswers.KeyOfRound` | testing/random.h:204-207 | The key of round n is the first key plus n times the two step constants, each word modulo 2^32. |
| `PhiloxAnswers.RoundUsesKey` | testing/random.h:191-236 | Round n is computed with this key. |
| `PhiloxAnswers.ZeroBlock` | testing/random.h:191-236 | The published answer for counter 0 and key 0. |
| `PhiloxAnswers.SeedAnswer` | testing/random.h:132-236 | The words 4 to 7 that a generator with the seed 0x299F31D0A4093822 yields. |
| `Philox.Philox.Call` | testing/random.h:144-150 | The next word of the stream. |
| `Philox.Philox.Jump` | testing/random.h:152-177 | discard in place is the discard of the state. |
| `RandomFill.ProducesAfterDiscard` | testing/random.h:58-59 | A generator that has discarded n words produces the stream from its n-th word on. |
| `RandomFill.OneWordCycles` | testing/random.h:270-290 | A distribution that draws one word per value, as the uniform and the truncated normal one do, is as new after every four values. |
| `RandomFill.OneWordValue` | testing/random.h:270-290 | Its value at a position comes from the word at this position. |
| `RandomFill.PairedCycles` | testing/random.h:296-319 | So is the paired Box-Muller distribution, which draws two words for every second value. |
| `RandomFill.PairedValues` | testing/random.h:296-319 | Two values come from two words, first the one and then the kept one. |
| `RandomFill.FillContinues` | testing/random.h:54-64 | For such a distribution, the values from position 4k on are those of a fresh object that starts with word 4k. |
| `RandomFill.GenerateRandoms` | testing/random.h:54-64 | The part of the buffer holds the values for the stream of the seed from the skipped position on, and nothing else is written. |
| `RandomFill.ComputeTaskNumSize` | testing/random.h:67-81 | The batches cover the total, none is superfluous, there are no more than threads, and several batches have a size that is a multiple of 4. |
| `RandomFill.LargeFillIsShared` | testing/random.h:67-81 | With two threads or more, more than 1024 values are shared. |
| `ParallelFill.PrepareTasks` | testing/random.h:111-122 | Offset, skip and size of every part. |
| `ParallelFill.JobsDoNotOverlap` | testing/random.h:112-122 | The parts lie in the buffer and are disjoint. |
| `ParallelFill.ParallelIsSequential` | testing/random.h:86-125 | For every seed, size, thread count and interleaving, whether there is one part or several: when the fill returns the buffer is what one thread would have written. |
| `ParallelFill.RunPart` | testing/random.h:101-122 | The function of a task calls GenerateRandoms, and writes the values of its job and nothing else. |
| `ThreadPool.StepsKeepInv` | testing/thread_pool.cc:29-188 | Every interleaving of dispatcher and workers keeps the invariant. |
| `ThreadPool.ReturnedMeansDone` | testing/thread_pool.cc:165-196 | SyncRun returns only when every task has run exactly once and all its writes are in the buffer. |
| `ThreadPool.NoTaskIsShared` | testing/thread_pool.cc:177-183 | No task is ever in two slots, and none runs twice. |
| `ThreadPool.SleeperIsNotified` | testing/thread_pool.cc:41-44 | A sleeping worker that has been given a task is about to be notified, and wakes with the dispatcher's next step. |
| `ThreadPool.DispatcherIsNotStuck` | testing/thread_pool.cc:171-188 | The dispatcher has returned, or can step, or waits for a mutex that the worker gives up with its next step. |
| `ThreadPoolProgress.FairRunReturns` | testing/thread_pool.cc:29-188 | From every state a run can reach: under every scheduler that gives the dispatcher and each worker a turn in every round, SyncRun has returned after a number of rounds that the state determines, each task has run once and its writes are in place. |
| `ThreadPoolProgress.LooksBeforeItWaits` | testing/thread_pool.cc:36-48 | Without a task a worker looks 1001 times before it goes to wait. |
| `ThreadPool.SomeContext` | testing/thread_pool.cc:141-156 | With at least one thread allowed there is a worker. |
| `RobinHood.HomeIsRemainder` | libc/map.h:142 | The home slot is the hash modulo the capacity. |
| `RobinHood.SearchIsOver` | libc/map.h:89-103 | At an empty slot, or one that stores less than the distance walked, the key is nowhere in the table, although stored distances may be too large. |
| `RobinHood.PutKeepsTable` | libc/map.h:59-81 | Writing an entry into an empty slot or over one with a smaller distance keeps the invariant: stored distances are at least the true ones and below the capacity, and the way of every key is full. |
| `RobinHood.DisplacedIsPaved` | libc/map.h:73-76 | The way of the displaced entry stays full with the distances it needs. |
| `RobinHood.SizeIsFullCount` | libc/map.h:43 | size is the number of occupied slots and of keys. |
| `RobinHood.Create` | libc/map.h:28-33 | Capacity 0 is refused; otherwise an empty map. |
| `RobinHood.RobinHoodHashMap.Find` | libc/map.h:85-104 | Finds exactly what the map holds. |
| `RobinHood.RobinHoodHashMap.Place` | libc/map.h:54-82 | With an empty slot, the loop ends and the map has the new value for the key and the old ones for the others. |
| `RobinHood.RobinHoodHashMap.ResizeTable` | libc/map.h:151-173 | A larger table holds the same map, for every new capacity; the inserts of the migration resize again exactly if three quarters of the new table are full before the last one. A capacity that is not larger changes nothing. |
| `RobinHood.RobinHoodHashMap.Insert` | libc/map.h:49-82 | The map is updated; the table doubles exactly if three quarters are full. |
| `SkipList.SkipList.constructor` | application/src/skiplist.h:407-416 | An empty list with all levels linked. |
| `SkipList.SkipList.SearchElement` | application/src/skiplist.h:381-403 | Returns a node exactly if the key is in the map, and then the node of the key with the map's value. |
| `SkipList.SkipList.InsertElement` | application/src/skiplist.h:149-224 | For every choice of the level, cut off at the maximum: an existing key changes nothing; otherwise the list gains exactly one node with this key, value and level, the map gains the entry, and in every level the links again list the nodes that take part, in order. |
| `SkipList.SkipList.FindPath` | application/src/skiplist.h:153-164 | In every level the walk stops at the last node before the key. |
| `SkipList.NextsInserted` | application/src/skiplist.h:190-202 | In a level of the new node only the link of the node behind which it comes changes. |
| `SkipList.NextsRemoved` | application/src/skiplist.h:337-342 | A removal takes back exactly these links. |
| `SkipList.SkipList.DeleteElement` | application/src/skiplist.h:320-359 | If the key is not the greatest: the list loses exactly the node of the key, the map the entry, all levels stay linked, and no empty level is left on top. |
| `SkipList.SkipList.CutNode` | application/src/skiplist.h:337-342 | The loop that stops at the first level that does not lead to the node cuts every level the node is in. |
| `SkipList.SkipList.LowerLevel` | application/src/skiplist.h:345-347 | Only empty levels are given up, and all of them. |
| `SkipList.SkipList.LevelNodes` | application/src/skiplist.h:231-239 | The links of level i list exactly the nodes whose level is at least i. |
| `SkipList.LevelsAreNested` | application/src/skiplist.h:129-147 | Each level is the part of the level below that takes part in it. |
| `SkipList.LevelsAreSorted` | application/src/skiplist.h:129-147 | Each level is strictly sorted and complete. |
| `Framing.NumBe32` | net/src/connection.cc:637-642 | ntohl undoes htonl, on the low 32 bits. |
| `FramingLayout.ByteOrder` | net/include/constants.h:122-128 | Of two numbers below 2^32 the smaller one has the earlier bytes, compared from the first byte on. |
| `FramingLayout.KnownBytes` | net/include/constants.h:122-128 | The bytes of 1 and of 0x01020304. |
| `FramingLayout.Layout` | net/include/constants.h:98-128 | Where the magic, the four lengths and the four strings stand in a frame. |
| `FramingLayout.MessageLayout` | net/src/connection.cc:388-426 | What is sent of a message: its name from byte 20, then receiver and sender as name@url, then the body. |
| `Framing.FrameIsRead` | net/src/connection.cc:559-614 | A frame is read back exactly if its lengths keep the limits and one of the two addresses contains a separator. |
| `Framing.TooLongIsRefused` | net/src/connection.cc:454-463 | A header is refused exactly if a length, modulo 2^32, is above its limit. |
| `Framing.PartIsMore` | net/src/connection.cc:566-591 | No proper prefix of a frame is taken for a message. |
| `Framing.ReadIsFrame` | net/src/connection.cc:559-614 | The bytes that make a message are exactly its frame. |
| `Framing.OneWayToRead` | net/src/connection.cc:559-614 | A stream of frames can be cut into messages in one way only. |
| `Framing.AidIsRead` | net/include/aid.h:38-63 | An address survives the way through its string exactly if its name contains no separator. |
| `Framing.AddressIsKept` | net/src/connection.cc:619-635 | An address string is kept by taking it apart exactly if it contains a separator. |
| `Framing.SentIsAddressed` | net/src/connection.cc:396-410 | What a sender puts on the wire always has a separator, and the message is restored exactly if the two names have none. |
| `Iovecs.CutDrops` | net/src/tcp_socket_operation.cc:81-96 | A list cut at a buffer stands for the bytes that are left. |
| `Iovecs.MsgHdr.AdvanceReceived` | net/src/tcp_socket_operation.cc:81-97 | After a partial receive the list stands for exactly the bytes that have not come. |
| `Iovecs.MsgHdr.AdvanceSent` | net/src/tcp_socket_operation.cc:158-170 | After a partial send the list stands for exactly the bytes that have not been sent. |
| `TcpSocket.Receive` | net/src/tcp_socket_operation.cc:29-62 | The buffer gets the next bytes of the stream, and reading stops before it is full only if the socket gives no more; an error is reported only for a connection that has ended. |
| `TcpSocket.ReceiveMessage` | net/src/tcp_socket_operation.cc:64-115 | The buffers are filled in order with the next bytes of the stream until all are full or the socket gives no more, and the list is left at the first byte that has not come. |
| `Connection.Receiver.FillRecvMessage` | net/src/connection.cc:454-509 | Refuses lengths above the limits; otherwise there is room for the four strings, in the order of the wire. |
| `Connection.Receiver.SetUrlForRecvMessage` | net/src/connection.cc:619-635 | Refused exactly if neither address contains a separator. |
| `Connection.Receiver.ParseMessage` | net/src/connection.cc:559-617 | From every state between two bytes: a message is delivered exactly when its last byte has been taken, no byte of the next one is taken, and it stops without a message only when the socket gives no more or the message is refused. The connection is given up only for a broken socket or a message that is refused. |
| `Connection.Receiver.ReadCallBack` | net/src/tcp_comm.cc:245-260 | Up to three messages in the order of the stream; fewer only if the socket gives no more or a message is refused. |
| `Connection.Receiver.DeliveredInOrder` | net/src/connection.cc:559-617 | Whatever the fragmentation, what has been delivered of a stream of frames is its first messages, and all of them once all bytes have been read. |
| `Sending.SendOnce` | net/src/tcp_socket_operation.cc:129-170 | One call of sendmsg, with the list moved on by what it took; what becomes of the whole send does not change. |
| `Sending.SendMessage` | net/src/tcp_socket_operation.cc:117-175 | What is on the wire is always a prefix of the buffers' bytes, each once and in order; what is reported, how much is left and which answers are used up is what `Sends` says of the script. Success is reported exactly if all is sent. |
| `Sending.GivenUpIsStalled` | net/src/tcp_socket_operation.cc:131-147 | SendMessage gives up only when the last 1024000 answers were EAGAIN. |
| `Sending.Sender.FillSendMessage` | net/src/connection.cc:388-426 | The five buffers stand for the frame of the message. |
| `Sending.Sender.Flush` | net/src/connection.cc:511-552 | Bytes are neither lost nor doubled; the current message, or the first of the queue, is finished, or the connection is lost, exactly as `Flushes` says of the script; afterwards no message is under way on a live connection. |
| `Sending.FlushesIff` | net/src/connection.cc:511-552 | A message is finished exactly if some first answers of the script take all its bytes, without an error and without 1024000 EAGAIN in a row after its first byte and before its last. |
| `Sending.GivenUpInside` | net/src/connection.cc:537-541 | A case in which it is not: one byte is taken, then 1024000 times EAGAIN. The message is not finished whatever follows, even when all its bytes go out. |
| `Sending.FinishesOrSpins` | net/src/connection.cc:511-552 | Without an error Flush finishes the message or uses up every script, however long, while all bytes go out for which there is room. |
| `Transport.Transported` | net/src/connection.cc:388-617 | From sender to receiver: at every moment the receiver has handed out the first messages given to the sender, at the end all of them; each one unchanged exactly if the two names contain no separator. |
| `EventLoop.RunKeepsInv` | net/src/event_loop.cc:97-154 | Every interleaving keeps it that a nonempty queue has exactly one wake-up on its way and an empty one has none. |
| `EventLoop.NoWakeupIsLost` | net/src/event_loop.cc:97-154 | The queue is nonempty exactly if the descriptor is readable, or a thread is about to write it, or the callback is between read and swap; the counter is never above 1. |
| `EventLoop.TasksRunInOrder` | net/src/event_loop.cc:97-154 | The functions that have been run are the first ones added, each once. |
| `EventLoop.SleepingMeansDone` | net/src/event_loop.cc:57-154 | If the loop blocks and no thread is inside AddTask, all added functions have been run. |
| `EventLoop.BatchIsRun` | net/src/event_loop.cc:121-154 | As many turns of the loop as there are functions in the batch, and one more, run them all in order, whatever other threads do in between. |
| `EventLoop.WakeUpTakesQueue` | net/src/event_loop.cc:97-140 | Three turns after a wake-up the loop has taken at least all functions that were in the queue. |

## Left out

- HQueueTheorems.RunIsFifo: assumes the guard on claims. `Enqueue` resets the version of `next` to 0, so that without the guard a stale link can succeed on a node that has been used again.
- HQueue and TwoLockQueue: versions and counters are unbounded integers, and atomics are sequentially consistent. Progress is stated for one thread at a time (`ReturnsAlone`); a dequeue of the two-lock queue may wait for ever, since its signal is given without the head lock.
- TwoLockSafety.InitialRunIsFifo: malloc always succeeds. `concurrent_queue_destroy` is not modelled.
- SkipList.SkipList.DeleteElement: requires that the key is not the greatest, because the code then follows a null pointer to set `prev`. The `prev` pointers, the dump and load of files and the quality of the random level are not modelled; keys are integers.
- RobinHood: `erase` is not modelled. Distances and sizes are unbounded, and the comparison of the load factor with 0.75 is exact.
- MemoryPool.MemoryPool.AllocTensorMem: only the pool with virtual memory enabled, so the attempt with the other allocator of a pool without it is left out, as are the tiny allocator and a failure of SyncAllStreams.
- MemoryPool: the pool's allocators are sequences of buffers. The linked nodes and ordered sets behind them are proved in `MemBufAllocator`, so aliasing of nodes between the pool's own lists is not captured.
- PoolBooks.RecordAll: each buffer is recorded under one pair of streams. With several pairs `WaitEvent` removes a buffer that stays in use only from the pair waited on.
- Events.WaitEvent: exact for ids from 0 up to 2^32 recorded in nondecreasing order; the parameter has 32 bits.
- PoolBooks.SyncAll: the lists of the pairs are cleared at the end of the loop in the code, while here they are emptied one by one.
- MemoryPool: `eager_free_size_`, `used_by_event_size_` and `alloc_size_` are not kept as sums by the code and are not modelled; neither are defragmentation, dumps, release of the device and destructors.
- Vmm.VmmAdapter.MmapDeviceMem: reserving and mapping may fail at any call, unmapping succeeds. Reservations start at a positive address, because the code cannot tell address 0 from a segment that was not found. A failure outside the reserved pages does not roll back, as in the code.
- PartialFree.BothPoolsAgree: the freed buffers have no events; ranges to keep are nonempty, disjoint and each inside one freed buffer. The address table and the statistics of the older pool are left out.
- ContinuousAlloc.CutContinuous: an empty list of sizes, and sizes of zero, are errors of the caller.
- ParallelFill.ParallelIsSequential: values of the distributions are uninterpreted, the seed 0 that asks the random device is left out.
- Philox.Philox.Next: the ten rounds, written out in the code, are a loop here.
- ThreadPool.ReturnedMeansDone: functions return normally; that SyncRun returns is stated for schedulers that wake no worker without a notification (`FairRunReturns`); and the end of the pool (`exit_run_`), affinities and runs of a single function are left out.
- Connection.Receiver.ParseMessage: the body is received into memory of the connection, not of an allocation callback. HTTP, SSL, the metrics and the reconnecting client are left out.
- Connection.Receiver.SetUrlForRecvMessage: the address keeps the text of its parts; a normalisation of the URL in the address class is not part of this model.
- Sending.Sender.Flush: a run is a finite script, after which the socket fails, so that a Flush that never ends shows as one that loses the connection at the end of every script (`FinishesOrSpins`): in the code the rest of the bytes goes out, then sendmsg takes nothing from an empty list for ever. The bytes it returns as sent and the callbacks that free messages are left out.
- EventLoop.NoWakeupIsLost: writing to the descriptor does not fail, and tables of socket events are left out.
- The other allocators of the repository, timers, benchmarks and build files are left out: they are weaker forms of what is here, or would only add easy members.
