# RT-Thread kernel and image tools: verified models

This project models the parts of the RT-Thread kernel in which many functions share
one invariant, and two host-side tools that ship with it, and proves properties of
the models with Dafny. `dafny verify dfyconfig.toml` checks everything.

The kernel's own shape is kept: an object whose functions update its fields is a
class with those fields, an in-place structure is rewritten in place, a loop is a
loop. Where a property spans many operations the class is tied to a value
(`View()`, a ring of blocks, a run list) and the property is proved about that
value.

| module | what it models |
|---|---|
| `PriorityInheritance`, `PriorityChains`, `EffectivePriority`, `PriorityQueueOrder`, `StepOrder`, `MutexOutcomes`, `DetachSections`, `SuspendAssertion`, `MutexKernel`, `DeadlockRun`, `AssertionRun` | mutexes with nested priority inheritance (`rt-thread/src/ipc.c`, `thread.c`): the recursive priority update, take, release, dropping a thread, and what the invariant means along wait chains and over whole runs; queue order over whole runs; detaching as two lock sections; when an assertion fails; short runs |
| `BlockRing`, `SmallMemHeaders`, `SmallMem` | the small-memory heap (`mem.c`), with block headers and data in one array |
| `BlockRing`, `IntrusiveList`, `MemHeap` | the memory heap (`memheap.c`): address ring and free list kept in step |
| `SlabPages`, `SlabZones`, `SlabStore`, `Slab` | the slab allocator (`slab.c`): page runs, size classes, zones, page usage table |
| `TimerRows`, `Timers` | hard timers in a skip list with a wrapping tick (`timer.c`) |
| `MessageChains`, `MessageQueue` | message queues, as interleaved steps of senders and receivers (`ipc.c`) |
| `EventFlags` | event objects (`ipc.c`) |
| `CpusLock` | the lock shared by all CPUs and the lock counters handed over by a context switch (`cpu.c`, `scheduler.c`) |
| `ReadyQueues`, `SchedulingRules` | ready lists, bitmaps and the choice of the next thread on several CPUs (`scheduler.c`, `thread.c`) |
| `StackUsage` | worst-case stack usage by depth-first search (`rt-thread/tools/WCS.py`) |
| `PackImage` | packing and unpacking image files (`nuwriter_scripts/`) |
| `RawMemory` | bytes copied by the two larger heaps |
| `Base` | options, lists without repetition, positions |

## Reading the model

- Objects that the kernel links by pointers are numbered: threads, mutexes, queue
  nodes and timers by an index, blocks and zones by an address or page number.
- Code between disabling and enabling interrupts is one step. Steps of different
  threads or CPUs interleave in any order; what one step promises is therefore
  stated without assuming what happened since the previous one.
- Sizes and addresses are unbounded numbers. Where the code relies on 32-bit
  wrap-around it is written out (tick comparison, the empty bitmap); otherwise
  requests are bounded so that rounding up does not wrap.
- `RT_ALIGN_SIZE` is 32, `RT_THREAD_PRIORITY_MAX` is 32, pages are 4096 bytes, as
  configured in `rtconfig.h` and `rt-thread/include/rtdef.h`.
- `RT_ASSERT` is empty, as in a build without `RT_DEBUG`. The shipped configuration
  has assertions on (`rtconfig.h:32`); there a run ends where one fails. Two of them
  matter below: the one about suspending another thread and the one about event
  options.

## What the code does differently from what it says

- Re-queueing a suspended mutex owner calls `rt_thread_suspend`, which asserts that a
  thread suspends only itself (`rt-thread/src/thread.c:883`). In the shipped
  configuration a blocking take therefore stops the system exactly if the owner of
  the mutex sleeps on another mutex and is less urgent than the caller, and detaching
  a waiter exactly if the owner sleeps on a mutex and owes its priority to that waiter
  alone (`SuspendAssertion.TakeAssertion`, `SuspendAssertion.DropAssertion`,
  `AssertionRun.NestedWaitTrips`). Without assertions the early return for a thread
  that is already suspended (`rt-thread/src/thread.c:887-892`) gives the meaning
  intended, which the model follows.
- `rt_thread_detach` takes a waiter off the queue of a mutex in one lock section and
  looks at the owner of the mutex in another. If the owner releases the mutex in
  between and nobody else waits, the second section reads the owner of a free mutex;
  any other release in between is harmless (`DetachSections.ReleaseBetween`,
  `AssertionRun.OwnerGone`).
- Priority inheritance is sure to undo a boost only for a thread that is not on a
  wait-for cycle, or has a thread of priority 0 behind it, and for each such thread
  whatever deadlocks there are elsewhere (`EffectivePriority.EffectiveExactly`,
  `PriorityChains.RunEffective`). Two threads in a deadlock keep each other at the
  priority of a third one after that one is gone (`DeadlockRun.StaleInDeadlock`, a run
  from the initial state).
- `rt_memheap_alloc` asks for strictly less than the free byte count, so a request
  for every free byte is refused although a block would fit
  (`MemHeap.RefusesLastBlock`; `MemHeap.ExactFitRefused` says exactly when).
- `rt_memheap_alloc` turns a request of zero bytes into 12 bytes, which are not a
  multiple of the alignment; headers cut behind them are off the grid of 32 bytes
  (`MemHeap.ZeroBytesLeaveGrid`; `MemHeap.Heap.Alloc` says exactly when).
- `rt_smem_realloc` moves a block that shrinks by no more than a header and
  `MIN_SIZE` bytes, so making a block slightly smaller can fail
  (`SmallMem.ShrinkFails`; `SmallMem.SmallHeap.Resize` says exactly when).
- With assertions off, a thread that waits for an event with neither AND nor OR makes
  every later send stop at it with an error and leaves the threads behind it asleep
  (`EventFlags.InvalidWaiterBlocks`; `EventFlags.Event.Send` and
  `EventFlags.IncompleteScan` say exactly when).
- The slab allocator promises that power-of-two sized blocks are aligned to their
  size. Zones and large blocks begin at page boundaries only, so above a page a
  block is aligned exactly if the zone or run of pages it comes from is
  (`Slab.SlabHeap.Alloc`; `Slab.ChunkOutOfAlignment`, `Slab.LargeOutOfAlignment`).
- A timer overdue by half a turn of the counter is not taken for due, and a later one
  is put in front of it (`Timers.OverdueMissed`, `Timers.PutInFront`);
  `TimerRows.LaterExact` and `TimerRows.DueExact` give the exact window.

## Model

| member | source | states |
|---|---|---|
| PriorityInheritance.EnqueuePlace | rt-thread/src/ipc.c:136-162 | a waiter goes behind all waiters that are at least as urgent and in front of the rest |
| PriorityInheritance.EnqueueSorted | rt-thread/src/ipc.c:136-162 | queueing keeps the wait queue sorted by current priority |
| PriorityInheritance.MinTaken | rt-thread/src/ipc.c:730-746 | the result is the smaller of the start value and every taken mutex's priority, and is attained |
| PriorityInheritance.UpdatePriority | rt-thread/src/ipc.c:748-788 | started with one thread's priority out of date and the rest of the invariant intact, the recursive walk up the wait chain terminates, whatever the chain, and restores the invariant for every mutex and thread, boosting or de-boosting; links other than queue order stay |
| PriorityInheritance.SlackDrops | rt-thread/src/ipc.c:780-785 | each step of the walk uses up a bounded reserve of priority changes, also around a cycle |
| PriorityInheritance.RequeueMovesHole | rt-thread/src/ipc.c:755-785 | re-queueing one waiter repairs its thread and leaves at most the mutex owner out of date |
| PriorityInheritance.Take | rt-thread/src/ipc.c:1133-1225 | taking a free, owned or foreign mutex keeps: wait queues sorted, mutex priority equal to its first waiter's, thread priority equal to the minimum of its own and its mutexes' priorities |
| PriorityInheritance.SleepLeavesHole | rt-thread/src/ipc.c:1175-1204 | going to sleep on a mutex leaves the invariant broken only at the owner |
| PriorityInheritance.Release | rt-thread/src/ipc.c:1364-1434 | releasing, also with hand-off to the first waiter, keeps the invariant; only the owner may release |
| PriorityInheritance.HandOffKeeps | rt-thread/src/ipc.c:1388-1427 | passing the mutex to the next waiter keeps the invariant for giver, receiver and the remaining waiters |
| PriorityInheritance.GiveUpDeserves | rt-thread/src/ipc.c:1374-1384 | after giving up a mutex the owner is at the minimum of its own and its remaining mutexes' priorities |
| PriorityInheritance.Drop | rt-thread/src/ipc.c:897-936 | taking a waiter out of a queue lowers the mutex and its owner chain to what they still deserve |
| PriorityInheritance.Detach | rt-thread/src/thread.c:403-447 | detaching a thread, blocked or not, keeps the invariant |
| PriorityChains.Step | rt-thread/src/ipc.c:1105-1444 | every step of every thread keeps the invariant |
| PriorityChains.Run | rt-thread/src/ipc.c:1105-1444 | the invariant holds after every run of any length over any number of threads and mutexes |
| PriorityChains.InitialInv | rt-thread/src/ipc.c:820-844 | freshly initialised mutexes and threads satisfy the invariant |
| PriorityChains.ChainUrgency | rt-thread/src/ipc.c:713-788 | no thread on a wait chain is less urgent than a thread blocked anywhere behind it |
| PriorityChains.RunsAtEffectivePriority | rt-thread/src/ipc.c:730-788 | a thread that is not itself in a deadlock runs at exactly the most urgent own priority among the threads blocked behind it; one that holds nothing runs at its own |
| PriorityChains.CycleBehind | rt-thread/src/ipc.c:748-788 | a thread with a wait-for cycle behind it is on that cycle |
| PriorityChains.AcyclicIs | rt-thread/src/ipc.c:748-788 | the wait-for graph has a ranking exactly if no thread is on a cycle |
| EffectivePriority.JammedInv | rt-thread/src/ipc.c:748-788 | with the same ownership and waits, the threads of a cycle can all be at priority 0 and satisfy the invariant |
| EffectivePriority.EffectiveExactly | rt-thread/src/ipc.c:730-788 | a thread is at its effective priority in every sound state with these waits and own priorities exactly if it is not on a cycle or a thread behind it has priority 0 |
| DeadlockRun.WholeRun | rt-thread/src/ipc.c:748-788 | what six operations from the initial state lead to: two threads deadlock, a third one boosts both and is closed |
| DeadlockRun.StaleInDeadlock | rt-thread/src/ipc.c:748-788 | after that run one of the two stays at a priority nobody has: it does not run at its effective priority, and the run is not deadlock-free |
| PriorityChains.StepAcyclic | rt-thread/src/ipc.c:1105-1444 | a step creates a wait-for cycle exactly if it is a blocking take of a mutex whose owner is already blocked behind the taker |
| PriorityChains.EdgeAddedAcyclic | rt-thread/src/ipc.c:1175-1204 | a new wait-for edge keeps the graph acyclic exactly if it closes no cycle |
| PriorityChains.HandOffAcyclic | rt-thread/src/ipc.c:1388-1427 | hand-off keeps the wait-for graph acyclic |
| PriorityChains.RunEffective | rt-thread/src/ipc.c:1105-1444 | after any run every thread that is not on a wait-for cycle runs at its effective priority; after a deadlock-free run every thread does |
| PriorityChains.RunAcyclic | rt-thread/src/ipc.c:1105-1444 | a run in which no take closes a cycle reaches no deadlock |
| MutexOutcomes.TakeOutcome | rt-thread/src/ipc.c:1133-1225 | each of the four results exactly when it should be; a taken mutex is held once more and nothing else changes; a sleeper is in the queue, priorities only rise and the owner is at least as urgent |
| MutexOutcomes.ReleaseOutcome | rt-thread/src/ipc.c:1364-1434 | only the owner releases; the last release frees the mutex or passes it to the most urgent waiter, who wakes; nobody else is touched |
| MutexOutcomes.DetachOutcome | rt-thread/src/thread.c:403-447 | the thread is closed and waits nowhere, everything else but inherited priorities is as before |
| MutexOutcomes.OwnerUrged | rt-thread/src/ipc.c:748-788 | an owner is at least as urgent as any waiter |
| PriorityQueueOrder.EnqueueOrder | rt-thread/src/ipc.c:136-162 | a newcomer stands behind exactly the waiters at least as urgent; the others keep their order |
| PriorityQueueOrder.UpdateKeepsOrder | rt-thread/src/ipc.c:748-788 | through the whole recursive update, waiters of unchanged priority keep their order and a re-prioritised one queues behind its new equals |
| StepOrder.StepKeepsOrder | rt-thread/src/ipc.c:1105-1444 | no operation lets a waiter of unchanged priority pass another one in the same queue, and a newcomer stands behind all waiters at least as urgent |
| StepOrder.RunKeepsOrder | rt-thread/src/ipc.c:1105-1444 | over any run, two threads that wait for one mutex throughout with unchanged priorities keep their order |
| DetachSections.SectionsAreDetach | rt-thread/src/thread.c:412-443 | the two lock sections with nothing in between are the one step |
| DetachSections.ReleaseBetween | rt-thread/src/thread.c:412-443 | a release of the mutex between the sections leaves the second one without an owner exactly if it is the last hold and nobody else waits; else the outcome is that of detaching and releasing in turn |
| AssertionRun.OwnerGone | rt-thread/src/thread.c:412-443 | three takes, a detach and a release between its sections reach the missing owner |
| SuspendAssertion.TakeAssertion | rt-thread/src/thread.c:877-892 | a blocking take suspends a thread other than the caller exactly if the owner sleeps on a mutex and is less urgent than the caller |
| SuspendAssertion.DropAssertion | rt-thread/src/thread.c:877-892 | detaching a waiter suspends a thread other than the caller exactly if the owner sleeps on a mutex and owes its priority to the waiter alone |
| AssertionRun.NestedWaitTrips | rt-thread/src/thread.c:877-892 | three takes of two mutexes keep the assertion, the fourth, by a more urgent thread, breaks it |
| MutexKernel.Kernel.IpcListSuspend | rt-thread/src/ipc.c:124-171 | the in-place insertion loop is `Enqueue` on the mutex's wait queue |
| MutexKernel.Kernel.MutexUpdatePriority | rt-thread/src/ipc.c:713-728 | the stored priority becomes that of the first waiter |
| MutexKernel.Kernel.ThreadGetMutexPriority | rt-thread/src/ipc.c:730-746 | the loop over the taken list computes the minimum |
| MutexKernel.Kernel.ThreadUpdatePriority | rt-thread/src/ipc.c:748-788 | the recursive method is `UpdatePriority` and restores the invariant; the assertion holds exactly if it suspends the caller only |
| MutexKernel.Kernel.MutexTake | rt-thread/src/ipc.c:1105-1225 | the new state and result are those of `Take`; the invariant holds; the assertion of `rt_thread_suspend` fails exactly as `TakeAssertion` says |
| MutexKernel.Kernel.MutexRelease | rt-thread/src/ipc.c:1326-1444 | the new state and result are those of `Release`; the invariant holds; the same table changes while another thread is half detached |
| MutexKernel.Kernel.MutexDropThread | rt-thread/src/ipc.c:897-936 | the waiter is gone and the owner gets what it deserves now |
| MutexKernel.Kernel.ThreadSuspend | rt-thread/src/thread.c:875-909 | a ready or running thread becomes suspended, any other stays as it is; the assertion holds exactly if the caller suspends itself |
| MutexKernel.Kernel.ChangePriority | rt-thread/src/thread.c:763-809 | the current priority is replaced |
| MutexKernel.Kernel.CloseThread | rt-thread/src/thread.c:418-443 | the new state is that of the second section, or the owner is missing |
| MutexKernel.Kernel.ThreadDetach | rt-thread/src/thread.c:403-447 | with nothing between its sections the new state is that of `Detach`; the invariant holds; the assertion fails exactly as `DropAssertion` says |
| IntrusiveList.InsertAfter | rt-thread/include/rtservice.h:58-65 | the four pointer writes turn the ring of a list into the ring with the node inserted |
| IntrusiveList.Remove | rt-thread/include/rtservice.h:86-92 | the pointer writes turn the ring into the ring without the node and link the node to itself |
| IntrusiveList.RemoveAgain | rt-thread/include/rtservice.h:86-92 | removing a node a second time changes no link |
| IntrusiveList.InsertRemove | rt-thread/include/rtservice.h:58-92 | removing a node just inserted restores every link of the list and leaves the node linked to itself |
| BlockRing.LiveBlocksDisjoint | rt-thread/src/mem.c:279-408 | blocks in use never overlap and lie in the pool |
| BlockRing.CarveGood | rt-thread/src/mem.c:324-377 | giving out a block, split or whole, keeps aligned tiling and leaves no two adjacent free blocks |
| BlockRing.CarveLive | rt-thread/src/mem.c:324-377 | giving out a block makes exactly that block live, with at least the requested size |
| BlockRing.MergedGood | rt-thread/src/mem.c:125-163 | giving back a block and merging it keeps tiling and leaves no two adjacent free blocks |
| BlockRing.MergedLive | rt-thread/src/mem.c:125-163 | giving back a block ends its life and no other |
| BlockRing.ShrunkGood | rt-thread/src/mem.c:468-495 | cutting off the tail of a block in use keeps tiling and leaves no two adjacent free blocks |
| BlockRing.GrownGood | rt-thread/src/memheap.c:392-470 | growing a block into the free block behind it keeps tiling and leaves no two adjacent free blocks |
| BlockRing.MergedUndoesCarve | rt-thread/src/mem.c:279-559 | giving back the block just given out restores the same blocks with the same use flags |
| BlockRing.SumCovers | rt-thread/src/memheap.c:200-232 | no free block is bigger than the free byte count |
| SmallMemHeaders.CutHeaders | rt-thread/src/mem.c:341-358 | writing a new header inside a block yields a pool whose headers spell out the new ring (`prev` inverse to `next` before the end mark), and touches only header cells |
| SmallMemHeaders.SwallowHeaders | rt-thread/src/mem.c:134-162 | merging two blocks in place yields headers that spell out the ring without the second, and touches only header cells |
| SmallMemHeaders.FlagHeaders | rt-thread/src/mem.c:544 | rewriting the owner word of a header changes its use flag only |
| SmallMem.InitLayoutFits | rt-thread/src/mem.c:178-205 | initialisation fails exactly if the object and an empty pool do not fit; the size, compared with an unaligned start, is never negative and is aligned |
| SmallMem.RemainderIsRoomy | rt-thread/src/mem.c:468-475 | a remainder compared with the unaligned MIN_SIZE is always at least the aligned minimum |
| SmallMem.PlugIsMerged | rt-thread/src/mem.c:125-163 | merging forward then backward gives the same pool as backward then forward |
| SmallMem.PlugLowest | rt-thread/src/mem.c:136-159 | with the hint at the lowest free block, the hint branches of `plug_holes` never fire and the hint stays the lowest free block |
| SmallMem.HintStep | rt-thread/src/mem.c:385-390 | the hint may pass a block in use |
| SmallMem.TooCloseToEnd | rt-thread/src/mem.c:317-319 | a block beginning behind the scan limit is too small |
| SmallMem.SmallHeap.constructor | rt-thread/src/mem.c:219-240 | the fresh pool is one free block and satisfies every invariant |
| SmallMem.SmallHeap.PlugHoles | rt-thread/src/mem.c:125-163 | the in-place merge leaves headers, ring and hint as specified and writes headers only |
| SmallMem.SmallHeap.FindFit | rt-thread/src/mem.c:317-324 | the scan from the hint finds the lowest free block with room, or there is none in the whole heap |
| SmallMem.SmallHeap.AdvanceFree | rt-thread/src/mem.c:385-390 | the hint ends at the lowest free block, or at the end mark |
| SmallMem.SmallHeap.Alloc | rt-thread/src/mem.c:279-408 | null exactly if no free block has room; else the lowest-address fitting block, cut to the rounded request exactly if the rest is worth a block; `used` grows by its size with header and the peak is the larger of the old peak and the new use; every byte of every block in use stays; all invariants hold |
| SmallMem.SmallHeap.Free | rt-thread/src/mem.c:516-559 | exactly that block stops being in use, `used` drops by its size with header, every byte in use stays, all invariants hold |
| SmallMem.SmallHeap.Resize | rt-thread/src/mem.c:449-507 | a block stays in place exactly if the size is equal or the rest is worth a block; it fails exactly if it has to move and nothing fits |
| SmallMem.SmallHeap.Realloc | rt-thread/src/mem.c:422-507 | on every path the first min(old, new) bytes of the block and every byte of every other block in use survive; when it stays, `used` and peak are exact; on failure nothing changes |
| MemHeap.Heap.constructor | rt-thread/src/memheap.c:74-150 | ring, free list and counters of the fresh heap agree |
| MemHeap.FirstFreeIs | rt-thread/src/memheap.c:216-232 | the block chosen stands on the free list behind smaller blocks only |
| MemHeap.Heap.FindFree | rt-thread/src/memheap.c:216-232 | the walk finds the first block with room on the free list or proves that no free block has room |
| MemHeap.Heap.Alloc | rt-thread/src/memheap.c:183-346 | refused exactly if the rounded request is not below the free byte count or no free block has room; else exactly one new live block, the first with room on the free list or its front, and a rest cut off comes first on the free list; the peak is the larger of the old peak and the new use; ring tiles the pool, free list is the set of free blocks, no two free blocks adjacent, counters exact; on a heap aligned to 32 bytes the address is aligned, and the heap stays so exactly if the request is not zero or the first free block that holds 12 bytes is too small to be cut |
| MemHeap.Heap.Free | rt-thread/src/memheap.c:597-724 | exactly that block stops being live; ring, free list and counters agree again; the freed block comes first on the free list unless it joins a free block in front of it, and the order of the others stays |
| MemHeap.Heap.GrowTo | rt-thread/src/memheap.c:399-470 | the block grows in place, all other live blocks keep place and size |
| MemHeap.Heap.Shrink | rt-thread/src/memheap.c:505-587 | the block shrinks in place or stays, the tail becomes free and is merged |
| MemHeap.Heap.Realloc | rt-thread/src/memheap.c:361-588 | a block not to grow stays, cut if the tail is worth a block; a block to grow stays exactly if the free block behind it has room, else it moves or fails exactly as an allocation would; exactly the block itself changes, on failure nothing does; the data survives the move and no byte of another live block changes; alignment to 32 bytes is kept |
| MemHeap.GrowsExactly | rt-thread/src/memheap.c:423 | in addresses: a block grows in place exactly if the block behind it is free and both together span more than the new size, two headers and 12 bytes |
| MemHeap.HeadersOffData | rt-thread/src/memheap.c:74-150 | no header shares an address with the data of a live block |
| MemHeap.MergedFacts | rt-thread/src/memheap.c:646-713 | merging on release keeps the free list equal to the set of free blocks and the byte count exact in all four neighbour cases |
| MemHeap.GrownFacts | rt-thread/src/memheap.c:399-470 | growing in place keeps ring, free list and byte count in agreement |
| MemHeap.ShrunkFacts | rt-thread/src/memheap.c:520-583 | shrinking in place keeps ring, free list and byte count in agreement |
| MemHeap.RefusesLastBlock | rt-thread/src/memheap.c:200 | a fresh heap whose one free block has 32 bytes refuses 32 bytes |
| MemHeap.ZeroBytesLeaveGrid | rt-thread/src/memheap.c:193-198 | a fresh heap serves zero bytes with 12 and is no longer aligned |
| MemHeap.ExactFitRefused | rt-thread/src/memheap.c:200 | a request some free block could hold is refused exactly if it asks for every free byte |
| SlabPages.CanonicalUnique | rt-thread/src/slab.c:211-294 | the list of maximal ascending free runs is determined by the set of free pages |
| SlabPages.RunIsMaximal | rt-thread/src/slab.c:252-294 | the pages next to a run are not free |
| SlabPages.StretchInRun | rt-thread/src/slab.c:220-238 | any stretch of free pages lies inside one run |
| SlabPages.TakenFacts | rt-thread/src/slab.c:211-241 | allocation removes exactly the given pages and keeps the list canonical |
| SlabPages.GivenFacts | rt-thread/src/slab.c:252-294 | freeing adds exactly the given pages and keeps the list canonical, merging on both sides |
| SlabPages.GivenUndoesTaken | rt-thread/src/slab.c:211-294 | freeing what was just allocated restores the identical list |
| SlabPages.PageList.Alloc | rt-thread/src/slab.c:211-241 | null exactly if no stretch of that many free pages exists; else the lowest fitting run |
| SlabPages.PageList.Free | rt-thread/src/slab.c:252-294 | the list in the pages becomes the specified one |
| SlabZones.ZoneIndexIs | rt-thread/src/slab.c:408-466 | a request gets the chunk size of its class, which is the smallest that holds it |
| SlabZones.ZoneIndexRounds | rt-thread/src/slab.c:408-466 | the size handed out is the request rounded up to the grain of its range, which from 128 bytes on is between a sixteenth and an eighth of it |
| SlabZones.OneSizePerClass | rt-thread/src/slab.c:408-466 | two requests share a class exactly if they get the same chunk size |
| SlabZones.ChunkTakenFacts | rt-thread/src/slab.c:536-573 | a chunk taken from a zone was not handed out and lies in the zone; nothing else changes hands; the free counter stays exact |
| SlabZones.ChunkGivenFacts | rt-thread/src/slab.c:795-806 | giving a chunk back ends its life only |
| SlabZones.NoneLive | rt-thread/src/slab.c:812-813 | a zone whose free counter is full has no chunk handed out |
| SlabZones.NewZoneFacts | rt-thread/src/slab.c:619-645 | a new zone has one chunk handed out and at least one spare |
| SlabZones.NewZoneFills | rt-thread/src/slab.c:619-645 | a new zone holds as many chunks as fit behind its header |
| SlabZones.RequestAligned | rt-thread/src/slab.c:624-631 | in every zone in service a power-of-two request is aligned to its size exactly if the zone is; always up to a page |
| SlabStore.LiveBlocksDisjoint | rt-thread/src/slab.c:487-653 | blocks handed out, chunks and large ones, never overlap |
| SlabStore.TakeFromParts | rt-thread/src/slab.c:536-573 | a zone leaves its class list exactly when it is full |
| SlabStore.GiveToParts | rt-thread/src/slab.c:795-806 | a zone is in its class list exactly while it has a free chunk |
| SlabStore.OpenedLive | rt-thread/src/slab.c:575-648 | putting a zone into service hands out exactly one new block |
| SlabStore.RetiredLive | rt-thread/src/slab.c:812-829 | idling an empty zone ends no block |
| Slab.ZoneSizeFor | rt-thread/src/slab.c:359-361 | the zone size is 32, 64 or 128 KiB and the smallest the pool calls for |
| Slab.SlabHeap.Alloc | rt-thread/src/slab.c:487-653 | fails exactly if no list, idle zone or page stretch can serve the class; else a block not handed out before, of the size of its class or in whole pages: the next chunk of the first listed zone, else the first of the first idle zone or of one on the lowest run that fits, or that run itself; what happens to zones, lists, idle zones and free pages is stated; powers of two up to a page are aligned to their size, larger ones exactly if the zone or run they come from is; counters are exact and all invariants hold |
| Slab.LargeOutOfAlignment | rt-thread/src/slab.c:503-525 | a fresh heap gives out a large block of 8 KiB that is not aligned to 8 KiB |
| Slab.ChunkOutOfAlignment | rt-thread/src/slab.c:587-631 | a fresh heap gives out a chunk of 8 KiB that is not aligned to 8 KiB |
| Slab.SlabHeap.Free | rt-thread/src/slab.c:736-853 | the usage table leads to the right zone or large block; exactly that block ends; a large block's pages become free; an emptied zone that is not alone in its list becomes the first idle one, or with two idle ones already its pages become free |
| Slab.SlabHeap.Realloc | rt-thread/src/slab.c:667-725 | a chunk whose class is unchanged keeps its place and nothing changes; any other block is replaced, or kept exactly if an allocation of the rounded size fails; the data survives the move and no byte of another block changes |
| Slab.RecordsOffData | rt-thread/src/slab.c:487-653 | no zone header and no free chunk shares an address with a block handed out |
| TimerRows.LaterExact | rt-thread/src/timer.c:448-457 | the 32-bit comparison of the insertion search is the true order exactly inside a stated window |
| TimerRows.DueExact | rt-thread/src/timer.c:650 | the 32-bit due test is right exactly if the timer is neither half a turn overdue nor that far ahead |
| TimerRows.SplitIsLinear | rt-thread/src/timer.c:432-461 | the position found is where a linear scan stops |
| TimerRows.RowIsSubsequence | rt-thread/src/timer.c:462-463 | each row is a subsequence of the row below |
| TimerRows.LinkedRows | rt-thread/src/timer.c:473-486 | linking a timer into the lowest rows keeps every row sorted by true deadline, first started first among equals, and nested |
| TimerRows.UnlinkedRows | rt-thread/src/timer.c:188-196 | unlinking keeps all rows sorted and nested |
| Timers.TimerList.Init | rt-thread/src/timer.c:120-145 | a timer not armed is set up without touching the rows |
| Timers.TimerList.Search | rt-thread/src/timer.c:432-464 | the row-by-row search finds in every row the position a linear scan would find |
| Timers.TimerList.Link | rt-thread/src/timer.c:469-486 | the timer is linked into exactly the rows its start number selects |
| Timers.HeightIs | rt-thread/src/timer.c:469-486 | a timer enters row k from the bottom exactly if 4 to the k divides its start number |
| Timers.TimerList.Start | rt-thread/src/timer.c:407-523 | the timer stands behind all timers due no later and in front of the others, in exactly the rows its start number selects; its deadline and no other changes |
| Timers.TimerList.Stop | rt-thread/src/timer.c:533-557 | the timer leaves all rows; an unarmed one is reported |
| Timers.TimerList.Check | rt-thread/src/timer.c:629-696 | terminates; calls back exactly the timers due by now, in deadline order; re-arms exactly the periodic ones; leaves nothing due |
| Timers.TimerList.NextTimeout | rt-thread/src/timer.c:157-181 | the tick of an armed timer with the earliest deadline, or the maximum |
| Timers.OverdueMissed | rt-thread/src/timer.c:654-658 | a timer due at tick 5 is not taken for due half a turn of the counter later |
| Timers.PutInFront | rt-thread/src/timer.c:463-472 | the search puts a later timer in front of it |
| Timers.HeadIsNext | rt-thread/src/timer.c:640-650 | a due timer at the head is the next one of the order the check began with |
| MessageQueue.FirstInFirstOut | rt-thread/src/ipc.c:3029-3439 | without urgent messages and resets, what was received followed by what is queued is what was sent, in order |
| MessageQueue.UrgentFirst | rt-thread/src/ipc.c:3245-3249 | an urgent message is ahead of everything queued and of everything sent later |
| MessageQueue.MessageQueue.constructor | rt-thread/src/ipc.c:2732-2783 | all nodes of the pool are free |
| MessageQueue.MessageQueue.Reserve | rt-thread/src/ipc.c:3003-3096 | a sender gets the first free node, is refused, or waits; queue, free list and held nodes partition the pool; nobody sleeps while a node is free and unclaimed |
| MessageQueue.MessageQueue.Fill | rt-thread/src/ipc.c:3101-3104 | only the held node is written; its content begins with the message |
| MessageQueue.MessageQueue.Commit | rt-thread/src/ipc.c:3106-3155 | the message, untouched since it was filled in, goes to the end; the entry counter is the queue length and never overflows; the first waiting receiver leaves the list and is resumed, and no other waiting thread moves |
| MessageQueue.MessageQueue.CommitUrgent | rt-thread/src/ipc.c:3240-3284 | the message goes to the front; the first waiting receiver leaves the list and is resumed |
| MessageQueue.MessageQueue.Unlink | rt-thread/src/ipc.c:3334-3424 | the first queued message is taken; tail is null exactly if head is |
| MessageQueue.MessageQueue.CopyOut | rt-thread/src/ipc.c:3429-3430 | what is copied is the message unlinked, whatever others did meanwhile |
| MessageQueue.MessageQueue.Release | rt-thread/src/ipc.c:3432-3462 | the node becomes free; the first waiting sender leaves the list and is resumed |
| MessageQueue.MessageQueue.Clear | rt-thread/src/ipc.c:3480-3528 | reset empties the queue and fails all waiting threads; nodes held by others stay theirs |
| MessageQueue.LinkedPartition | rt-thread/src/ipc.c:3106-3117 | linking a held node keeps the partition of the pool |
| EventFlags.ScanLeavesQuiet | rt-thread/src/ipc.c:1706-1764 | after a complete send nobody sleeps whose condition holds, although waiters in front may have cleared flags |
| EventFlags.ScanCompletes | rt-thread/src/ipc.c:1718-1745 | the scan goes through exactly if every waiter has a valid option |
| EventFlags.ScanHands | rt-thread/src/ipc.c:1720-1763 | each thread was woken because its condition held at its turn, in queue order, and is told the flags that made it hold |
| EventFlags.ScanFlags | rt-thread/src/ipc.c:1754-1756 | a flag is left after a scan exactly if it was set and no thread woken with CLEAR was told it |
| EventFlags.ScanTurns | rt-thread/src/ipc.c:1706-1764 | the scan as a walk in queue order: which threads wake, what each is told, who stays asleep and the flags at each turn, by the test of the code; it ends behind the last waiter or at the first without a valid option |
| EventFlags.ScanKeepsAll | rt-thread/src/ipc.c:1706-1764 | every waiter either woke or still sleeps |
| EventFlags.ClearedOnce | rt-thread/src/ipc.c:1754-1756 | a flag cleared for one thread is not given to a later one in the same send |
| EventFlags.IncompleteScan | rt-thread/src/ipc.c:1739-1745 | a scan stops at the first waiter without a valid option; nobody in front sleeps wrongly, nobody behind is looked at |
| EventFlags.InvalidWaiterBlocks | rt-thread/src/ipc.c:1739-1745 | two receives and a send on a fresh event leave a satisfied thread asleep behind such a waiter |
| EventFlags.Event.Send | rt-thread/src/ipc.c:1686-1775 | the in-place walk is the specified scan; it fails exactly with nothing to send or a waiter without a valid option, and otherwise leaves nobody asleep wrongly; a flag remains exactly if it was set or sent and no thread woken with CLEAR was told it |
| EventFlags.Event.Receive | rt-thread/src/ipc.c:1811-1931 | received at once exactly if the condition holds, and then told the flags wanted and set, which are cleared exactly if CLEAR is asked for; else refused or asleep with the flags as they were, and nobody else becomes satisfiable; all waiters have valid options exactly if they had and no thread went to sleep without one |
| CpusLock.MutualExclusion | rt-thread/src/cpu.c:170-214 | two CPUs never hold the lock at once |
| CpusLock.SwitchAllowed | rt-thread/src/scheduler.c:336 | with the lock held, a scheduler counter of one means no critical section and no preemption lock |
| CpusLock.LocalStep | rt-thread/src/cpu.c:170-232 | a step of one CPU cannot break the lock state of another |
| CpusLock.ExitedInv | rt-thread/src/scheduler.c:944-983 | the scheduler counter never becomes negative, so clamping it changes nothing |
| CpusLock.SwitchedInv | rt-thread/src/cpu.c:222-231 | a context switch leaves the lock held exactly if the new thread counts it as held |
| CpusLock.Cpus.Lock | rt-thread/src/cpu.c:170-191 | both counters go up before the spin; scheduler counter = lock + critical sections + preemption locks |
| CpusLock.Cpus.Unlock | rt-thread/src/cpu.c:199-214 | the CPU that gives the lock back is its holder; it is freed with the last section |
| CpusLock.Cpus.EnterCritical | rt-thread/src/scheduler.c:882-919 | critical and scheduler counters rise inside a lock section |
| CpusLock.Cpus.ExitCritical | rt-thread/src/scheduler.c:944-983 | goes on to schedule exactly if no lock and no preemption lock is left |
| CpusLock.Cpus.PreemptDisable | rt-thread/src/cpu.c:20-40 | the scheduler is locked for the thread |
| CpusLock.Cpus.PreemptEnable | rt-thread/src/cpu.c:45-66 | the scheduler is unlocked once for the thread |
| CpusLock.Cpus.Schedule | rt-thread/src/scheduler.c:301-391 | switches exactly outside interrupts, critical sections and spin locks; inside an interrupt it asks for a switch at its end |
| CpusLock.Cpus.IrqSwitch | rt-thread/src/scheduler.c:554-640 | the interrupted thread is left with no lock at all and the lock passes to the thread switched to, exactly if a switch was asked for and is allowed |
| CpusLock.Cpus.Restore | rt-thread/src/cpu.c:222-231 | the lock ends up free exactly if the new thread does not count it as held |
| ReadyQueues.FfsIs | rt-thread/src/scheduler.c:147-148 | the lowest set bit of the group |
| ReadyQueues.HighestIs | rt-thread/src/scheduler.c:147-148 | the unsigned wrap makes an empty group lose against every priority |
| ReadyQueues.ChosenIsMostUrgent | rt-thread/src/scheduler.c:133-167 | the thread chosen is ready for this CPU and none such is more urgent |
| ReadyQueues.RemovedLoose | rt-thread/src/scheduler.c:793-843 | a removed thread is in no list; all lists and bits stay right |
| ReadyQueues.InsertedPlaced | rt-thread/src/scheduler.c:653-737 | an inserted thread is in exactly the list of its priority and binding; every bit is set exactly if its list is not empty |
| ReadyQueues.ScheduledInv | rt-thread/src/scheduler.c:301-391 | scheduling keeps lists, bitmaps, `oncpu` and current threads consistent |
| ReadyQueues.ScheduledMostUrgent | rt-thread/src/scheduler.c:336-389 | afterwards the CPU runs a thread at least as urgent as every ready thread it may run |
| ReadyQueues.ScheduledOthers | rt-thread/src/scheduler.c:336-389 | only the thread that leaves the CPU and the one that comes change; the first becomes ready if it was running, the second was ready for this CPU |
| ReadyQueues.YieldGivesWay | rt-thread/src/scheduler.c:347-356 | a yielding thread gives way to an equally urgent one and queues last among its equals |
| ReadyQueues.WhoRuns | rt-thread/src/scheduler.c:347-356 | stated on the fields: a running thread keeps its CPU exactly if every thread ready for that CPU has a larger priority number, or an equal one while the running thread does not yield |
| SchedulingRules.WhoComes | rt-thread/src/scheduler.c:133-167 | a thread that takes over is the head of its ready list, global or local, and no thread ready for this CPU is more urgent; among equals the CPU's own list comes first |
| SchedulingRules.StayingState | rt-thread/src/scheduler.c:351-356 | if the thread keeps the CPU, lists and current threads stay and at most its yield flag is cleared |
| SchedulingRules.SwitchedState | rt-thread/src/scheduler.c:358-389 | at a switch the former thread, if still running, is ready without its yield flag and stands last among its equals if it yielded, else first; the new one leaves its list and runs; every other thread and list stays |
| SchedulingRules.RemovedLists | rt-thread/src/scheduler.c:793-843 | a thread removed leaves the one list it may be in; every list keeps its order |
| SchedulingRules.InsertedRule | rt-thread/src/scheduler.c:653-737 | a thread put on its list stands last if it yielded, else first; no other list changes |
| SchedulingRules.ReprioritizedRule | rt-thread/src/thread.c:763-809 | the priority becomes the new one; a ready thread leaves its old list and joins the new one, any other thread changes no list |
| SchedulingRules.DetachedRule | rt-thread/src/thread.c:412-422 | the closed thread leaves its list, no other list and no other thread changes |
| SchedulingRules.StartedRule | rt-thread/src/scheduler.c:248-272 | the first thread of a CPU is the head of the most urgent list and leaves it, running |
| SchedulingRules.StartupRule | rt-thread/src/thread.c:362-391 | a thread started is ready and joins the list of its priority and binding |
| ReadyQueues.ReprioritizedInv | rt-thread/src/thread.c:763-809 | changing a priority moves a ready thread to its new list |
| ReadyQueues.Scheduler.InsertThread | rt-thread/src/scheduler.c:653-737 | the in-place insertion is the specified one |
| ReadyQueues.Scheduler.RemoveThread | rt-thread/src/scheduler.c:793-843 | the in-place removal is the specified one |
| ReadyQueues.Scheduler.GetHighest | rt-thread/src/scheduler.c:133-167 | most urgent ready thread of global and local lists |
| ReadyQueues.Scheduler.Schedule | rt-thread/src/scheduler.c:301-391 | invariant kept and most urgent thread running; a running thread keeps the CPU exactly if every other thread ready for it is less urgent, or as urgent and the running one does not yield |
| ReadyQueues.Scheduler.constructor | rt-thread/src/scheduler.c:197-242 | no thread is started and no CPU runs one; invariant holds |
| ReadyQueues.Scheduler.Startup | rt-thread/src/thread.c:362-391 | the thread becomes ready, and if the CPU runs a thread already, scheduling follows; invariant kept and most urgent thread running |
| ReadyQueues.Scheduler.Start | rt-thread/src/scheduler.c:248-272 | a CPU that ran nothing runs a most urgent ready thread; others stay; invariant kept |
| ReadyQueues.StartedInv | rt-thread/src/scheduler.c:248-272 | starting a CPU keeps lists, bitmaps, `oncpu` and current threads consistent |
| ReadyQueues.Boot | rt-thread/src/idle.c:306-346 | from power-on through binding and starting an idle thread for each CPU to every CPU running a thread |
| ReadyQueues.Scheduler.Yield | rt-thread/src/thread.c:572-585 | exactly the caller's yield flag is set before scheduling; the caller keeps the CPU exactly if all others ready for it are less urgent; invariant kept and most urgent thread running |
| ReadyQueues.Scheduler.Suspend | rt-thread/src/thread.c:875-909 | only a ready or running thread is suspended, and leaves its list; else nothing changes |
| ReadyQueues.DetachedInv | rt-thread/src/thread.c:412-422 | a closed thread is in no list; nobody else is touched; lists, bitmaps, `oncpu` and current threads stay consistent |
| ReadyQueues.Scheduler.Detach | rt-thread/src/thread.c:403-447 | the new state is the specified one with the thread closed; invariant kept |
| ReadyQueues.Scheduler.IrqSwitch | rt-thread/src/scheduler.c:554-640 | if asked for and allowed, the state is that of scheduling and the CPU runs a most urgent thread; else nothing changes |
| ReadyQueues.Scheduler.Resume | rt-thread/src/thread.c:920-954 | a thread that never left its CPU goes on running, any other becomes ready |
| ReadyQueues.Scheduler.ChangePriority | rt-thread/src/thread.c:763-809 | exactly the priority of the thread changes, to the one given; the lists are those of `ReprioritizedRule`; invariant kept |
| ReadyQueues.Scheduler.Bind | rt-thread/src/thread.c:836-849 | binding works only before the thread is started |
| StackUsage.MaxFromCallees | rt-thread/tools/WCS.py:272-291 | the largest callee result plus the own stack is the maximum over all call chains |
| StackUsage.BadFrom | rt-thread/tools/WCS.py:258-286 | a function that reaches a pointer call or recursion has one itself or calls one that does |
| StackUsage.CycleIsBad | rt-thread/tools/WCS.py:266-269 | meeting a function of the current chain again is recursion |
| StackUsage.NeedsFromCallees | rt-thread/tools/WCS.py:287-289 | a missing name is needed by a function exactly if it misses it or a callee needs it |
| StackUsage.OrderDoesNotMatter | rt-thread/tools/WCS.py:293-300 | a function is unbounded exactly if it reaches a pointer call or recursion, else its value is the maximum over all call chains; results do not depend on the order of visits |
| StackUsage.CostIs | rt-thread/tools/WCS.py:272-291 | the cost of a call chain is the sum of the stacks of its functions |
| StackUsage.Analysis.CalcWcs | rt-thread/tools/WCS.py:246-291 | the memoised search terminates on every graph and everything remembered is true |
| StackUsage.Analysis.CalcAll | rt-thread/tools/WCS.py:293-300 | every function gets a true result |
| StackUsage.Analysis.constructor | rt-thread/tools/WCS.py:182-200 | functions given by hand start with a true result |
| StackUsage.ResolveCalls | rt-thread/tools/WCS.py:223-236 | stated on the tables: a function is found exactly if some called name is global and means it, or is not global and means it in the calling unit; a name is missing exactly if neither table has it; in whatever order the set is walked |
| PackImage.LittleRoundTrip | nuwriter_scripts/nuwriter.py:1339-1345 | decoding an encoded number that fits its field gives it back |
| PackImage.LittleDigits | nuwriter_scripts/nuwriter.py:1323-1359 | byte i of an encoded number is its i-th base-256 digit: lowest first |
| PackImage.FromLittleIs | nuwriter_scripts/UnpackImage.py:11-43 | the first byte read is the lowest |
| PackImage.HeaderBytes | nuwriter_scripts/nuwriter.py:1323-1359 | the bytes of the file header: the marker, the checksum, the number of images, each number lowest byte first |
| PackImage.ImageBytes | nuwriter_scripts/nuwriter.py:1339-1356 | where each image stands: its length, offset, type and contents at their places, 0xff up to the next multiple of 16 |
| PackImage.StartsAre | nuwriter_scripts/nuwriter.py:1348-1356 | the first descriptor begins behind the header, each next one behind the padded entry before it |
| PackImage.Pad | nuwriter_scripts/nuwriter.py:1348-1351 | the padding ends the entry at a multiple of 16 |
| PackImage.StartAligned | nuwriter_scripts/nuwriter.py:1348-1351 | every descriptor begins at a multiple of 16 |
| PackImage.NextIsStart | nuwriter_scripts/UnpackImage.py:41-43 | the reader's rounding skips exactly the writer's padding |
| PackImage.PackedRecord | nuwriter_scripts/UnpackImage.py:35-43 | at the place the reader computes it finds length, offset, type and bytes of the image |
| PackImage.RecordFields | nuwriter_scripts/UnpackImage.py:35-43 | what the reader takes from which bytes, and where it looks for the next record |
| PackImage.PackedInjective | nuwriter_scripts/nuwriter.py:1323-1359 | different lists of images give different files |
| PackImage.PackedIsPack | nuwriter_scripts/nuwriter.py:1323-1359 | marker, checksum, count and all images are found again |
| PackImage.Pack | nuwriter_scripts/nuwriter.py:1323-1359 | fails exactly if a number does not fit its field; else appends and patches to the specified file |
| PackImage.RoundTrip | nuwriter_scripts/UnpackImage.py:11-43 | packing and loading gives back all images |
| PackImage.UnpackImage.Load | nuwriter_scripts/UnpackImage.py:11-43 | accepted exactly if the marker and, where checked, the checksum agree |
| PackImage.UnpackImage.ImgAttr | nuwriter_scripts/UnpackImage.py:48-55 | length, offset and type of the image, or zeros |
| PackImage.UnpackImage.ImgContent | nuwriter_scripts/UnpackImage.py:57-65 | the requested stretch of the image, or nothing if it reaches beyond |
| PackImage.UnpackImage.Transfer | nuwriter_scripts/nuwriter.py:724-731 | the chunks sent, none empty and all but the last of 4096 bytes, concatenate to the image |

## Left out

- Timed waits for a mutex, and detaching or deleting a mutex: the failure path of `rt_mutex_take` leaves the pending object set and reads an owner that may be gone (`rt-thread/src/ipc.c:1229-1277`).
- Priority-ceiling mutexes: a ceiling mutex skips the taken list on its first take and enters it on hand-off.
- Changing the priority of a thread by a user call while it holds or waits for a mutex: the inheritance functions are the only callers modelled with mutexes.
- PriorityInheritance.Detach: the two lock sections of `rt_thread_detach` are one step in runs; only a release of the mutex between them is modelled (`DetachSections.ReleaseBetween`), no other step.
- MutexKernel.Kernel.ThreadDetach: see `PriorityInheritance.Detach`.
- Resuming a thread that waits for a mutex by a user call to `rt_thread_resume`: it would leave the queue with the mutex still pending.
- PriorityInheritance.Take: the hold counter stops at its limit as in the code; the error codes of interrupted waits are not modelled.
- MutexKernel.Kernel.ThreadSuspend: leaving the ready list is proved in `ReadyQueues`; the timer of the thread is not part of the mutex state.
- MutexKernel.Kernel.ChangePriority: moving a ready thread to the list of its new priority is proved in `ReadyQueues`.
- MemHeap.Heap.Alloc: sizes that wrap when rounded up are excluded.
- MemHeap.Heap.Realloc: data bytes and headers are kept apart; that they share no address is `MemHeap.HeadersOffData`.
- SmallMem.SmallHeap.Realloc: sizes that wrap when rounded up are excluded; a header field is one cell, not four bytes.
- SmallMem.SmallHeap.Free: the pool pointer recovered from the header is the heap itself; several heaps side by side are not modelled.
- Slab.SlabHeap.Realloc: the chain through the free chunks is a list, and the allocator's records are kept apart from the data; that they share no address is `Slab.RecordsOffData`.
- SlabZones.ZoneIndexIs: requests of 16 KiB or more, which the allocator serves by pages.
- Timers.TimerList.Check: callbacks do not start, stop or change timers and the tick does not advance during the check; re-arming requires a period of at least one tick.
- Soft timers and the timer thread: the same rows with a different caller.
- MessageQueue.MessageQueue.Reserve: waiting threads queue first come, first served; the priority order is the one of the mutex wait queue. A waiting thread that is resumed and then detached before it looks at the queue again takes its wake-up with it, which is not modelled. Error codes of a waiting thread and the copying of messages longer than a slot are not modelled.
- EventFlags.Event.Receive: a flag word is the set of its one bits, and the place a sleeping thread takes in the queue is a parameter.
- CpusLock.Cpus.Schedule: which thread is selected is a parameter here and proved in `ReadyQueues`; memory ordering, inter-processor interrupts and the context switch itself are foreign code. A context switch is one step that ends in `rt_cpus_lock_status_restore`.
- CpusLock.Cpus.Lock: a CPU that runs no thread takes no lock, as in the code; it is not shown as a step.
- ReadyQueues.Scheduler.Schedule: signals, stack checks and the build with more than 32 priorities are not modelled; a bitmap is a list of 32 truth values and `__rt_ffs` the lowest set one.
- StackUsage.Analysis.CalcWcs: functions are compared by identity, where the script compares dictionaries; missing names of unbounded functions depend on the order and are not claimed.
- Reading object, stack and call files for the stack analysis, and printing: input and output.
- PackImage.Pack: reading files and the configuration is left out; CRC-32 is any function to 32-bit numbers.
- PackImage.UnpackImage.Load: the reader's result on files no writer made is only what its own formula says.
- Semaphores, mailboxes, memory pools, signals, devices, hooks, debug output and shell commands: simpler repeats or output only.
