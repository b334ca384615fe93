# Verified model of libatp

A Dafny model of the core of libatp, a C++ network library, with proofs of what that core is meant
to guarantee. Each concurrent or stateful component appears twice. Once as a labelled transition
system on values: its state, its atomic steps, its runs, and theorems about every run or every
reachable state. And once as the class of the source, whose methods change fields in place and are
proved to be exactly those steps.

| file | component |
|---|---|
| `ThreadPool.dfy` | the dynamic thread pool: mutex, condition variable, task queue, shutdown |
| `EventLoop.dfy` | handing tasks to an event loop from other threads: queue, flag, eventfd |
| `MemoryPool.dfy` | chunks, pools and blocks; first fit and growth; what an allocation does to memory |
| `PoolCache.dfy` | the pool helper's lists and counters, and memory safety and accounting over whole runs |
| `PoolHelper.dfy` | the pool helper as an object, with the source's loops |
| `Wire.dfy` | 32- and 64-bit integers in network byte order |
| `BufferModel.dfy` | the buffer as a value (header, capacity, read index, unread bytes), its runs, and their refinement of a plain sequence of bytes |
| `ByteBuffer.dfy` | the growable buffer with a prepend header on its array, and round trips through it |
| `Connection.dfy` | a connection's output path and its channel's event interest |
| `TimingWheel.dfy` | the ring of buckets that closes idle connections |
| `Base64.dfy` | the encoder and decoder against section 4 of RFC 4648 |

## What is established

* **Thread pool.** With at least one core thread, a queued task always has a thread that will look
  at the queue before it can block or leave, and the destructor returns only after every task was
  popped in order and run to completion. Both hold if and only if there is a core thread: with none,
  128 threads can all be on their way out when a task arrives. Left to themselves the workers take
  a bounded number of steps in any order and complete every task added, before shutdown and after
  it; after it no thread is stuck, and every run can be continued to the destructor's return.
* **Event loop.** No wakeup is lost for any number of senders and any interleaving of their atomic
  accesses with the loop; tasks run exactly once in the order of their pushes; without new calls
  every run ends with everything executed and the flag down.
* **Memory pool.** Blocks are aligned, lie inside a chunk of their pool past its headers, and never
  overlap each other or any header of any pool, across growth, caching and re-issue. The helper's
  counters are the sums they are named after.
* **Byte buffer.** In every run each operation is refused exactly when its stated condition fails in
  the state reached, and the contents and every returned value are those of a plain sequence of
  bytes on which the other operations are run. In a run whose prepends together fit the header and
  whose bytes together fit memory nothing is refused but decreases that would do harm, and the
  capacity stays linear in what is written. Frames and lists of integers make the round trip through the buffer itself.
* **Connection.** What the kernel accepted followed by what is buffered is what the sends put on the
  way, in order, whatever partial counts the kernel picks; while the connection is open, write
  interest is up exactly while bytes wait, in every run, and libevent watches for writability
  exactly then; and the exact runs in which this is what was submitted.
* **Timing wheel.** The wheel agrees with a map from each connection to its last activity.
* **Base64.** The encoder is the RFC's encoding and the only one; decoding inverts it; encoding
  inverts decoding exactly on canonical texts.

Where the code does not meet a property it seems to promise, the exact condition is proved, and a
failing input shown:

* a pool with `core_threads == 0` can strand a task (`NoStrandedTaskIff`, `NoAbandonedTaskIff`,
  `StrandedWithoutCore`, `Exodus`);
* a buffer with header size 0 loses track of its contents when it grows or shrinks after a read,
  because a new index of 0 means "unchanged" (`Grow`, `Append`, `Decrease`,
  `HeaderlessAppendFails`, `HeaderlessDecreaseFails`);
* an explicit `grow` that finds room and nothing to compact trips an assert (`Grow`,
  `NeedlessGrowFails`);
* giving back more than the writable bytes overwrites the contents by themselves (`Decrease`,
  `DecreaseOverwritesContents`);
* an integer -1 in a buffer is never consumed, since -1 also means "too few bytes"
  (`RoundTripInts32`, `RoundTripInts64`, `MinusOneStays`, `MinusOneStays32`);
* bytes of a read that spill over the writable space are cut at the first zero byte
  (`ReadvDeliversAllIff`, `SpillIsCut`);
* a direct send that the kernel refuses queues the data shifted by one byte
  (`OutputConservedIff`, `RefusedSendShifts`);
* `used_size_` also counts requests that failed (`CacheAccounting` says by how much,
  `FailedCreationCounted`);
* an increment that is not a multiple of 8 can be too small for a request it seems to hold
  (`GrowthSufficesIff`, `AllocFailsIff`, `IncrementFallsShort`);
* the number of increments in a new chunk is an `int` (`ChunkCountFitsIff`, `ChunkCountOverflows`);
* destroying a pool that has grown frees wrong regions (`DestroyFreesItsRegionsIff`,
  `GrownPoolFreedWrongly`);
* a character outside the alphabet makes the decoder loop forever (`DecodeTerminatesIff`, `DecoderLoops`).

## Assumptions

* A 64-bit little-endian host: `pool_t` is 128 bytes, `pool_chunk_t` 40, `size_t` 64 bits.
* The system allocator returns regions aligned to 8 that overlap none in use, or fails.
* Kernel, libevent and scheduler answers are parameters: any legal answer is allowed.
* Nobody outside the pool calls `add` once the destructor has started; callbacks may.
* The user of an event loop does not block its thread forever; an eventfd write does not fail.

## Model

| member | source | states |
|---|---|---|
| `ThreadPool.StepNumbers` | src/net/atp_dynamic_thread_pool.cpp:55-133 | every step of workers, callers and destructor, spurious wakeups included, keeps the counters equal to the populations they stand for, at least `core` threads staying before shutdown, nobody blocked after it, and a non-empty queue attended |
| `ThreadPool.StepHistory` | src/net/atp_dynamic_thread_pool.cpp:55-99 | every step keeps: popped tasks then queue are the tasks added; each popped task is finished or held by exactly one worker |
| `ThreadPool.AddCases` | src/net/atp_dynamic_thread_pool.cpp:55-70 | the task goes to the back of the queue; when nobody waits one thread is started, or none at 128; when somebody waits none is started and, if a worker is asleep, exactly one sleeping worker is woken |
| `ThreadPool.RunAdds` | src/net/atp_dynamic_thread_pool.cpp:55-70 | over every run the tasks recorded as added are those of the calls of add, in their order |
| `ThreadPool.ReachableInv` | src/net/atp_dynamic_thread_pool.cpp:29-133 | both invariants hold in every state of every run |
| `ThreadPool.WorkerPopulation` | src/net/atp_dynamic_thread_pool.cpp:62-88 | after every run `waiting_threads_` counts the threads in or returning from `wait` and is at most `core`, `current_threads_` counts the threads not dead and is at most max(core, 128), each dead thread is listed once, and popped tasks then queue are the tasks of the calls of add in order |
| `ThreadPool.NoStrandedTask` | src/net/atp_dynamic_thread_pool.cpp:55-99 | with a core thread, a non-empty queue always has a worker that will inspect it before it blocks or leaves |
| `ThreadPool.AttentiveWorkerTakesHead` | src/net/atp_dynamic_thread_pool.cpp:90-94 | such a worker's own next step pops the oldest task, or ends its callback and returns it to the loop head |
| `ThreadPool.IdleCrowd` | src/net/atp_dynamic_thread_pool.cpp:79-83 | without core threads, up to 128 threads can be past the loop and still counted |
| `ThreadPool.StrandedWithoutCore` | src/net/atp_dynamic_thread_pool.cpp:59-63 | a concrete run without core threads ends with a task nobody will take |
| `ThreadPool.NoStrandedTaskIff` | src/net/atp_dynamic_thread_pool.cpp:55-99 | no task is ever stranded if and only if `core_threads >= 1` |
| `ThreadPool.OwnStepDecreases` | src/net/atp_dynamic_thread_pool.cpp:76-133 | before and after shutdown, every step a worker takes by itself lowers the work left |
| `ThreadPool.WorkTerminates` | src/net/atp_dynamic_thread_pool.cpp:76-133 | hence the workers' own steps are bounded, in any order |
| `ThreadPool.IdleMeansAllRan` | src/net/atp_dynamic_thread_pool.cpp:55-99 | with a core thread, a run that leaves no worker a step has popped the tasks of its calls of add in order and run each to completion |
| `ThreadPool.WorkersFinishAll` | src/net/atp_dynamic_thread_pool.cpp:55-133 | after every run the workers by themselves complete the tasks of its calls of add, in order and within the bound |
| `ThreadPool.ShutdownStepDecreases` | src/net/atp_dynamic_thread_pool.cpp:43-53 | after shutdown every worker step lowers a measure that the destructor's steps keep |
| `ThreadPool.ShutdownTerminates` | src/net/atp_dynamic_thread_pool.cpp:43-53 | hence the number of worker steps after shutdown is bounded, whatever the schedule |
| `ThreadPool.ShutdownNobodyStuck` | src/net/atp_dynamic_thread_pool.cpp:76-133 | after shutdown every live worker has an enabled step |
| `ThreadPool.ReturnedMeansAllRan` | src/net/atp_dynamic_thread_pool.cpp:43-53 | when the destructor returns, all threads are dead and listed once, the queue is empty and the tasks of the run's calls of add were popped in order and completed |
| `ThreadPool.Exodus` | src/net/atp_dynamic_thread_pool.cpp:118-133 | without core threads, all 128 threads can depart past a queued task |
| `ThreadPool.NoAbandonedTaskIff` | src/net/atp_dynamic_thread_pool.cpp:43-53 | the destructor leaves no task behind if and only if `core_threads >= 1` |
| `ThreadPool.DestructorReturns` | src/net/atp_dynamic_thread_pool.cpp:48-50 | once all threads are dead the destructor has returned or is awake and returns next: its notification is never lost, though workers wait on the same variable |
| `ThreadPool.ShutdownCompletes` | src/net/atp_dynamic_thread_pool.cpp:43-53 | from every reachable state after the destructor has started, a run without adds ends with its return |
| `ThreadPool.ShutdownFinishesEverything` | src/net/atp_dynamic_thread_pool.cpp:43-133 | every run without adds after shutdown, however scheduled, can be continued to the destructor's return within the bound, and then the tasks of all calls of add were popped in order and completed |
| `ThreadPool.DynamicThreadPool.constructor` | src/net/atp_dynamic_thread_pool.cpp:29-41 | establishes the initial state and the invariant |
| `ThreadPool.DynamicThreadPool.Add` | src/net/atp_dynamic_thread_pool.cpp:55-70 | is the add step, in its three branches, and keeps the invariant |
| `ThreadPool.DynamicThreadPool.ExecuterEnter` | src/net/atp_dynamic_thread_pool.cpp:77-98 | is the step from the loop head to the next unlock or wait |
| `ThreadPool.DynamicThreadPool.ExecuterResume` | src/net/atp_dynamic_thread_pool.cpp:86-98 | is the step from the return of the wait |
| `ThreadPool.DynamicThreadPool.ExecuterDepart` | src/net/atp_dynamic_thread_pool.cpp:118-133 | is the epilogue step, with the last thread's notification |
| `ThreadPool.DynamicThreadPool.Destroy` | src/net/atp_dynamic_thread_pool.cpp:43-53 | is the destructor up to its first wait |
| `ThreadPool.DynamicThreadPool.DestroyResume` | src/net/atp_dynamic_thread_pool.cpp:48-52 | is one turn of the destructor's wait loop |
| `EventLoop.StepWake` | src/net/atp_event_loop.cpp:113-131 | every atomic step keeps: flag up means a signal is outstanding, pending tasks mean somebody will still look |
| `EventLoop.StepOrder` | src/net/atp_event_loop.cpp:164-179 | every atomic step keeps: executed, batch rest and queue are the push order, and the counter's exact offset |
| `EventLoop.RunCalls` | src/net/atp_event_loop.cpp:94-132 | over every run the tasks recorded as pushed are those of the cross-thread calls in lock order, and those recorded as run at once are those of the loop thread's own calls in order |
| `EventLoop.NoLostWakeup` | src/net/atp_event_loop.cpp:94-132 | both wakeup properties in every reachable state, for any number of senders |
| `EventLoop.HandoffIsFifo` | src/net/atp_event_loop.cpp:164-179 | after every run the tasks executed, the rest of the batch and the queue are the tasks of the cross-thread calls in lock order, the loop thread's own calls ran at once in order, and what `pending_tasks_size_` reads |
| `EventLoop.DrainTerminates` | src/net/atp_event_loop.cpp:164-179 | without new calls every run is finite, by a measure |
| `EventLoop.QuiescentMeansAllExecuted` | src/net/atp_event_loop.cpp:94-179 | where it ends, the tasks of all cross-thread calls were executed in lock order, the counter is 0 and the flag is down |
| `EventLoop.Loop.constructor` | src/net/atp_event_loop.cpp:141-152 | establishes the initial state and the invariant |
| `EventLoop.Loop.PushPending` | src/net/atp_event_loop.cpp:102-105 | is the push under the lock |
| `EventLoop.Loop.CountPending` | src/net/atp_event_loop.cpp:107-107 | is the increment of the counter |
| `EventLoop.Loop.LoadNotified` | src/net/atp_event_loop.cpp:108-108 | is the load of the flag, which decides whether this sender signals |
| `EventLoop.Loop.StoreNotified` | src/net/atp_event_loop.cpp:109-109 | is the store of the flag |
| `EventLoop.Loop.EventNotify` | src/net/atp_event_watcher.cpp:126-136 | adds 3399 to the eventfd, so it becomes readable |
| `EventLoop.Loop.SendToQueue` | src/net/atp_event_loop.cpp:94-112 | on the loop thread the task runs at once; otherwise it is queued last, counted, and a signal is outstanding |
| `EventLoop.Loop.TakeBatch` | src/net/atp_event_loop.cpp:169-173 | read of the eventfd, clearing of the flag and swap are those three steps |
| `EventLoop.Loop.RunFront` | src/net/atp_event_loop.cpp:175-178 | runs the batch's first task and uncounts it |
| `EventLoop.Loop.RunBatch` | src/net/atp_event_loop.cpp:175-178 | the loop executes the whole batch in order and uncounts each task |
| `EventLoop.Loop.EventfdNotifyHandle` | src/net/atp_event_watcher.cpp:161-170 | an undisturbed wakeup runs everything queued once, in order, and keeps the invariant |
| `MemoryPool.RoundUp` | src/app/atp_memory_pool.cpp:138-141 | the rounded size is a multiple of 8 and at most 7 above the request |
| `MemoryPool.RoundUpIsLeast` | src/app/atp_memory_pool.cpp:138-141 | it is the least such multiple |
| `MemoryPool.AlignUp` | src/app/atp_debug.h:80-80 | the least aligned address not below the pointer |
| `MemoryPool.FirstFit` | src/app/atp_memory_pool.cpp:92-103 | the index of the first chunk with room, or that there is none |
| `MemoryPool.NewChunkSizeBounds` | src/app/atp_memory_pool.cpp:111-116 | the new chunk holds its header and the request, so the assert on its size never trips |
| `MemoryPool.NewChunkSizeExact` | src/app/atp_memory_pool.cpp:111-116 | the increment if it holds header and request, otherwise the only multiple of the increment that exceeds them and 8 by at most the increment |
| `MemoryPool.GrowthSufficesIff` | src/app/atp_memory_pool.cpp:107-126 | exactly when a new chunk serves the request it was made for; the same on the machine while the count fits an `int` |
| `MemoryPool.IncrementFallsShort` | src/app/atp_memory_pool.cpp:111-126 | increment 41 and a request for one byte: the new chunk cannot serve it |
| `MemoryPool.ChunkCountFitsIff` | src/app/atp_memory_pool.cpp:113-116 | for all sizes below half the address space, the size computed through an `int` count is the intended one if and only if the count is below 2^31 |
| `MemoryPool.ChunkCountOverflows` | src/app/atp_memory_pool.cpp:113-116 | a count of 2^32 gives a chunk of size 0 |
| `MemoryPool.AlignedGrowthSuffices` | src/app/atp_memory_pool.cpp:111-116 | it always does for increments that are positive multiples of 8 |
| `MemoryPool.BumpShape` | src/app/atp_memory_pool.cpp:132-156 | allocating from a chunk keeps every chunk well formed and all regions apart |
| `MemoryPool.BumpBlocks` | src/app/atp_memory_pool.cpp:147-152 | the new block is aligned, inside its chunk and disjoint from every earlier block |
| `MemoryPool.AddChunkShape` | src/app/atp_memory_pool.cpp:158-180 | a new chunk keeps the pool well formed, its capacity the sum of its regions, and all regions apart |
| `MemoryPool.NewPoolShape` | src/app/atp_memory_pool.cpp:356-370 | so does a fresh pool, whose address was not a pool's before |
| `MemoryPool.ClassOf` | src/app/atp_memory_pool.cpp:32-37 | the least size class that holds a request, or that none does |
| `PoolCache.AllocInv` | src/app/atp_memory_pool.cpp:86-242 | `pool_alloc` keeps chunks, regions, blocks, lists and counters consistent |
| `PoolCache.ReissuedBooks` | src/app/atp_memory_pool.cpp:376-387 | taking a pool from the cache keeps lists and counters exact: the clamp at zero loses nothing |
| `PoolCache.CreateInv` | src/app/atp_memory_pool.cpp:327-401 | `create_pool__`, fresh, cached or failing, keeps the whole invariant |
| `PoolCache.ReleaseInv` | src/app/atp_memory_pool.cpp:403-446 | `release_pool__`, caching, destroying or refusing, keeps the whole invariant |
| `PoolCache.PoolMemorySafety` | src/app/atp_memory_pool.cpp:86-180 | in every reachable state every block is aligned, inside a chunk of its pool past the chunk header and, in the embedded chunk, the pool header, and overlaps no header of any chunk of any pool and no other block of any pool |
| `PoolCache.CacheAccounting` | src/app/atp_memory_pool.cpp:327-460 | every pool is in exactly one list; `used_count_`, `capacity_` are exact, the cache is within its limit; `used_size_` is the size of the live pools plus exactly the bytes the run asked of the allocator in vain |
| `PoolCache.FailedCreationCounted` | src/app/atp_memory_policy.cpp:58-72 | a reachable state without pools that counts 256 bytes as used |
| `PoolCache.CreatedPoolHoldsRequest` | src/app/atp_memory_pool.cpp:327-401 | creation fails if and only if memory is asked for and refused; a pool it returns, fresh or cached, heads the used list, has at least the capacity asked for, and carries its increment and the least class that holds the request |
| `PoolCache.FreshPoolLayout` | src/app/atp_memory_pool.cpp:342-375 | a fresh pool has the size of its class, or of the request if that has none, in one region with the first chunk after both headers |
| `PoolCache.CreationReissuesOldest` | src/app/atp_memory_pool.cpp:376-387 | with its class in the cache, a creation asks for no memory and hands out the pool cached first, chunks and blocks as they were |
| `PoolCache.ReleaseCachesIff` | src/app/atp_memory_pool.cpp:428-446 | a release keeps the pool if and only if it has a class, the cache has room for it and it has at most 65535 bytes; then it is the last of its list and counted, otherwise it is gone |
| `PoolCache.ReleaseOfOthersIgnored` | src/app/atp_memory_pool.cpp:422-426 | releasing a pool that is not in use changes nothing |
| `PoolCache.CreateReleaseCreate` | src/app/atp_memory_pool.cpp:327-446 | created with none of its class cached, released and created again, the same pool comes back without memory if and only if the cache has room for it |
| `PoolCache.BlocksSurvive` | src/app/atp_memory_pool.cpp:359-387 | a block handed out stays among those the safety theorem speaks of while its pool lives, in use or cached |
| `PoolCache.AllocIsFirstFit` | src/app/atp_memory_pool.cpp:86-156 | a request is served from the first chunk with room at its bump pointer, which moves by the rounded size, and nothing else changes |
| `PoolCache.AllocGrows` | src/app/atp_memory_pool.cpp:107-180 | without room a chunk of the size asked for goes to the head of the list and serves the request right after its header |
| `PoolCache.AllocFailsIff` | src/app/atp_memory_pool.cpp:86-156 | exactly when `pool_alloc` returns null |
| `PoolCache.AlignedAllocFailsIff` | src/app/atp_memory_pool.cpp:86-156 | with an increment that is a positive multiple of 8, a non-empty request fails if and only if no chunk has room and the allocator fails |
| `PoolCache.AllocRecordsBlock` | src/app/atp_memory_pool.cpp:232-242 | the block handed out is the pool's, at the address returned, no smaller than asked; a chunk is added only if none has room |
| `PoolCache.DestroyFreesItsRegionsIff` | src/app/atp_memory_pool.cpp:182-208 | destroying a pool frees exactly the regions it was given if and only if it has one chunk |
| `PoolCache.GrownPoolFreedWrongly` | src/app/atp_memory_pool.cpp:158-208 | a reachable state, two calls from the start, whose pool has grown and would be destroyed by its release with wrong frees |
| `PoolCache.TeardownReturnsAll` | src/app/atp_memory_pool.cpp:250-280 | when all lists are empty no pool is left and `used_size_` is what failed requests added |
| `PoolHelpers.ClassMonotone` | src/app/atp_memory_pool.cpp:32-37 | the size classes are sorted, which the binary search needs |
| `PoolHelpers.BinarySearch` | src/app/atp_memory_pool.cpp:462-487 | finds the least class that holds the value, or 16 |
| `PoolHelpers.PoolHelper.constructor` | src/app/atp_memory_pool.cpp:282-305 | establishes the initial state and the invariant |
| `PoolHelpers.PoolHelper.ChunkAlloc` | src/app/atp_memory_policy.cpp:58-72 | counts the request whether or not it succeeds |
| `PoolHelpers.PoolHelper.AllocFromChunk` | src/app/atp_memory_pool.cpp:132-156 | bumps the chunk and records the block if the rounded size fits, else changes nothing |
| `PoolHelpers.PoolHelper.CreateChunkAppendPool` | src/app/atp_memory_pool.cpp:158-180 | puts the new chunk at the head, or only counts the failed request |
| `PoolHelpers.PoolHelper.PoolAlloc` | src/app/atp_memory_pool.cpp:232-242 | the walk over the list is first fit, then growth; keeps the invariant |
| `PoolHelpers.PoolHelper.CreateFresh` | src/app/atp_memory_pool.cpp:340-370 | header and first chunk in one region, pool at the head of the used list |
| `PoolHelpers.PoolHelper.TakeCached` | src/app/atp_memory_pool.cpp:376-387 | the oldest cached pool of the class moves to the used list |
| `PoolHelpers.PoolHelper.CreatePool` | src/app/atp_memory_pool.cpp:327-401 | is the creation step and keeps the invariant; the assert on the size never trips |
| `PoolHelpers.PoolHelper.InUsedList` | src/app/atp_memory_pool.cpp:413-421 | the walk finds the pool if and only if it is in use |
| `PoolHelpers.PoolHelper.ReleasePool` | src/app/atp_memory_pool.cpp:403-446 | is the release step and keeps the invariant |
| `PoolHelpers.PoolHelper.ReleasePool2` | src/app/atp_memory_pool.cpp:182-208 | one free of the whole region, for a pool with one chunk |
| `PoolHelpers.PoolHelper.Destroy` | src/app/atp_memory_pool.cpp:250-280 | leaves no pool, and `used_size_` at what failed requests added |
| `Wire.SwapInvolution` | src/net/atp_config.h:83-93 | the byte swaps are their own inverses |
| `Wire.WireIsBigEndian` | src/net/atp_config.h:83-93 | what is copied from a swapped 64-bit integer is its bytes, most significant first |
| `Wire.Wire32IsBigEndian` | src/net/atp_buffer.hpp:218-221 | the same for 32 bits |
| `Wire.ParseIsBigEndian64` | src/net/atp_buffer.hpp:302-311 | what is swapped after the copy is the integer whose most significant byte comes first |
| `Wire.ParseIsBigEndian32` | src/net/atp_buffer.hpp:291-300 | the same for 32 bits |
| `Wire.ReadIsBigEndian64` | src/net/atp_buffer.hpp:302-329 | too few bytes or the integer -1 give -1 and leave all; otherwise the integer in network order, and the bytes after it are left |
| `Wire.ReadIsBigEndian32` | src/net/atp_buffer.hpp:291-320 | the same for 32 bits |
| `Wire.ParseWire` | src/net/atp_buffer.hpp:291-311 | reading back what was written gives the integer, whatever follows |
| `Wire.RoundTrip64Iff` | src/net/atp_buffer.hpp:322-329 | n reads from the wire form of n 64-bit integers return them and leave nothing if and only if -1 is not among them |
| `Wire.RoundTrip32Iff` | src/net/atp_buffer.hpp:313-320 | the same for 32 bits |
| `BufferModel.NextRefines` | src/net/atp_buffer.hpp:158-403 | an operation that is not refused changes the contents, and answers its caller, as on a plain sequence of bytes, given by prefixes, rests and integers in network order; it keeps the indices in order |
| `BufferModel.DecreaseCarriedOut` | src/net/atp_buffer.hpp:266-280 | a decrease within the writable bytes is carried out and gives the capacity back |
| `BufferModel.TakenDropped` | src/net/atp_buffer.hpp:371-403 | what is consumed followed by what is left is what there was |
| `BufferModel.RunRefines` | src/net/atp_buffer.hpp:158-403 | over every run, the contents at the end and every answer on the way are those of a plain sequence on which the operations not refused are run |
| `BufferModel.RefusedIff` | src/net/atp_buffer.hpp:158-403 | the i-th operation of a run is refused exactly when its condition fails in the state the run has reached |
| `BufferModel.AppendRoom` | src/net/atp_buffer.hpp:158-208 | an append within the byte budget always finds room; it keeps or resets the read index, and the capacity stays within twice the header and three times the bytes held |
| `BufferModel.BudgetedRunIsPlain` | src/net/atp_buffer.hpp:158-403 | in a run whose prepends together fit the header and whose bytes together fit memory, contents and all answers are those of a plain sequence, but for refused decreases; the capacity is linear in what is written, plus a header for each decrease |
| `BufferModel.SlideWindow` | src/net/atp_buffer.hpp:260-264 | what a window shows after its bytes were copied down, and that this is what it showed before if and only if the bytes repeat at that distance |
| `BufferModel.ReadvDeliversAllIff` | src/net/atp_buffer.hpp:335-369 | nothing is lost if and only if the spill has no zero byte |
| `BufferModel.DeliveredIsLongest` | src/net/atp_buffer.hpp:358-365 | what is delivered is the longest beginning of what arrived without a zero byte past the writable part |
| `ByteBuffers.ByteBuffer.constructor` | src/net/atp_buffer.hpp:37-47 | an empty buffer with the given header |
| `ByteBuffers.ByteBuffer.UpdateReadWriteIndex` | src/net/atp_buffer.hpp:80-98 | sets or adds modulo 2^64; zero leaves an index alone |
| `ByteBuffers.ByteBuffer.Reset` | src/net/atp_buffer.hpp:138-140 | the contents become empty, the read index the header size |
| `ByteBuffers.ByteBuffer.Reallocate` | src/net/atp_buffer.hpp:162-174 | the unread bytes sit after the header of a block twice as large plus the length |
| `ByteBuffers.ByteBuffer.Compact` | src/net/atp_buffer.hpp:175-184 | the unread bytes slide down to the header, overlapping or not |
| `ByteBuffers.ByteBuffer.Grow` | src/net/atp_buffer.hpp:158-185 | for every length: contents kept and no assert tripped if and only if it reallocates with a header or nothing read, or compacts a buffer with a header that was read from; then the new capacity and read index, and room for the length |
| `ByteBuffers.ByteBuffer.Append` | src/net/atp_buffer.hpp:201-208 | contents + data if and only if there is room, a header, or nothing was read; then the whole new state, capacity and read index included |
| `ByteBuffers.ByteBuffer.Prepend` | src/net/atp_buffer.hpp:187-192 | data + contents, by adding the wrapped-around negative size to the index |
| `ByteBuffers.ByteBuffer.PrependInt32` | src/net/atp_buffer.hpp:187-192 | the integer's wire form + contents |
| `ByteBuffers.ByteBuffer.PrependInt64` | src/net/atp_buffer.hpp:194-199 | the integer's wire form + contents |
| `ByteBuffers.ByteBuffer.AppendInt32` | src/net/atp_buffer.hpp:218-221 | contents + the integer's wire form, under the condition of append |
| `ByteBuffers.ByteBuffer.AppendInt64` | src/net/atp_buffer.hpp:223-226 | contents + the integer's wire form, under the condition of append |
| `ByteBuffers.ByteBuffer.Remove` | src/net/atp_buffer.hpp:283-289 | drops a prefix, or everything |
| `ByteBuffers.ByteBuffer.Consume` | src/net/atp_buffer.hpp:371-403 | returns the first bytes, so that they and what is left are what there was; beyond the end everything, or with verification nothing |
| `ByteBuffers.ByteBuffer.PeekInt32` | src/net/atp_buffer.hpp:291-300 | the big-endian integer at the front, -1 if too short |
| `ByteBuffers.ByteBuffer.PeekInt64` | src/net/atp_buffer.hpp:302-311 | the big-endian integer at the front, -1 if too short |
| `ByteBuffers.ByteBuffer.ReadInt32` | src/net/atp_buffer.hpp:313-320 | the same, consumed unless it is -1 |
| `ByteBuffers.ByteBuffer.ReadInt64` | src/net/atp_buffer.hpp:322-329 | the same, consumed unless it is -1 |
| `ByteBuffers.ByteBuffer.SlideDown` | src/net/atp_buffer.hpp:260-264 | the unread bytes move down without the indices, so the window shows them shifted over themselves |
| `ByteBuffers.ByteBuffer.ShrinkBlock` | src/net/atp_buffer.hpp:266-280 | a block smaller by the length, contents kept if and only if there is a header or nothing was read |
| `ByteBuffers.ByteBuffer.Decrease` | src/net/atp_buffer.hpp:254-281 | gives writable bytes back, contents kept if and only if there is a header, nothing was read, or nothing is given back; beyond the writable bytes the block stays, contents kept if and only if the available bytes fall short too or the contents repeat at the distance of the slide |
| `ByteBuffers.ByteBuffer.TakeSpill` | src/net/atp_buffer.hpp:361-364 | room for the whole spill block, and contents + the string found in it, if and only if there is a header or nothing was read |
| `ByteBuffers.ByteBuffer.Receive` | src/net/atp_buffer.hpp:358-365 | contents + what arrived, the spill cut at its first zero byte, under the condition of append; then the whole new state |
| `ByteBuffers.ByteBuffer.Readv` | src/net/atp_buffer.hpp:335-369 | the same, and on an error or end of file no change and the code to return |
| `ByteBuffers.Perform` | src/net/atp_buffer.hpp:158-403 | each operation of the real buffer is the operation of the value, refusal and answer included |
| `ByteBuffers.Run` | src/net/atp_buffer.hpp:158-403 | so is any run: final state and all answers |
| `ByteBuffers.AppendPieces` | src/net/atp_buffer.hpp:201-208 | appending pieces, through any growth and compaction, appends their concatenation and keeps or resets the read index |
| `ByteBuffers.WriteFrame` | src/net/atp_buffer.hpp:187-208 | after a payload was appended in pieces to an empty buffer, the room assert of the length prepend holds if and only if the header has 8 bytes; then the buffer holds length and payload |
| `ByteBuffers.FrameRoundTrip` | src/net/atp_buffer.hpp:187-403 | reading the length and consuming that many bytes returns the payload and leaves the buffer empty |
| `ByteBuffers.RoundTripInts64` | src/net/atp_buffer.hpp:223-329 | a list of 64-bit integers appended to an empty buffer, header or not, is read back and leaves nothing if and only if -1 is not in it |
| `ByteBuffers.RoundTripInts32` | src/net/atp_buffer.hpp:218-320 | the same for 32 bits |
| `ByteBuffers.HeaderlessAppendFails` | src/net/atp_buffer.hpp:158-208 | a buffer without a header loses its contents: append, partial read, append that grows |
| `ByteBuffers.HeaderlessDecreaseFails` | src/net/atp_buffer.hpp:266-280 | the same with a decrease |
| `ByteBuffers.NeedlessGrowFails` | src/net/atp_buffer.hpp:175-177 | grow on a new buffer with room trips its assert |
| `ByteBuffers.DecreaseOverwritesContents` | src/net/atp_buffer.hpp:259-264 | a decrease beyond the writable bytes after a partial read shows a byte twice |
| `ByteBuffers.MinusOneStays` | src/net/atp_buffer.hpp:302-329 | a 64-bit -1 is found by each of two reads and is still there |
| `ByteBuffers.MinusOneStays32` | src/net/atp_buffer.hpp:291-320 | the same for 32 bits |
| `ByteBuffers.SpillIsCut` | src/net/atp_buffer.hpp:335-369 | four bytes arrive at one writable byte and two of them are lost |
| `Connections.StepInv` | src/net/atp_tcp_conn.cpp:56-160 | sends, direct, partial, refused or queued, write events and closing keep byte counts, write interest and honest completions |
| `Connections.InterestAndCompletions` | src/net/atp_tcp_conn.cpp:71-151 | over every run, refused sends included, write interest is up exactly while bytes are buffered, accepted and buffered counts add up to the submitted, and each write-complete call found as many bytes accepted as submitted |
| `Connections.KernelAndCaller` | src/net/atp_tcp_conn.cpp:56-164 | over every run, as many bytes count as accepted as the kernel said it took; the write-complete callback was called after exactly the events in which the kernel took all that waited, with what was accepted and submitted then; the connection is open exactly until it is closed or a write fails for good |
| `Connections.StepStream` | src/net/atp_tcp_conn.cpp:56-151 | each event appends its piece to accepted bytes followed by buffered bytes |
| `Connections.OutputIsStream` | src/net/atp_tcp_conn.cpp:56-151 | over every run, accepted bytes then buffered bytes are the pieces of the sends in order, whatever partial counts the kernel picks |
| `Connections.OutputConservedIff` | src/net/atp_tcp_conn.cpp:56-151 | they are all submitted bytes if and only if in every refused direct send of the run all bytes equal the byte in memory before the data |
| `Connections.CompletionsExact` | src/net/atp_tcp_conn.cpp:71-147 | in those runs the bytes accepted at each write-complete call are the bytes submitted |
| `Connections.OutputConserved` | src/net/atp_tcp_conn.cpp:56-151 | in particular when every direct send is answered with a count |
| `Connections.RefusedSendShifts` | src/net/atp_tcp_conn.cpp:71-87 | a refused send of the bytes 1 and 2 as first call puts 0 and 1 on the way |
| `Connections.Channel.constructor` | src/net/atp_channel.cpp:36-52 | interest as given, not yet attached, nothing registered |
| `Connections.Channel.AttachToEventLoop` | src/net/atp_channel.cpp:62-89 | attached, with exactly the present interest registered, if libevent accepts, detached first if it was; nothing without interest |
| `Connections.Channel.DetachFromEventLoop` | src/net/atp_channel.cpp:91-96 | detached and nothing registered if libevent accepts |
| `Connections.Channel.UpdateEvents` | src/net/atp_channel.cpp:98-106 | without interest detached; with it re-registered for exactly that interest |
| `Connections.Channel.EnableEvents` | src/net/atp_channel.cpp:120-135 | adds interest, never removes it, and keeps what libevent watches equal to it |
| `Connections.Channel.DisableEvents` | src/net/atp_channel.cpp:137-152 | removes just that interest, and keeps what libevent watches equal to it |
| `Connections.Channel.DisableAllEvents` | src/net/atp_channel.cpp:154-159 | no interest, and nothing watched |
| `Connections.Channel.Close` | src/net/atp_channel.cpp:108-118 | detaches and forgets the event, once |
| `Connections.Connection.constructor` | src/net/atp_tcp_conn.cpp:12-32 | nothing submitted, nothing buffered, no interest |
| `Connections.Connection.WriteRegisteredIff` | src/net/atp_channel.cpp:62-89 | libevent watches for writability exactly while the connection is open and bytes are buffered |
| `Connections.Connection.AttachToEventLoop` | src/net/atp_tcp_conn.cpp:43-54 | read interest only, registered when libevent accepts; the output side is untouched |
| `Connections.Connection.SendDirect` | src/net/atp_tcp_conn.cpp:71-81 | what the kernel took is accepted, what is left is returned, and a complete send calls back |
| `Connections.Connection.Send` | src/net/atp_tcp_conn.cpp:56-91 | is the send step on the real buffer and channel, also on a closed connection while nothing is left to buffer; what libevent watches stays equal to the interest when it accepts |
| `Connections.Connection.SendOnLoop` | src/net/atp_tcp_conn.cpp:61-88 | the task on the loop is the send step for data that is not empty |
| `Connections.Connection.SendBuffer` | src/net/atp_tcp_conn.cpp:93-102 | sends the buffer's whole contents and leaves it empty; what libevent watches stays equal to the interest |
| `Connections.Connection.NetFdWriteHandle` | src/net/atp_tcp_conn.cpp:130-151 | is the write step on the real buffer and channel: progress, retry, or closing on any other error; what libevent watches stays equal to the interest |
| `Connections.Connection.Drain` | src/net/atp_tcp_conn.cpp:138-147 | the bytes taken leave the buffer; when it is empty write interest goes and the callback is called |
| `Connections.Connection.NetFdCloseHandle` | src/net/atp_tcp_conn.cpp:153-160 | is the close step, also when already closed; the channel is detached if libevent accepts |
| `Connections.Handle` | src/net/atp_tcp_conn.cpp:56-160 | each event of the real connection is the step of the protocol |
| `Connections.Drive` | src/net/atp_tcp_conn.cpp:56-160 | every run of the protocol can be driven through the real buffer and channel, within a byte budget; it ends in that run's state, with writability watched exactly while the connection is open and bytes are buffered |
| `TimingWheel.StepInv` | src/net/atp_timing_wheel.hpp:121-147 | ticks and touches keep the buckets and the last-activity map in agreement, bucket by bucket |
| `TimingWheel.WheelAgreesWithTimestamps` | src/net/atp_timing_wheel.hpp:121-147 | in every reachable state exactly the connections touched fewer than `slots` ticks ago are held |
| `TimingWheel.HeldIffTouchedRecently` | src/net/atp_timing_wheel.hpp:121-147 | after every run exactly the connections touched in it fewer than `slots` ticks ago are held |
| `TimingWheel.TickDropsExactlyExpired` | src/net/atp_tcp_server.cpp:131-145 | a tick drops exactly those whose last touch is now `slots` ticks old |
| `TimingWheel.IdleEntryExpiresOnTime` | src/net/atp_tcp_server.h:74-84 | a connection not touched again survives exactly `slots - 1` further ticks, whatever the others do |
| `TimingWheel.RingBuffer.constructor` | src/net/atp_ring_buffer.hpp:41-43 | an empty ring of that size |
| `TimingWheel.RingBuffer.PushBack` | src/net/atp_ring_buffer.hpp:51-61 | appends, dropping the oldest when full; never above its size |
| `TimingWheel.Wheel.constructor` | src/net/atp_timing_wheel.hpp:123-126 | the empty wheel |
| `TimingWheel.Wheel.PushBack` | src/net/atp_timing_wheel.hpp:133-135 | is the touch step |
| `TimingWheel.Wheel.PushBucket` | src/net/atp_timing_wheel.hpp:102-139 | is the tick step, and the connections closed by it are those idle for exactly `slots` ticks |
| `Base64.CodeTable` | src/app/atp_base64.cpp:9-23 | the table and the arithmetic of base2Char are one alphabet |
| `Base64.AlphabetInverse` | src/app/atp_base64.cpp:11-38 | base2Char and char2Base are inverse |
| `Base64.AlphabetIsRfc` | src/app/atp_base64.cpp:9-23 | the alphabet is table 1 of RFC 4648 |
| `Base64.EncodedMeetsRfc` | src/app/atp_base64.cpp:40-82 | the encoder's output is the encoding of section 4 of RFC 4648 |
| `Base64.RfcIsUnique` | src/app/atp_base64.cpp:40-82 | that encoding is unique, so the output is determined by the RFC alone |
| `Base64.OctetsLength` | src/app/atp_base64.cpp:84-134 | m characters decode to floor(3m/4) bytes |
| `Base64.BrokenOff` | src/app/atp_base64.cpp:96-129 | a text that breaks off inside a quantum decodes to the beginning of what it decodes to with zeros in the missing places |
| `Base64.EncodeLenExact` | src/app/atp_base64.cpp:136-138 | an encoding and its zero byte fill the buffer exactly |
| `Base64.DecodeLenBounds` | src/app/atp_base64.cpp:140-142 | the decoded bytes fit the buffer, with at most two to spare |
| `Base64.DecodeEncode` | src/app/atp_base64.cpp:40-134 | decoding an encoding gives the bytes back, for all byte strings |
| `Base64.EncodeDecodeIff` | src/app/atp_base64.cpp:40-134 | encoding a decoding gives the text back if and only if it is canonical |
| `Base64.DecodeTerminatesIff` | src/app/atp_base64.cpp:97-108 | the decoder terminates if and only if every character before the first '=' or NUL is in the alphabet |
| `Base64.DecoderLoops` | src/app/atp_base64.cpp:97-108 | the text "A-" is read forever |
| `Base64.Lookup` | src/app/atp_base64.cpp:9-9 | the table entry is base2Char's character |
| `Base64.EncodeQuantum` | src/app/atp_base64.cpp:52-76 | one turn of the loop writes the next four characters of the encoding |
| `Base64.EncodeInto` | src/app/atp_base64.cpp:50-79 | the loop writes the encoding and its zero byte within the buffer |
| `Base64.Encode` | src/app/atp_base64.cpp:40-82 | false on the empty string, otherwise the encoding; every write is in bounds |
| `Base64.DecodeChar` | src/app/atp_base64.cpp:110-127 | one turn writes the byte the character completes and carries the other bits on |
| `Base64.Decode` | src/app/atp_base64.cpp:84-134 | false on the empty string, otherwise the decoding; every write is in bounds |

## Left out

- Decrease: a length above the writable bytes only while the header and the unread bytes fit the block; otherwise an unsigned difference wraps around and the move leaves the block.
- Readv: a full spill block of 65536 bytes must contain a zero byte; otherwise its string runs past the block.
- ReleasePool: a pool that is to be destroyed has one chunk; `DestroyFreesItsRegionsIff` proves that otherwise the heap is corrupted, and no further run is modelled.
- ReleaseInv: likewise.
- PoolMemorySafety: likewise, for the releases of the run.
- CacheAccounting: likewise, for the releases of the run.
- TeardownReturnsAll: likewise, for every live pool.
- ReleasePool2: likewise; the walk over further chunks appears only as the calls it would make, in `DestroyFreesItsRegionsIff`.
- Destroy: of the pool helper, likewise for every live pool.
- Send: on the loop thread. A direct send that fails for good closes the channel and then uses its freed event, as does a send on a closed connection that leaves bytes to buffer; neither is modelled. From another thread the task would refer to the caller's finished stack frame.
- Decode: for texts it terminates on; `DecodeTerminatesIff` says which.
- EncodeInto: masks and shifts are div and mod, and an or of disjoint bits is a sum; lengths are unbounded where the code uses `int`.
- PushBack: of the wheel, after the first tick; before it `back()` of an empty list is undefined.
- NewChunkSizeBounds: sizes are unbounded; the runs of the pool speak for the machine where `ChunkCountFitsIff` says that it computes the same size.
- EventfdNotifyHandle: the pipe variant of the watcher, `stop` and the loop's own lifetime are not modelled.
- Reference counts of timing-wheel entries are modelled as membership in buckets; the cycle timer is the source of ticks.
- Thread creation, joining in the reaper and callbacks that throw.
- Names of pools and the helper's mutex: its functions are atomic steps.
- Sockets, the listener and libevent itself.
- HTTPS, curl, Redis, the JSON codec, AES and RSA, UUID, protobuf and RPC: thin calls into other libraries.
- Event loop pools, thread storage, `any`, logging and configuration: they would only add easy members.
