# Verified models of Itoyori

Itoyori is a distributed fork-join runtime: threads are scheduled by work stealing, and they share a global address
space through a software cache in every process. This project models the parts of it whose correctness is decided by
the code itself, and proves what they promise.

| file | what it models |
|---|---|
| WsQueue.dfy | the work-stealing queue and its lock, step by step, with any number of thieves and passers |
| Scheduler.dfy | the child-first fork-join scheduler over those queues, with its join race |
| Coherence.dfy, CoherenceSteps.dfy | the caches of all processes, write-back without blocking, release by epoch, and acquire; its invariant, kept by every step |
| CachePromises.dfy, ReadonlyRegions.dfy | what the caches promise to programs; the read-only regions and where they fail |
| Progress.dfy | no acquire can get stuck: a path by which it returns from every reachable state |
| HomeVersions.dfy | what home memory holds while later versions are still on their way |
| CacheManager.dfy | the cache of one process as an object that is updated in place, shown to take the steps of Coherence.dfy |
| RegionSet.dfy, BlockBytes.dfy | the lists of byte regions that record what is valid and dirty; the fetches, puts and invalidation of one block that run on them, shown to take the steps of Coherence.dfy |
| CacheTable.dfy, Tlb.dfy, BlockMap.dfy | the table of cache blocks with its eviction order, the translation table, and the batched changes of the virtual-memory map |
| StableOrder.dfy, ParallelMerge.dfy | what stable sorting means; the in-place merge with its split search and rotation, and the merge sort |
| Reduce.dfy | parallel reduction and inclusive scan |
| Placement.dfy, CollMem.dfy | the distributions of global memory, the tiling of requests, and the uncached get and put |
| FreeList.dfy | the coalescing free list of the allocators |
| Broadcast.dfy | the binary tree by which collective tasks and exit requests spread |
| Options.dfy, Arithmetic.dfy | an optional value; facts about division |

`dafny verify dfyconfig.toml` checks the whole project.

## How it is modelled

- Every remote operation, atomic, or load and store of shared memory is one atomic step of a state machine, and memory
  is sequentially consistent; the fence in the queue's pop is where the code asks for that. A thief or a joiner may be
  anywhere between two of its steps when another process takes one.
- The scheduler uses the queue as an atomic double-ended queue; WsQueue.dfy proves that it is one, and
  `Scheduler.QueueUseIsDeque` that the scheduler asks no more of it. A stolen frame is copied in a step of its own, with
  the queue still locked. A thread frame is a token, and a thread joins only the threads it forked itself, each once.
  The auxiliary field `place` names the one holder of a frame.
- The coherence machine stores version numbers instead of data: version n of a byte is its n-th write. A program without
  data races is modelled by the guard of a checkout: the last write of each byte happened before it (`known`), and no
  conflicting checkout is open. A checkout to write counts as the write, since all bytes of it are registered as dirty
  at checkin. A put takes effect at any moment between its start and its flush, and takes the bytes as they were or
  as they are. A cache block may be evicted and a write-back begun or completed at any idle moment, which covers every
  cache size and every limit on dirty blocks. Checking out and completing the checkout are one step.
- Where code works in place, the model does: classes with fields and arrays, proved against functions or predicates on
  values. Iterators are indices. The two branches of a parallel invocation touch disjoint ranges; both orders of
  execution are allowed where the order could matter. Whether a fork was serialized is a free choice.
- The standard library's stable sort, in-place merge and partition point are replaced by small verified routines.
- The parameter `stable` of the merge stands for the template parameter. Without it the result is still proved sorted
  and a permutation.
- Rounding to a power of two is modelled as rounding to a multiple; epochs and timestamps do not overflow; moving the
  entries of a queue is a move between overlapping ranges.
- Steps whose guard names an index outside a table stutter; `WsQueue.AccessesInRange` and the invariants show that no
  reachable state takes such a step.

## One property that the code does not have

`set_readonly_coll` releases and waits for all processes, but does not invalidate. A process that holds an old copy of a
byte of the region keeps it through all later acquires, and then reads an old value without any data race.
`ReadonlyRegions.ReadonlyIsStale` gives the run, and `ReadonlyRegions.ReadonlyExact` the exact condition on the cache: the read
returns the last write if and only if the byte was not cached, or cached with its last version, when the region was set.
The caller's condition is that the process has synchronised with the last write of the region before the call
(`ReadonlyRegions.SynchronisedIsFresh`); without knowing what the cache has kept a caller can do with no less
(`ReadonlyRegions.SynchronisedIsExact`). An acquire between the collective release and the setting of the region would
therefore repair the code (`ReadonlyRegions.AcquireMakesFresh`). The coherence theorem holds for all programs that set regions
read-only under the condition on the cache (`Coherence.Fresh`).

## Model

| member | source | states |
|---|---|---|
| WsQueue.StepRefines | include/ityr/ito/wsqueue.hpp:36-264 | every step of the owner, a thief, an aborting thief or a passer keeps the invariant and is one step of an atomic double-ended queue with at most one entry in flight |
| WsQueue.ExactlyOnce | include/ityr/ito/wsqueue.hpp:36-264 | at every moment of every run, what was pushed and passed is what was delivered, is in the queue, or is held by a thief that may still give it back |
| WsQueue.NoDuplicate | include/ityr/ito/wsqueue.hpp:108-197 | an entry that came in once is in exactly one of the three places, so it is delivered at most once and never lost |
| WsQueue.EmptyPopIsExact | include/ityr/ito/wsqueue.hpp:98-156 | an insisting pop returns nothing only if the queue is empty and no thief holds an entry of it |
| WsQueue.ShiftFits | include/ityr/ito/wsqueue.hpp:379-401 | a shift keeps the entries inside the array; the shift of a pop never reports a full queue, that of a push does exactly when base is 0 |
| WsQueue.FullIsExact | include/ityr/ito/wsqueue.hpp:44-55 | the queue is reported full exactly to a push that finds base 0 and top at the capacity |
| WsQueue.AccessesInRange | include/ityr/ito/wsqueue.hpp:57-221 | no step touches an entry outside the array although base and top overshoot in between |
| WsQueue.MoveEntries | include/ityr/ito/wsqueue.hpp:397-397 | a shift preserves the sequence of entries and the size of the array |
| WsQueue.PriorityLock | include/ityr/common/global_lock.hpp:21-60 | for any number of other processes: one holder at most, the counter stays in 0..2, and from the owner's announcement until it unlocks no other process gets in |
| WsQueue.OwnerStepRefines | include/ityr/ito/wsqueue.hpp:36-156 | the same for each step of push, pop and for_each_entry |
| WsQueue.AgentStepRefines | include/ityr/ito/wsqueue.hpp:158-221 | the same for each step of steal_nolock, abort_steal and trypass |
| Scheduler.StepKeeps | include/ityr/ito/sched/randws.hpp:126-276 | every step of every worker keeps the fork-join invariant, for any number of workers, threads and children |
| Scheduler.RunsKeepInv | include/ityr/ito/sched/randws.hpp:64-276 | the invariant holds in every reachable state |
| Scheduler.QueueIsAncestorChain | include/ityr/ito/sched/randws.hpp:126-181 | the queue of a worker, after the frame being stolen from it, is a consecutive chain of ancestors ending at the parent of the running thread; a worker in the scheduling loop has an empty queue and nobody copies from its stack |
| Scheduler.FallbackIsParent | include/ityr/ito/sched/randws.hpp:422-429 | the entry popped at the death of a thread is its parent's frame, the one that continues |
| Scheduler.PoppedIsParent | include/ityr/ito/sched/randws.hpp:423-425 | the youngest entry of a dying thread's queue is its parent |
| Scheduler.WaitingParentIsAlone | include/ityr/ito/sched/randws.hpp:212-229 | a thread that has a child neither joined nor serialized runs with an empty queue, so suspending it strands no frame |
| Scheduler.ReadsAreWritten | include/ityr/ito/sched/randws.hpp:208-250 | the suspended state and the return value are read only after they were written, and a thread state is used only while it is allocated |
| Scheduler.ExactlyOnce | include/ityr/ito/sched/randws.hpp:189-255 | over whole runs a joiner is resumed as often as it was suspended, at most once; a join returns at most once; a thread state is freed at most once |
| Scheduler.JoinReturnsChildValue | include/ityr/ito/sched/randws.hpp:193-255 | a join returns the value that the body of that child returned, by the fast path and by both outcomes of the race |
| Scheduler.ResultIsFinal | include/ityr/ito/sched/randws.hpp:154-171 | the value a body returned never changes afterwards |
| Scheduler.OneHolder | include/ityr/ito/sched/randws.hpp:489-504 | a frame that a worker runs is in no queue and in no other worker's hands |
| Scheduler.NoLostThread | include/ityr/ito/sched/randws.hpp:258-276 | once all workers are in the scheduling loop every thread has finished, and the root's value is there to be returned |
| Scheduler.JoinRaceKeeps | include/ityr/ito/sched/randws.hpp:214-229 | the fetch-and-add of the joiner keeps the invariant whichever way the race goes |
| Scheduler.DieRaceKeeps | include/ityr/ito/sched/randws.hpp:438-449 | the fetch-and-add of the dying child keeps the invariant whichever way the race goes |
| Scheduler.StealKeeps | include/ityr/ito/sched/randws.hpp:465-487 | taking the oldest frame of another worker keeps the invariant |
| Scheduler.ArriveKeeps | include/ityr/ito/sched/randws.hpp:489-504 | finishing the copy, unlocking and resuming the frame keeps the invariant |
| Scheduler.QueueUseIsDeque | include/ityr/ito/sched/randws.hpp:144-146 | the step of a worker does to every queue exactly what `DequeEvent` names: a push or pop of its own queue, a steal from the victim's, the end of that steal, or nothing; each is a step of the atomic queue that WsQueue.dfy provides |
| Scheduler.GiveUpIsEmptyPop | include/ityr/ito/sched/randws.hpp:423-429 | a dying thread gives up its parent exactly on the exact empty answer of its queue |
| CoherenceSteps.StepKeeps | include/ityr/ori/cache_manager.hpp:93-635 | every step of every process, including a put landing at any moment, keeps the coherence invariant |
| CoherenceSteps.RunsKeepInv | include/ityr/ori/cache_manager.hpp:93-635 | the invariant holds in every reachable state |
| CachePromises.ReadsSeeLastWrite | include/ityr/ori/cache_manager.hpp:215-252 | in every reachable state, what a process has checked out without a data race shows the last write |
| CachePromises.AcquireCovers | include/ityr/ori/cache_manager.hpp:243-252 | when acquire returns, every version the handler makes known and nobody overwrote is at home, and the acquirer keeps no copy outside its read-only regions |
| CoherenceSteps.AcquiredByte | include/ityr/ori/release_manager.hpp:46-63 | no version that an acquired handler makes known is still dirty, in flight or being written anywhere |
| HomeVersions.StepHome | include/ityr/ori/cache_manager.hpp:93-635 | no step but a discard takes home memory back to an older version, and what any process or handler makes known is at home, being written, or on its way from the process the handler names |
| HomeVersions.ReleasedIsHome | include/ityr/ori/cache_manager.hpp:243-252 | over whole runs: from the end of an acquire on, home holds what the releasing process knew or something later, also when the writer has written the byte again |
| HomeVersions.HomeOnlyAdvances | include/ityr/ori/cache_manager.hpp:548-600 | over whole runs, the version at home of a byte that is never discarded only grows |
| CoherenceSteps.NewSnap | include/ityr/ori/cache_manager.hpp:222-233 | a handler made while a version it makes known is still pending names the writer of that version and an epoch the writer has yet to reach |
| CachePromises.DisjointWritesSurvive | include/ityr/ori/cache_manager.hpp:521-600 | once all caches are clean home holds the last write of every byte, also where several processes wrote different bytes of one block |
| CachePromises.PutsAreOwn | include/ityr/ori/cache_manager.hpp:548-578 | a put changes only bytes whose last version its own process wrote and nobody else has pending |
| CachePromises.FetchIsSafe | include/ityr/ori/cache_manager.hpp:429-501 | a padded fetch covers the request, stays in its block, and overwrites no valid byte, hence no dirty one; dirty bytes are valid and their blocks are listed |
| Coherence.PadInBlock | include/ityr/ori/cache_manager.hpp:429-432 | padding to sub-blocks never leaves the block |
| CachePromises.EvictIsSafe | include/ityr/ori/cache_manager.hpp:390-402 | an eviction drops nothing that is checked out, dirty or in flight |
| CachePromises.EpochAdvancesClean | include/ityr/ori/cache_manager.hpp:596-599 | the release epoch advances by one, and only when nothing is dirty or in flight |
| CachePromises.RequestsMonotone | include/ityr/ori/release_manager.hpp:83-99 | the requested epoch only grows and never exceeds the current one by more than one, whatever value the compare-and-swap guessed |
| CachePromises.PollSatisfies | include/ityr/ori/cache_manager.hpp:264-273 | one poll satisfies every outstanding request, which is the check at its end |
| CachePromises.NobodyWaitsForWaiting | include/ityr/ori/release_manager.hpp:46-63 | whoever waits in an acquire has already released everything it can be asked for, so there is no deadlock by mutual waiting |
| Progress.AcquireCanReturn | include/ityr/ori/release_manager.hpp:46-63 | in every state of every run, wherever an acquire and the process it waits for are, finitely many steps of these two, which begin nothing but polls, make it return with everything the handler makes known |
| Progress.RequestCanBeMet | include/ityr/ori/cache_manager.hpp:264-273 | whatever the named process is doing, its own write-back and one poll reach an epoch that meets the request |
| Progress.FinishBegin | include/ityr/ori/cache_manager.hpp:539-578 | the loop over the dirty blocks can always be finished, with the flushes it waits for |
| Progress.StepAsked | include/ityr/ori/release_manager.hpp:83-99 | whoever waits for a release has asked for it: the request at the target is at least what the handler requires |
| CoherenceSteps.CheckoutKeeps | include/ityr/ori/cache_manager.hpp:93-142 | a checkout in any mode keeps the invariant and gives a written byte a version that its writer alone knows |
| CoherenceSteps.CheckinKeeps | include/ityr/ori/cache_manager.hpp:193-213 | a checkin keeps the invariant, also when other checkouts of the block are open |
| CoherenceSteps.FlushedBytes | include/ityr/ori/cache_manager.hpp:580-600 | after a flush every byte that was put and not written again is at home in its last version |
| CoherenceSteps.DiscardKeeps | include/ityr/ori/cache_manager.hpp:289-308 | dropping the dirty bytes of freed memory keeps the invariant for all other bytes |
| CoherenceSteps.RequestKeeps | include/ityr/ori/release_manager.hpp:83-99 | each round of the compare-and-swap loop keeps the invariant |
| ReadonlyRegions.ReadonlyExact | include/ityr/ori/core.hpp:280-287 | with the region set read-only as the code does it, a race-free read after an acquire returns the last write if and only if no stale copy was cached |
| ReadonlyRegions.SynchronisedIsFresh | include/ityr/ori/core.hpp:280-287 | what a caller can check: a process that knows the last write keeps no stale copy when nothing is pending |
| ReadonlyRegions.SynchronisedIsExact | include/ityr/ori/core.hpp:280-287 | knowing the last write, or having the byte at home or read-only already, is the same as being safe whatever copy the invariant lets the cache keep |
| ReadonlyRegions.AcquireMakesFresh | include/ityr/ori/core.hpp:280-287 | an acquire of a handler that covers the region makes the call safe |
| ReadonlyRegions.AcquireIsSteps | include/ityr/ori/cache_manager.hpp:243-252 | the acquire of a clean process for a handler without a pending release, as five steps of the machine |
| ReadonlyRegions.ReadonlyIsStale | include/ityr/ori/core.hpp:280-287 | a run in which it was cached: after it and the setting of the region, steps of the machine let the reader acquire version 1 and check version 0 out without a race |
| CacheManagers.CacheManager.constructor | include/ityr/ori/cache_manager.hpp:32-47 | a new cache shows the initial process of the machine |
| CacheManagers.CacheManager.WritebackBegin | include/ityr/ori/cache_manager.hpp:539-546 | the loop over the listed blocks yields the machine's state after all rounds, no dirty byte and an empty list |
| CacheManagers.CacheManager.WritebackBeginBlock | include/ityr/ori/cache_manager.hpp:548-578 | a block with puts under way is flushed before it is put again |
| CacheManagers.CacheManager.WritebackComplete | include/ityr/ori/cache_manager.hpp:580-600 | the epoch counters advance as the machine's sets of pending blocks do; no block is being written back afterwards |
| CacheManagers.CacheManager.EnsureAllCacheClean | include/ityr/ori/cache_manager.hpp:275-279 | afterwards nothing is dirty or in flight, and the release epoch has advanced exactly if something was |
| CacheManagers.CacheManager.AddDirtyRegion | include/ityr/ori/cache_manager.hpp:521-537 | the bytes become dirty, the block is listed once, and write-through or the limit on dirty blocks cleans in the same call |
| CacheManagers.CacheManager.CheckoutBlk | include/ityr/ori/cache_manager.hpp:125-139 | the padded request, or in write mode the request alone, becomes valid and the block is pinned |
| CacheManagers.CacheManager.ReleaseLazy | include/ityr/ori/cache_manager.hpp:222-233 | the handler is the machine's |
| CacheManagers.CacheManager.Poll | include/ityr/ori/cache_manager.hpp:264-273 | afterwards no request is outstanding |
| CacheManagers.CacheManager.DiscardDirty | include/ityr/ori/cache_manager.hpp:289-308 | a block being written back is flushed first, then the bytes are no longer dirty |
| CacheManagers.CacheManager.InvalidateAll | include/ityr/ori/cache_manager.hpp:606-635 | the three cases of a block against the read-only regions all leave exactly the valid bytes inside the regions |
| CacheManagers.BegunIsSteps | include/ityr/ori/cache_manager.hpp:539-578 | a round of the loop is one step of the machine, or two with the arrival of all puts in between |
| CacheManagers.CacheManager.BegunEpoch | include/ityr/ori/cache_manager.hpp:539-546 | flushes inside the loop never advance the release epoch |
| RegionSets.RegionSet.Add | include/ityr/ori/block_region_set.hpp:90-119 | exactly the union of points, again canonical |
| RegionSets.RegionSet.AddFrom | include/ityr/ori/block_region_set.hpp:90-115 | the same from a hint, which it moves behind the added region |
| RegionSets.RegionSet.Remove | include/ityr/ori/block_region_set.hpp:121-152 | exactly the difference, again canonical |
| RegionSets.RegionSet.Include | include/ityr/ori/block_region_set.hpp:154-160 | true exactly when every point of the region is covered |
| RegionSets.RegionSet.Complement | include/ityr/ori/block_region_set.hpp:162-180 | exactly the points of the region that are not covered, as a canonical list |
| RegionSets.RegionSet.IntersectRegion | include/ityr/ori/block_region_set.hpp:182-209 | exactly the shared points, as a canonical list |
| RegionSets.RegionSet.IntersectSet | include/ityr/ori/block_region_set.hpp:211-241 | exactly the shared points of two sets, as a canonical list |
| BlockBytes.Block.FetchBegin | include/ityr/ori/cache_manager.hpp:466-501 | fetching the regions of the padded request that are not valid leaves exactly the valid bytes and the data that the machine's fetch does, and starts nothing exactly when all is valid |
| BlockBytes.Block.Checkout | include/ityr/ori/cache_manager.hpp:125-133 | a request to write only becomes valid without a fetch; any other one is fetched where it is not valid |
| BlockBytes.Block.MarkDirty | include/ityr/ori/cache_manager.hpp:521-526 | the region joins the dirty ones, and the answer says whether the block had none |
| BlockBytes.Block.PutDirty | include/ityr/ori/cache_manager.hpp:548-578 | putting the dirty regions gives home exactly the bytes that the machine sends, and leaves none dirty |
| BlockBytes.Block.Invalidate | include/ityr/ori/cache_manager.hpp:606-632 | exactly the valid bytes inside the read-only regions stay valid |
| BlockBytes.Block.ToOffsets | include/ityr/ori/cache_manager.hpp:626-629 | regions by address become regions by offset, each added behind the last |
| BlockBytes.Transfer | include/ityr/ori/cache_manager.hpp:480-494 | one transfer per region copies exactly the covered bytes |
| RegionSets.CanonicalUnique | include/ityr/ori/block_region_set.hpp:90-241 | a canonical list is determined by its points, so the specifications fix the lists |
| RegionSets.GetUnion | include/ityr/ori/block_region_set.hpp:49-53 | the union of two touching regions has the points of both |
| RegionSets.GetIntersection | include/ityr/ori/block_region_set.hpp:55-59 | the intersection of two overlapping regions has the shared points |
| CacheTable.LeastRecentlyUsed | include/ityr/ori/cache_system.hpp:51-75 | with nothing pinned the cache never reports that it is full, and after any sequence of uses it holds exactly the n most recently used blocks, in order |
| CacheTable.FullIsExact | include/ityr/ori/cache_system.hpp:144-161 | the exception is thrown exactly when the block is absent and every slot holds a pinned one |
| CacheTable.PinnedStay | include/ityr/ori/cache_system.hpp:144-161 | a pinned block keeps its slot, and the requested block is cached afterwards |
| CacheTable.CacheSystem.EnsureCached | include/ityr/ori/cache_system.hpp:51-75 | table, slots and order list stay consistent and follow the specification; an exception changes nothing |
| CacheTable.CacheSystem.GetEmptySlot | include/ityr/ori/cache_system.hpp:144-161 | the oldest slot that is free or evictable, whose block leaves the table |
| CacheTable.CacheSystem.EnsureEvicted | include/ityr/ori/cache_system.hpp:77-89 | the block leaves the table and its slot keeps its place in the order |
| CacheTable.CacheSystem.MoveToBackLru | include/ityr/ori/cache_system.hpp:138-142 | the slot becomes the newest and the others keep their order |
| CacheTable.CacheSystem.Contains | include/ityr/ori/cache_system.hpp:47-49 | true exactly when some slot caches the block |
| Tlbs.Tlb.Add | include/ityr/ori/tlb.hpp:21-39 | the translation is found from now on, none other appears, and only a free place or one with the smallest timestamp is lost |
| Tlbs.Tlb.Get | include/ityr/ori/tlb.hpp:42-59 | a hit is a stored translation, a miss means that there is none, and searching changes none |
| Tlbs.Tlb.Clear | include/ityr/ori/tlb.hpp:61-67 | no translation is left |
| BlockMaps.BlockMap.CheckoutFast | include/ityr/ori/cache_manager.hpp:50-91 | a hit of the fast path names the slot of the table, and outside a batch the memory map sends the block there |
| BlockMaps.BlockMap.CheckoutBlk | include/ityr/ori/cache_manager.hpp:93-142 | the slow path keeps translations, pending mappings, pins and table consistent, whatever it evicts; checked-out blocks stay in their slots; it fails, after writing everything back, exactly when the block is absent and every slot is checked out |
| BlockMaps.BlockMap.Checkin | include/ityr/ori/cache_manager.hpp:193-213 | one reference less; the block stays pinned exactly while it is checked out elsewhere or not clean, and the order of use is untouched |
| BlockMaps.BlockMap.Clean | include/ityr/ori/cache_manager.hpp:274-278 | after the write-back exactly the checked-out blocks are pinned |
| BlockMaps.BlockMap.CheckoutComplete | include/ityr/ori/cache_manager.hpp:144-156 | afterwards the memory map sends every cached block to its own slot, also when the batch evicted a block and cached it again elsewhere |
| BlockMaps.MapNext | include/ityr/ori/cache_manager.hpp:449-464 | unmapping the old address of a slot never removes the mapping of another one, because of the order of the batch |
| BlockMaps.JoinBatch | include/ityr/ori/cache_manager.hpp:109-120 | a slot that still has the mapping of a pending slot's block is pending itself and comes first |
| BlockMaps.BlockMap.Evicted | include/ityr/ori/cache_manager.hpp:281-283 | a freed block leaves table and translations, and its slot forgets its mapping |
| ParallelMerge.FindSplitPoints | include/ityr/pattern/parallel_merge.hpp:12-111 | for sorted ranges of at least three elements together the search ends inside both ranges, at points that separate lower from upper parts and are neither both begins nor both ends |
| ParallelMerge.SearchLarger | include/ityr/pattern/parallel_merge.hpp:45-111 | the same for the binary search over the larger range, without reading an end |
| ParallelMerge.FixStability | include/ityr/pattern/parallel_merge.hpp:200-222 | after the fix-up for equal keys no element of the exchanged left part is equivalent to one of the exchanged right part, and both recursive parts are smaller |
| ParallelMerge.InplaceMerge | include/ityr/pattern/parallel_merge.hpp:150-236 | sorted, the same elements, nothing else changed, and in the stable variant equivalent elements in their old order, for every strict weak order and cutoff |
| ParallelMerge.StableInplaceMerge | include/ityr/pattern/parallel_merge.hpp:270-289 | exactly the left-biased merge of the two halves |
| ParallelMerge.RotationSeparates | include/ityr/pattern/parallel_merge.hpp:224-231 | after the rotation everything before the new middle is in order with everything behind it |
| ParallelMerge.RotationRearranges | include/ityr/pattern/parallel_merge.hpp:224-231 | the rotation keeps the elements, and the order of equivalent ones where the cut is strict |
| ParallelMerge.SplitSeparates | include/ityr/pattern/parallel_merge.hpp:12-111 | what the two cut points mean for any two elements on different sides |
| ParallelMerge.Reverse | include/ityr/pattern/parallel_loop.hpp:1024-1033 | the range is reversed and nothing else changed, in whatever chunks the loop runs |
| ParallelMerge.Rotate | include/ityr/pattern/parallel_loop.hpp:1136-1150 | three reversals exchange the two parts, each in its order |
| ParallelMerge.MergeSort | include/ityr/pattern/parallel_sort.hpp:12-35 | sorted, the same elements, and in the stable variant equivalent elements in their old order |
| ParallelMerge.StableSort | include/ityr/pattern/parallel_sort.hpp:70-85 | the stable sort of the array, and the only one |
| StableOrder.StableSortUnique | include/ityr/pattern/parallel_sort.hpp:12-35 | two stable sorts of one sequence are equal |
| StableOrder.MergedIsStableSort | include/ityr/pattern/parallel_merge.hpp:150-236 | the left-biased merge of two sorted sequences is the stable sort of their concatenation |
| StableOrder.ExchangeKeepsClasses | include/ityr/pattern/parallel_merge.hpp:224-231 | exchanging two neighbouring parts without equivalent elements keeps the order inside every class of equivalent elements |
| Reduce.ParallelReduceGeneric | include/ityr/pattern/parallel_reduce.hpp:17-85 | for any monoid, cutoff and choice of serialized forks the result is the left fold, and a scan stores the initial value combined with every prefix |
| Reduce.CombineHalves | include/ityr/pattern/parallel_reduce.hpp:68-84 | a right half folded from the identity and combined later is the fold of the whole |
| Reduce.FoldShift | include/ityr/pattern/parallel_reduce.hpp:68-84 | multiplying into the fold is folding into the product, by associativity alone |
| Reduce.ForEachAux | include/ityr/pattern/serial_loop.hpp:60-90 | the chunked loop applies the operation to every element once, in order |
| Reduce.FixRightHalf | include/ityr/pattern/parallel_reduce.hpp:600-624 | the combination of a scan multiplies the left accumulator into each element of the right half |
| Placement.SegmentHolds | include/ityr/ori/mem_mapper.hpp:72-311 | for all three distributions an offset lies in its segment, whose bytes lie in the local memory of an existing rank, at block boundaries |
| Placement.SegmentsTile | include/ityr/ori/mem_mapper.hpp:72-311 | every offset of a segment gives the same segment |
| Placement.HomeRoundTrip | include/ityr/ori/mem_mapper.hpp:72-311 | rank and local offset determine the byte: the placement is injective, with its inverse |
| Placement.CyclicIsOnto | include/ityr/ori/mem_mapper.hpp:176-209 | the cyclic distribution uses every byte of every rank's memory |
| Placement.AdwsIsMirror | include/ityr/ori/mem_mapper.hpp:257-311 | the reversed block distribution is the mirror image of the block distribution |
| Placement.SegIdIs | include/ityr/ori/mem_mapper.hpp:82-126 | the segment number computed by division is the one whose range contains the block |
| CollMems.MappersArePlacements | include/ityr/ori/mem_mapper.hpp:35-61 | the three distributions satisfy what requests rely on |
| CollMems.CollMem.GetColl | include/ityr/ori/core.hpp:758-786 | the loops over segments and blocks copy exactly the requested part of one flat array |
| CollMems.CollMem.PutColl | include/ityr/ori/core.hpp:819-847 | the loops overwrite exactly the requested part of one flat array |
| CollMems.CollMem.GetBlocks | include/ityr/ori/core.hpp:23-33 | the blocks of a request cover it without gaps, and each lies in the memory of its owner |
| CollMems.CollMem.CopyIn | include/ityr/ori/core.hpp:826-834 | writing a part of a segment changes no byte outside the part |
| FreeLists.FreeList.Get | include/ityr/common/freelist.hpp:18-34 | the front of the first block that is large enough, and none exactly when no block is; free bytes shrink by exactly the result |
| FreeLists.FreeList.GetAligned | include/ityr/common/freelist.hpp:36-66 | an aligned block inside the free bytes, which shrink by exactly it; a failure leaves the list as it was; a block of size plus alignment is always enough |
| FreeLists.FreeList.Add | include/ityr/common/freelist.hpp:68-93 | free bytes grow by exactly the block, and the list stays sorted and fully merged |
| FreeLists.TakeShares | include/ityr/common/freelist.hpp:18-66 | a new block overlaps no live one, and free and live blocks still share out the arena |
| FreeLists.GiveShares | include/ityr/common/freelist.hpp:68-93 | a live block may be given back at any time, in any order |
| FreeLists.AllReturned | include/ityr/common/freelist.hpp:68-93 | with no live block the list is the single block it began with |
| FreeLists.RunsShareOut | include/ityr/common/freelist.hpp:18-93 | after any sequence of allocations and frees, free and live blocks share out the arena |
| FreeLists.RunsAreSafe | include/ityr/common/freelist.hpp:18-93 | no allocation of such a sequence overlaps a live block, and whenever all blocks are back, in whatever order, the list is the single block it began with |
| Broadcast.Targets | include/ityr/ito/sched/randws.hpp:656-668 | the halving loop from rank 0 sends to exactly the ranks whose parent in the tree is this one, once each |
| Broadcast.Forward | include/ityr/ito/sched/randws.hpp:592-604 | the same for any master, with ranks counted from it |
| Broadcast.ExactlyOneSender | include/ityr/ito/sched/randws.hpp:592-604 | for every number of ranks and master, each other rank is sent one message and the master none |
| Broadcast.ReachesAll | include/ityr/ito/sched/randws.hpp:592-604 | the message reaches every rank |
| Broadcast.NextPow2Is | include/ityr/common/util.hpp:102-111 | the bit smearing on 64-bit words yields, as a number, the least power of two that is not below its argument; the loops start from it |
| Broadcast.LowBitOfSum | include/ityr/ito/sched/randws.hpp:595-603 | a multiple of twice a power of two, plus that power, has it as its lowest bit |

## Left out

- Remote memory, windows, wire-up, shared mappings and files: calls into MPI, uTofu and the system, of which only "a put, get, fetch-and-add or compare-and-swap is a step, and a flush completes puts" is kept.
- Context switching, stack copying and assembly: a frame is a token, so overwriting of stack bytes is modelled only as "nobody copies from a stack whose worker is in the scheduling loop".
- C++ memory orders weaker than sequential consistency.
- The ADWS scheduler (floating-point ranges, range trees); the queue it uses is covered.
- Nested root and collective execution, migration, SPMD regions and the polling callbacks in the scheduler; user callbacks on stolen forks.
- Joining a thread from a thread that did not fork it, which the moved handles of the source allow.
- Pool allocators, the remotable resource and the non-collective memory behind the free list.
- The home manager, a smaller copy of the argument for cache table and mapping; in the coherence machine a process simply reads and writes local home memory.
- The NUMA segments of the mappers.
- Profilers, loggers, options, clocks, topology, iterators, spans, work hints, searches, shuffle, partition and global_vector.
- Exact values under data races, and cache contents of bytes that a process does not know the last version of.
- WsQueue.FullIsExact: the full-queue exception ends the run; recovery from it is not modelled.
- CachePromises.ReadsSeeLastWrite: covers read-only regions under the condition of `Coherence.Fresh`, since without it the property fails (see above); values are versions, so that two writes of equal data count as different.
- CacheTable.LeastRecentlyUsed: runs of `ensure_cached` that update the order; `ensure_evicted` leaves a free slot in place, so that afterwards an older block may be evicted although a slot is free.
- FreeLists.FreeList.GetAligned: as in the code, it may fail although an aligned block of the size exists in a free block smaller than size plus alignment.
- Reduce.ParallelReduceGeneric: the two halves of a fork that is not serialized run in either order rather than interleaved, since they write disjoint parts of the output.
- CacheManagers.CacheManager.CheckoutBlk: byte sets stand for the region sets; BlockBytes.dfy takes the same steps on region sets and data, block by block, and the table and the memory map are in the other files.
- BlockBytes.Block.PutDirty: one put after the other, each taking effect at once; the machine in Coherence.dfy lets them land at any later moment.
- BlockMaps.BlockMap.CheckoutBlk: always counts the reference; the small get and put of one block, which skip the count, are left out.
- Progress.AcquireCanReturn: gives a finite path from every reachable state; that a scheduler takes the path in the end (fairness) is not modelled.
- ReadonlyRegions.SynchronisedIsExact: compares all states that satisfy the invariant, whether or not a run reaches each of them.
- HomeVersions.ReleasedIsHome: says nothing of a byte after a discard, which drops the versions that are still dirty.
