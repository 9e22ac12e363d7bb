# Verified model of the MofuOS kernel core

This Dafny project models the parts of MofuOS in which concurrency, in-place data structures and
storage meet, and proves what they promise. It covers

- the multi-core scheduler: run queues threaded through the task slots, two epochs per core, work
  stealing, sleeping, waking, killing and reaping, as a step relation over any number of cores and
  tasks in which every atomic operation, and every body run under one run queue lock, is a step;
- wait queues and timed sleep, again in single atomic operations;
- the event ring between the kernel and a user program;
- the open-addressing hash map;
- the physical frame allocator, the page tables and regions of a process, its doubly mapped ring
  buffers, and the user-space allocator;
- the FAT32 driver down to the bytes on disk, and the write-back file cache above it.

Code that updates fields in place is a class or a method on arrays and is proved against a function
of its old state. Code that runs on several cores is a step relation, and its results hold in every
state of every run. `dafny verify dfyconfig.toml` checks the whole project.

Contracts write `P(..) == true` for a large predicate P where the verifier would otherwise take it apart
and prove each conjunct of it on its own; the meaning is that of `P(..)`.

| file | what it holds |
|---|---|
| QueueSpec, RunQueue, Fairness | run queues as values, the linked lists and bitmaps that implement them, order of arrival and bounded waiting |
| Scheduler, SchedulerSafety, SchedulerSlices, SchedulerWaiting, SchedulerRaces | the scheduler machine, what every step keeps, time slices, blocked and killed tasks, two runs in which the code fails |
| Wakeup, WaiterList | waiting, waking, killing and sleeping; the fixed-size waiter list |
| EventRing | one producer and one consumer on the shared ring |
| FxHashMap | the hash map |
| Frames, Paging, MapCost, UserMemory, Regions, AddressSpace | frames, the books of one address space, how many frames a mapping takes, the page tables, the regions, the whole life of a space |
| Arena | the user-space allocator |
| FatDisk, FatChains, FatFiles, DirEntry, Fat32 | disk bytes, cluster chains, chain contents, directory entries, the driver |
| FileCache, CacheDriver | the file cache, and why the driver it assumes is the FAT32 driver |

## Model

| member | source | states |
|---|---|---|
| QueueSpec.PickIsOldestOfHighest | kernel/src/process/scheduler.rs:309-320 | the picked task heads the highest non-empty level of its epoch, and the yielding epoch is used only when the executing one is empty |
| QueueSpec.PickRemoves | kernel/src/process/scheduler.rs:161-171 | a pick takes one occurrence of one task out and leaves every other task queued as often at its level |
| QueueSpec.StealRemoves | kernel/src/process/scheduler.rs:177-193 | a steal takes one occurrence of a task that is off its CPU and leaves the rest |
| QueueSpec.StealTakesFirstFree | kernel/src/process/scheduler.rs:322-330 | a thief tries the executing epoch first, and takes the oldest task off its CPU at the highest level that has one |
| QueueSpec.StealFailsOnlyIfAllOnCpu | kernel/src/process/scheduler.rs:322-330 | nothing is stolen only when every queued task is on a CPU |
| RunQueue.PushBack | kernel/src/process/scheduler.rs:65-77 | the links spell the old list with the slot behind it; no link outside is written |
| RunQueue.PopFront | kernel/src/process/scheduler.rs:79-91 | the head is returned and the links spell the rest |
| RunQueue.RemoveFirstOffCpu | kernel/src/process/scheduler.rs:93-121 | exactly the first accepted slot is unlinked, wherever it stands, and the tail stays right |
| RunQueue.RunQueues.PushExecutingTask | kernel/src/process/scheduler.rs:300-302 | the slot stands behind all tasks of its level of the executing epoch, which keep their places; every other list and core stays |
| RunQueue.RunQueues.PushYieldingTask | kernel/src/process/scheduler.rs:304-307 | the same for the yielding epoch |
| RunQueue.RunQueues.PickNextTask | kernel/src/process/scheduler.rs:309-320 | arrays, bitmaps and epoch swap do what QueueSpec.Pick does, and the slot is in no list afterwards |
| RunQueue.RunQueues.TakeStealableTask | kernel/src/process/scheduler.rs:322-329 | the same for QueueSpec.Steal |
| RunQueue.RunQueues.ContainsTask | kernel/src/process/scheduler.rs:331-333 | true exactly when some level of either epoch lists the slot |
| Fairness.TurnLowersBound | kernel/src/process/scheduler.rs:309-320 | a turn that picks another task brings every queued task strictly closer |
| Fairness.BoundedWaiting | kernel/src/process/scheduler.rs:680-730 | while picked tasks come back only through the yielding epoch, every queued task is picked within a bound given by the queue sizes |
| Fairness.FirstComeFirstServed | kernel/src/process/scheduler.rs:65-91 | over any series of pushes, picks and steals: of two tasks queued at one level of one epoch the later one is picked only after the earlier one has left |
| SchedulerSafety.StepKeepsInv | kernel/src/process/scheduler.rs:397-730 | every step but the two that fail keeps the invariant, with steals and wakes at any moment |
| SchedulerSafety.CalmRunsKeepInv | kernel/src/process/scheduler.rs:545-673 | so does every run of such steps |
| SchedulerSafety.NeverOnTwoCores | kernel/src/process/scheduler.rs:625-664 | no task executes on two cores, and its slot is not handed on while it executes |
| SchedulerSafety.QueuedOnCpuIsCurrentThere | kernel/src/process/scheduler.rs:698-721 | a queued task that is on a CPU is the current task of the core that owns the queue; nobody can pick or steal it |
| SchedulerSafety.QueuedExactlyOnce | kernel/src/process/scheduler.rs:434-453 | a queued task is Ready, in one list once, at its priority on its home core |
| SchedulerSafety.PushedIsNowhere | kernel/src/process/scheduler.rs:434-453 | a slot that a step pushes is in no list of any core, which is what RunQueue.RunQueues.PushTo demands |
| SchedulerSafety.PushedLast | kernel/src/process/scheduler.rs:300-307 | that slot joins the end of its level: of the yielding epoch if its task has chosen that, of the executing one after a wake or a steal |
| SchedulerSafety.ReadyIsNeverLost | kernel/src/process/scheduler.rs:490-504 | a Ready task is queued at home, or a waker or a core still has it |
| SchedulerSafety.CountersNeverUnderflow | kernel/src/process/scheduler.rs:352-359 | no counter of runnable tasks is decremented at zero |
| SchedulerSafety.QuietCountersCount | kernel/src/process/scheduler.rs:583-622 | between operations a counter is the number of Ready or Running tasks of its core, and a task is queued exactly when it is Ready |
| SchedulerSafety.DebugAssertionsHold | kernel/src/process/scheduler.rs:625-627 | a picked task is Ready, a blocking task was Running, a task requeues itself at home |
| SchedulerSlices.SliceLasts | kernel/src/process/scheduler.rs:369-395 | over any run: a task that is put on a core has one tick more than its priority, and loses one with each tick of that core |
| SchedulerSlices.SliceRunsOut | kernel/src/process/scheduler.rs:369-395 | the tick after that uses the slice up if and only if another task of the core can run |
| SchedulerSlices.SliceDecides | kernel/src/process/scheduler.rs:680-721 | over any calm run: a preempted task is queued behind its level of the yielding epoch if its slice was used up, else of the executing one |
| SchedulerWaiting.BlockedIsFindable | kernel/src/process/wait.rs:78-132 | a blocked task sleeps with its timer entry on its home core, or a waiter list or an unfinished waker or killer refers to it, or it is about to wake itself |
| SchedulerWaiting.KilledIsStopped | kernel/src/process/task.rs:312-322 | once a task has been killed it passes no check before a wait or a sleep any more |
| SchedulerSafety.ReapsForeignTaskIff | kernel/src/process/scheduler.rs:662-671 | a core that reads Dead frees a slot another core still holds if and only if it is no longer the home of the task |
| SchedulerSafety.TimerMisplacesIff | kernel/src/process/scheduler.rs:266-298 | a timer queues the task it wakes away from its home core if and only if its core is no longer the home |
| SchedulerRaces.FreedUnderARunningTask | kernel/src/process/scheduler.rs:662-671 | a reachable state in which one task is on two cores after the first of these |
| SchedulerRaces.WokenOnTheWrongCore | kernel/src/process/wait.rs:95-132 | the same after the second: a reference copied by wake_all wakes a later sleep, the task migrates, and its old timer entry is still there |
| Wakeup.NoLostWakeup | kernel/src/process/wait.rs:78-132 | whenever a task is blocked past its second look while its condition or its kill flag holds, an unfinished waker or killer will still wake it |
| Wakeup.DebtorsWake | kernel/src/process/wait.rs:95-112 | the next steps of that waker or killer make the task Ready |
| Wakeup.DebtorsReturn | kernel/src/process/wait.rs:95-132 | those steps and at most four of the task itself bring a wait whose condition or kill flag is set back to its caller |
| Wakeup.WaitReturnsIff | kernel/src/process/wait.rs:114-132 | in any run a wait returns in a step if and only if that step looks at the condition or the kill flag at the top of the loop and finds it set |
| Wakeup.ListChanges | kernel/src/process/wait.rs:83-108 | who changes the waiter list, and how often a task is on it afterwards |
| Wakeup.SleepersHaveTimers | kernel/src/process/scheduler.rs:417-432 | a sleeper always has its timer entry |
| Wakeup.SleepReturnsIff | kernel/src/process/wait.rs:134-145 | in any run a sleep returns in a step if and only if that step finds its time over or the kill flag set |
| Wakeup.SleepLosesKillIff | kernel/src/process/wait.rs:134-145 | a step loses a kill exactly when the task blocks on the timer with its kill flag set and no killer left to wake it |
| Wakeup.SleepCanMissAKill | kernel/src/process/wait.rs:134-145 | a run in which that happens |
| WaiterList.Waiters.RemoveStale | kernel/src/process/wait.rs:41-52 | every entry whose slot still waits under its id is kept as often as it was there, no other entry is |
| WaiterList.Waiters.Push | kernel/src/process/wait.rs:31-39 | the push overflows exactly when the list is full of live entries, and otherwise adds one occurrence |
| WaiterList.Waiters.Remove | kernel/src/process/wait.rs:54-62 | one occurrence less, nothing if there is none |
| WaiterList.Waiters.TakeAll | kernel/src/process/wait.rs:95-107 | the whole list is handed over and emptied |
| EventRing.DeliversInOrder | kernel/src/events/event_buffer.rs:208-229 | in every interleaving what is delivered is a prefix of what was accepted, and the ring never holds more than it can |
| EventRing.NoOverwriteNoEarlyRead | user/rustspace/src/lib.rs:1017-1041 | the slot about to be written holds no unread event, the slot about to be read holds the oldest one |
| EventRing.PushIsAccepted | kernel/src/events/event_buffer.rs:208-229 | whatever the consumer does meanwhile, a push that begins with room ends with its event accepted behind the others, and one that finds the ring full changes nothing |
| EventRing.PollIsServed | user/rustspace/src/lib.rs:1013-1041 | whatever the producer does meanwhile, a poll that begins with a positive count delivers the oldest unread event, and one that finds zero changes nothing |
| EventRing.EmptyMeansDrained | user/rustspace/src/lib.rs:1013-1041 | between calls the count is the number of undelivered events |
| FxHashMap.Map.Find | kernel/src/data_structures/hash_map_fx.rs:139-152 | finds the slot of a key exactly when the key is in the map |
| FxHashMap.Map.FindOrVacant | kernel/src/data_structures/hash_map_fx.rs:100-137 | the key's slot, or the first tombstone or empty slot of its probe sequence, which passes occupied slots only before; Full exactly when there is neither the key nor an empty slot |
| FxHashMap.Map.Get | kernel/src/data_structures/hash_map_fx.rs:139-152 | the value the map holds for the key |
| FxHashMap.Map.Remove | kernel/src/data_structures/hash_map_fx.rs:185-206 | the map without the key, and the value it had |
| FxHashMap.Map.Insert | kernel/src/data_structures/hash_map_fx.rs:100-137 | the map with the key set exactly when the key was there, an empty slot was left or the map grew; otherwise nothing changes |
| FxHashMap.Map.EntryOrInsert | kernel/src/data_structures/hash_map_fx.rs:208-246 | the same for entries, and in the remaining case slot 0 is overwritten and no map fits the slots and the counter any more |
| FxHashMap.Map.Grow | kernel/src/data_structures/hash_map_fx.rs:303-316 | twice the slots, the same map, no tombstone |
| FxHashMap.InsertCanFail | kernel/src/data_structures/hash_map_fx.rs:100-137 | a map of 16 slots, worn by insertions and removals, in which inserting a new key fails and changes nothing |
| FxHashMap.EntryCanOverwrite | kernel/src/data_structures/hash_map_fx.rs:371-386 | the same map, in which an entry destroys another key |
| Frames.Allocator.Allocate | kernel/src/memory/memory.rs:233-261 | the frame returned last, or else a usable, aligned frame nobody holds; None exactly when every usable frame is held, and one fewer is left otherwise |
| Frames.Allocator.Deallocate | kernel/src/memory/memory.rs:165-175 | the frame is nobody's again |
| Frames.Allocator.AllocatedBumpFrames | kernel/src/memory/memory.rs:192-220 | the statistics call returns the number of frames held |
| MapCost.NewTablesCounts | kernel/src/memory/usermem.rs:182-301 | the tables a mapping has to make are those of its pages that are missing, each counted once |
| Paging.SharedTables | kernel/src/memory/usermem.rs:93-96 | which pages share a table of which level |
| MapCost.LosesIff | kernel/src/memory/usermem.rs:182-301 | before the call: filling a range will unmap a page mapped earlier if and only if the frames are too few for the whole range but suffice to get past such a page |
| UserMemory.PageTables.MapVirtMemRegion | kernel/src/memory/usermem.rs:182-301 | fills each unmapped page of the range, exactly if there are frames enough for the pages and tables at the worst moment; otherwise it fails at the first page for which they are too few and unmaps every page below, which loses something if and only if one of those was mapped before |
| UserMemory.PageTables.MapEach | kernel/src/process/process_mem.rs:118-166 | maps the frames one per page, exactly if the tables can be made and no other frame is mapped there; or unmaps what this call mapped and leaves the frames to the caller |
| UserMemory.PageTables.UnmapPages | kernel/src/memory/usermem.rs:373-404 | the pages are gone and the frames behind owned ones are free |
| UserMemory.PageTables.FreeUserTables | kernel/src/memory/usermem.rs:406-454 | every lower table is freed exactly once |
| Regions.TrackRegion | kernel/src/process/process_mem.rs:239-284 | exactly the page-rounded range is added to the coverage of its kind; sorted stays sorted, disjoint and coalesced stays so |
| Regions.RoundedIs | kernel/src/process/process_mem.rs:239-284 | the rounded range takes in exactly the pages that share a byte with the region |
| Regions.CutRange | kernel/src/process/process_mem.rs:180-237 | exactly the range is taken from the coverage of one region; the list stays sorted if and only if no later region starts below the upper piece |
| Regions.FindFreeGap | kernel/src/process/process_mem.rs:382-414 | the lowest gap of the window that is large enough, None exactly when there is none |
| AddressSpace.Layout.MapOwnedRegion | kernel/src/process/process_mem.rs:87-114 | the range is filled and tracked as owned with its flags, exactly if there are frames enough; on failure nothing is tracked, no frame is kept and the pages below the failing one are unmapped |
| AddressSpace.PagesOfRange | kernel/src/process/process_mem.rs:87-114 | the pages that are filled are exactly those that share a byte with the range |
| AddressSpace.FailureCanLose | kernel/src/memory/usermem.rs:182-301 | two owned regions that share a page, in a machine of six frames: mapping the second fails and unmaps the shared page, while the first is still tracked |
| AddressSpace.Layout.MapFrames | kernel/src/process/process_mem.rs:118-166 | the frames are mapped and tracked, and owned ones change hands, exactly if the tables can be made and no other frame is mapped there; on failure they stay with the caller |
| AddressSpace.Layout.UnmapRegion | kernel/src/process/process_mem.rs:180-237 | the first region that holds the range loses it, page table and list alike; the list stays sorted exactly under CutKeepsOrder |
| AddressSpace.UnmapCanUnsort | kernel/src/process/process_mem.rs:180-237 | two overlapping regions and an unmap that leaves the list unsorted |
| AddressSpace.Layout.GrowHeap | kernel/src/process/process_mem.rs:312-357 | the heap reaches the requested end with every page filled, writable and not executable, exactly if that is in range and frames suffice; otherwise the heap end and the regions stay, and the pages below the failing one are unmapped |
| AddressSpace.Layout.MapForUser | kernel/src/data_structures/circular_buffer.rs:48-127 | succeeds exactly if the size is in range, a reservation is found and the tables of both views can be made; then the base is the next address of the window, or its lowest gap once that is used up, both views show the same frames page by page and are tracked with the flags asked for; otherwise nothing is left of the attempt |
| AddressSpace.Layout.FreeAddressSpace | kernel/src/process/process_mem.rs:416-447 | no page and no table is left and only frames of others are held |
| AddressSpace.WholeLife | kernel/src/process/process_mem.rs:75-447 | an address space created, used in any way with any failures and freed leaves exactly the frames held that were held before |
| Arena.Allocator.Alloc | user/rustspace/src/lib.rs:675-810 | a new pointer with its own bytes: the head of its size class, the first large node that holds it, whose remainder goes back in front, or the bump range; the system is asked exactly if none of these holds the request, at most once for alignments up to a page, and only its refusal gives Null; the pointer is aligned as asked, except exactly when it is a range of its own whose start is not |
| Arena.Allocator.Dealloc | user/rustspace/src/lib.rs:812-840 | the block stands in front of its free list, with its size if it is a large one, and nobody else is affected; a null pointer and a block of no bytes change nothing |
| Arena.FreedIsReused | user/rustspace/src/lib.rs:675-840 | the next request of the layout that was freed gets that block back, all lists are as before and the system is not asked |
| Arena.Allocator.Preallocate | user/rustspace/src/lib.rs:642-652 | the bump range is replaced and every held block stays |
| Arena.HeldApart | user/rustspace/src/lib.rs:585-840 | two held blocks never share a byte, and none reaches into a free one |
| Arena.GrantCanBeMisaligned | user/rustspace/src/lib.rs:778-785 | a request beyond a slab and a page boundary that gets a pointer without its alignment |
| Arena.SlabsCanBeWasted | user/rustspace/src/lib.rs:765-791 | a request that gives up two slabs it was given and then fails |
| FatChains.NoRepeat | kernel/src/filesystem/fat32/mod.rs:310-327 | a chain that ends cannot come back to a cluster, so following it terminates |
| FatChains.EndMarks | kernel/src/filesystem/fat32/mod.rs:254-272 | the entries that end a chain are 0x0FFFFFF8 to 0x0FFFFFFF |
| DirEntry.ReadBack | kernel/src/filesystem/fat32/direntry.rs:117-143 | an entry written and parsed is the same entry |
| DirEntry.WriteBack | kernel/src/filesystem/fat32/direntry.rs:339-356 | 32 bytes parsed and written are the same bytes |
| DirEntry.FieldOffsets | kernel/src/filesystem/fat32/direntry.rs:117-143 | at which bytes each field lies, lowest byte first, and which first byte marks an empty or a deleted entry |
| DirEntry.NodeIdRoundTrip | kernel/src/filesystem/fat32/mod.rs:59-76 | decoding gives the clusters and attributes back if and only if they fit their fields |
| DirEntry.PatchEntries | kernel/src/filesystem/fat32/mod.rs:457-503 | overwriting one listed record replaces that entry of the listing and no other |
| DirEntry.ListedUntilEmpty | kernel/src/filesystem/fat32/mod.rs:457-503 | a directory lists its records in order, up to the first one that starts with zero or the end of its bytes |
| Fat32.Driver.ReadFatEntry | kernel/src/filesystem/fat32/mod.rs:226-252 | the lower 28 bits of the four bytes at fat_start * 512 + 4 * cluster, lowest byte first |
| Fat32.Driver.WriteFatEntry | kernel/src/filesystem/fat32/mod.rs:422-452 | these bytes hold the value, the top four bits and every other byte of the disk stay |
| Fat32.Driver.GetNextCluster | kernel/src/filesystem/fat32/mod.rs:254-272 | the end from 0x0FFFFFF8 on, an error at 0x0FFFFFF7, else the next cluster |
| Fat32.Driver.ReadCluster | kernel/src/filesystem/fat32/mod.rs:218-224 | the bytes of the sectors the cluster number stands for |
| Fat32.Driver.AllocateCluster | kernel/src/filesystem/fat32/mod.rs:329-375 | the lowest free cluster becomes a chain of its own and nothing else changes; None exactly when no cluster is free |
| Fat32.Driver.Append | kernel/src/filesystem/fat32/mod.rs:869-892 | a free cluster of zeros is linked behind the chain, whose bytes it extends; every other chain stays |
| Fat32.Driver.FreeClusterChain | kernel/src/filesystem/fat32/mod.rs:662-689 | the chain is gone, its clusters are free, every other chain and its bytes stay |
| Fat32.FreedExactly | kernel/src/filesystem/fat32/mod.rs:662-689 | exactly the entries of the chain's clusters become zero |
| Fat32.Driver.ExpandDirectory | kernel/src/filesystem/fat32/mod.rs:629-660 | the directory's bytes get one cluster of zeros behind them, or no cluster is free and nothing changes |
| Fat32.Driver.ReadFile | kernel/src/filesystem/fat32/mod.rs:724-829 | as many bytes as asked for, as far as the size in the first entry found and the chain reach, and each of them is the byte of the chain at that offset |
| Fat32.Driver.WriteDirentry | kernel/src/filesystem/fat32/mod.rs:575-627 | one 32-byte record of the directory's bytes is replaced |
| Fat32.Driver.WriteFile | kernel/src/filesystem/fat32/mod.rs:831-954 | the data lies over the old bytes and zeros, the chain is just long enough, the size is raised to the end of the data; if it answers NoSpace no cluster is free, a prefix of the data is stored and the size is as before; every other chain is untouched |
| Fat32.ReadYourWrite | kernel/src/filesystem/fat32/mod.rs:724-954 | after a write every range that is read goes as far as the new size and the chain reach; each byte is the byte of the data that was put there, or else the byte that was there before, or else zero |
| Fat32.DirectoryAfter | kernel/src/filesystem/fat32/mod.rs:504-519 | one entry of the list changes: it takes the name, attributes, times and cluster of the one that was found, with the new size; it is that entry, and still live, if and only if the first entry of the cluster is not a deleted one |
| Fat32.GrowthCanDelete | kernel/src/filesystem/fat32/mod.rs:504-519 | a directory in which a growing write leaves no live entry for the file |
| FileCache.Cache.ReadFileRange | kernel/src/filesystem/file_cache.rs:247-369 | as many bytes as asked for, as far as the file reaches, each of them the byte the file holds at that offset, and no file's contents change, whatever the driver does; a cached file is always read and becomes the most recently used; CacheFull only if the evictions get stuck; the memory counter stays right exactly unless the file was loaded and its metadata could not be read |
| FileCache.Cache.Load | kernel/src/filesystem/file_cache.rs:291-355 | the whole file is cached at the tail; CacheFull exactly if forced evictions make no room; the memory counter misses it exactly when the file is in the cache and the answer is an error, which, if the file fits, is exactly when the second driver call fails; a failed read uses up its room |
| FileCache.CounterCanMiss | kernel/src/filesystem/file_cache.rs:339-346 | a write whose third driver call fails, after which the counter is wrong |
| FileCache.Cache.NewFile | kernel/src/filesystem/file_cache.rs:418-441 | a file cached as empty is right if and only if it is empty on disk |
| FileCache.Cache.WriteCached | kernel/src/filesystem/file_cache.rs:444-564 | the file holds the data over its old bytes and zeros and no other changes, if its growth is sound; a file grown where it is, if and only if no other file lies in the bytes it takes in and the hole is zero; CacheFull exactly if room for growth is sought and the forced evictions make none |
| FileCache.Cache.WriteFile | kernel/src/filesystem/file_cache.rs:371-564 | the same for any file, loaded or made on a miss, byte by byte; it succeeds if there is room and the driver does not fail; a file whose size could not be read is written as if it were empty, and holds the data or nothing; the memory counter stays right exactly unless a file was loaded whose metadata could not be read |
| FileCache.GrowthCanOverlap | kernel/src/filesystem/file_cache.rs:499-524 | a write that destroys the neighbour of a file |
| FileCache.Cache.CompactKeeping | kernel/src/filesystem/file_cache.rs:179-206 | a live file put last keeps its bytes if the others packed do not reach them; with some contents, only then |
| FileCache.CompactionCanDestroy | kernel/src/filesystem/file_cache.rs:179-206 | a compaction that destroys the file it puts last |
| FileCache.NewFileCanDestroy | kernel/src/filesystem/file_cache.rs:392-441 | a file with contents taken for empty |
| FileCache.Cache.Compact | kernel/src/filesystem/file_cache.rs:179-206 | the files are packed to exactly the sum of their lengths and keep their contents |
| FileCache.Cache.EvictOneKeepAlive | kernel/src/filesystem/file_cache.rs:803-876 | drops the victim and answers its length; the answer is 0 exactly if there is no victim, the victim is empty or it cannot be written back; no file's contents change and the counter stays right |
| FileCache.PickVictim | kernel/src/filesystem/file_cache.rs:814-830 | the victim has the highest score of the evictable files, and there is none only if every score is zero |
| FileCache.VictimRules | kernel/src/filesystem/file_cache.rs:814-830 | never the file to keep, and a pinned or resident one only by force; nobody only if all others are of no importance |
| FileCache.VictimOrder | kernel/src/filesystem/file_cache.rs:814-830 | of two equally important files the one used longer ago goes first, of two used at the same time the more important one |
| FileCache.ResidentGoesFirst | kernel/src/filesystem/file_cache.rs:814-830 | a forced eviction takes a resident file before any other |
| FileCache.PinnedGoesFirst | kernel/src/filesystem/file_cache.rs:643-658 | a cache in which making room evicts the file just pinned and not the older ordinary one |
| FileCache.Cache.PinFile | kernel/src/filesystem/file_cache.rs:643-658 | the file is loaded and marked resident, no file's contents change |
| FileCache.Cache.EnsureSpace | kernel/src/filesystem/file_cache.rs:211-245 | the bytes fit behind the push offset exactly if they did before or RoomMade holds of the files evicted, of which none goes once there is room; it fails only when stuck: no victim, an empty one, or one that cannot be written back; an empty cache fails exactly when there was no room, and a single file longer than the request is evicted in vain; no file's contents change |
| FileCache.RoomIff | kernel/src/filesystem/file_cache.rs:217-245 | the push offset after evictions, step by step as the code computes it, leaves room exactly if it did before or after one of them the rest and the request fit and the evicted file was not longer than those |
| FileCache.OneFile | kernel/src/filesystem/file_cache.rs:217-245 | a single file longer than the request never makes room, and the push offset stays behind it |
| FileCache.EvictionCanWedge | kernel/src/filesystem/file_cache.rs:211-245 | a cache of ten bytes that is empty after an eviction and refuses two bytes from then on |
| FileCache.Cache.EnsureSpaceKeeping | kernel/src/filesystem/file_cache.rs:211-245 | the same around a file that stays, which keeps its contents if it was intact |
| FileCache.Cache.FlushFile | kernel/src/filesystem/file_cache.rs:590-602 | on success the disk holds what the file holds; it fails exactly if a dirty file is not on disk or the write fails; no file's contents change either way |
| FileCache.Cache.FlushAll | kernel/src/filesystem/file_cache.rs:620-641 | on success the disk holds what every file holds; it succeeds if no write fails and every dirty file is on disk |
| CacheDriver.WriteIsOverlay | kernel/src/filesystem/fat32/mod.rs:831-954 | a successful whole-file write of the FAT32 driver is the one the cache assumes |
| CacheDriver.FailedWriteIsPartial | kernel/src/filesystem/fat32/mod.rs:831-954 | so is one that runs out of space |

## Findings

Properties the code does not have. Each has its exact condition and an input or a run.

1. The end of run_task (kernel/src/process/scheduler.rs:663-671) clears on_cpu before it reads the
   state. A task that is stolen in between and dies on the thief is read as Dead by a core that is no
   longer its home, and its slot is released twice or while it is in use. SchedulerSafety.ReapsForeignTaskIff
   is the condition, SchedulerRaces.FreedUnderARunningTask the run.
2. wake_due_sleeping_tasks (scheduler.rs:266-298) queues the task it wakes on the core of the timer.
   If a reference copied by an earlier wake_all has woken the sleeper, and the task has migrated and
   blocked again, the old entry makes it Ready on a core that is not its home.
   SchedulerSafety.TimerMisplacesIff, SchedulerRaces.WokenOnTheWrongCore. Every other result about the
   scheduler holds in all runs that avoid these two branches, whatever is stolen or woken when.
3. sleep_current_task_ms (kernel/src/process/wait.rs:134-145) promises to return when the task is asked
   to exit. It does not look again after it has blocked, so a kill in between waits for the timer.
   Wakeup.SleepLosesKillIff, Wakeup.SleepCanMissAKill. Wait queues do look again: Wakeup.NoLostWakeup.
4. unmap_region (kernel/src/process/process_mem.rs:180-237) can leave the region list unsorted if regions
   of different flags overlap, which later binary searches rely on. Regions.CutRange,
   AddressSpace.UnmapCanUnsort.
5. insert and entry of the hash map do not grow it while tombstones fill it. With no empty slot left,
   insert drops the new key and entry overwrites slot 0. FxHashMap.Map.Insert and
   FxHashMap.Map.EntryOrInsert are exact; FxHashMap.InsertCanFail and FxHashMap.EntryCanOverwrite reach
   that state by insertions and removals.
6. A failed map_virt_mem_region (kernel/src/memory/usermem.rs:182-301) also unmaps pages of its range
   that an earlier owned region had mapped: after the call, exactly if a page below the failing one was
   mapped (UserMemory.PageTables.MapVirtMemRegion), and before it, by the frames at hand, exactly as
   MapCost.LosesIff says. A caller whose pages are all unmapped loses nothing
   (MapCost.FreshPagesLoseNothing). AddressSpace.FailureCanLose is the input.
7. find_entry_by_cluster (kernel/src/filesystem/fat32/mod.rs:504-519) accepts deleted entries, the size
   update does not: a growing write can replace a live entry by a deleted one. Fat32.DirectoryAfter,
   Fat32.GrowthCanDelete.
8. The file cache takes a file for empty if its size cannot be read (kernel/src/filesystem/file_cache.rs:392),
   and then drops its contents: FileCache.Cache.WriteFile, FileCache.NewFileCanDestroy.
9. Its third way to grow a file (file_cache.rs:499-524) assumes that the file has been moved to the tail.
   It has not if the extra bytes alone would have fit, and the file then grows over its neighbours or
   over stale bytes. FileCache.Cache.WriteCached, FileCache.GrowthCanOverlap. A debug build stops at
   its assertion there.
10. If compaction does move it, the files behind it may be packed over it first.
    FileCache.Cache.CompactKeeping, FileCache.CompactionCanDestroy.
11. If get_node fails after a file has been cached (file_cache.rs:339-346), the memory counter misses it
    for good. Load, ReadFileRange and WriteFile of FileCache.Cache say that a right counter stays right
    exactly unless that happened, and, where the file fits, which coming driver call must fail for it.
    FileCache.CounterCanMiss is the input.
12. ensure_space (file_cache.rs:211-245) can fail with room to be had. Files of importance Minimal have
    score zero and are never evicted (FileCache.PickVictim), a victim of length zero or one that cannot
    be written back ends the eviction (FileCache.Cache.EvictOneKeepAlive), and the test whether
    compaction pays (file_cache.rs:232) subtracts the evicted size twice, so that an eviction of more
    than is left and needed is in vain. FileCache.Cache.EnsureSpace and FileCache.RoomIff are exact,
    FileCache.OneFile is the smallest family, FileCache.EvictionCanWedge the input.
13. The user-space allocator (user/rustspace/src/lib.rs:765-791) meets alignments above a page only by
    luck. Beyond a slab it returns the range as the system gives it, which starts on a page:
    Arena.Allocator.Alloc is exact, Arena.GrantCanBeMisaligned the input. Up to a slab it asks for slabs
    until one starts well enough and gives up the others: Arena.FromSlabs, Arena.SlabsCanBeWasted.
14. docs/filesystem/filesystem.md:111 and :210-212 promise that pinned and resident files are never
    evicted and that old, unimportant files go first. The code multiplies the age by the importance
    instead of its complement (file_cache.rs:816-830), so the important go first, and ensure_space always
    forces the eviction (:304, :394, :421, :506), which then takes resident files before all others.
    FileCache.VictimRules, FileCache.VictimOrder and FileCache.ResidentGoesFirst say whom it takes,
    FileCache.PinnedGoesFirst is the input. Nor is a file whose flush fails skipped, as :206 promises:
    the eviction ends there (finding 12).

## Left out

- Atomics are sequentially consistent; reorderings that weaker memory orders allow are not modelled.
- In the scheduler machine a wait or sleep loop uses the core it runs on in each pass, although
  kernel/src/process/wait.rs:116 and :139 read the core once before the loop.
- In the scheduler machine wake_all is one step that copies the list and one step for each reference;
  its finer steps are in Wakeup.
- The lookup of the slot and the store of the kill flag in request_kill (kernel/src/process/task.rs:312-322) are one step.
- A steal's failing try_lock and its test of the load are not steps: a steal may happen whenever the queue has a task to take.
- Priorities that change, marks for rescheduling, statistics, FPU state and the context switch itself.
- Waiting conditions of user programs are a flag that anyone may set or clear, and the end of a sleep is a flag that may be set at any time.
- SchedulerSafety.NeverOnTwoCores: holds in runs without the two failing branches of findings 1 and 2; the same goes for the other results over CalmlyReachable states.
- Fairness.BoundedWaiting: says nothing once new tasks keep entering the executing epoch, because then the code does not promise it.
- WaiterList.Waiters.Push: a reference beyond the table of task slots counts as stale; the code would panic.
- FxHashMap.Map.Find: positions are taken modulo the capacity, which for a power of two is what the mask does; clear, the iterators and get_mut are left out.
- EventRing.DeliversInOrder: one producer and one consumer; the keyboard state page beside the ring is left out.
- UserMemory.PageTables.MapVirtMemRegion: page table flags and their merging, zeroing of frames and TLB flushes are left out.
- AddressSpace.WholeLife: maps a range only while owned and borrowed regions share no page, the next reservation is free and the region list is sorted; in the other cases an operation is skipped, so once an unmap has left the list unsorted no mapping operation follows. Unmapping is not restricted. Frame 0 is taken to be unusable, because process_mem.rs:421 reads a top table at 0 as none.
- Arena.Allocator.Alloc: one thread; cursor and end are stored separately in the code, and a racing refill is not modelled. The system's answers to one call are given in advance, start on a page and end with a refusal, as memory is finite.
- Arena.Allocator.Dealloc: the list links that the code stores in free blocks are sequences.
- Fat32.Driver.ReadFile: the disk answers every access inside its range; hardware errors are left out.
- Fat32.Driver.WriteFile: clusters beyond 24 bits, at which the code asserts, do not occur; only the first table is written, as in the code, and the mirror and the free-cluster hint sector are left out.
- Creation and deletion of files and directories, long names, path lookup and timestamps of the FAT32 driver.
- FileCache.Cache.WriteFile: node 0, which stands for no file, is not written to; file metadata is reduced to whether get_node fails.
- FileCache.Cache.CompactKeeping: that bytes are lost if the file is not intact is proved for other files of zeros and a first byte that is not zero; with other contents the packed bytes may happen to be the same.
- FileCache.Cache.EvictOneKeepAlive: of two files with the same score either may go, as the map's order decides.
- FileCache.Cache.ReadFileRange: the bypass for a full arena behind a successful ensure_space cannot happen and is left out.
- Invalidation, clearing and directory-wise eviction of the cache, which drop files without writing them back.
- Unpinning, directory hints and prefetching of the file cache, except for the importance a hint gives a loaded file.
- Graphics, drivers, system call parsing, the loader and the shell.
