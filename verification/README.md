# DiegOS core structures, verified

This project models the stateful core of the DiegOS operating system in Dafny and proves what its
operations keep over every run.

- **Red-black tree** (`rb_*.dfy`). Insertion and extraction as functions on trees that carry node
  identities, the same operations in place on linked nodes, the order queries, range and layered
  enumeration, rbtree_verify and the height bound. Keys are integers; they stand for any strict total
  order a comparison function gives on the nodes of a tree.
- **Scheduler** (`sched*.dfy`, `linked_queue.dfy`). Threads, the running thread and the ready, delay,
  wait and dead queues as a state machine over kernel calls. `Sched` gives the steps as functions,
  `SchedMachine` the loops over the updated fields, proved equal to them; `SchedEffects` and
  `SchedCalls` tell what an update and each call leave in the threads' records and queues.
- **Mutex** (`mutex_ring.dfy`). The ring of waiting threads with cancelled holes against a plain queue.
- **FAT16.1 volume** (`fat_*.dfy`). The allocation table and its chains, byte-level write and read
  across clusters, creation, formatting and mounting, whole sessions, and path names. The disk is an array of clusters, or of
  sectors while formatting.
- **Chunk allocator** (`bitmaps.dfy`, `chunks.dfy`, `chunk_pool.dfy`, `linked_list.dfy`) and **hash
  index** (`hash_list.dfy`, `hash_cells.dfy`). Value models with their laws, and the in-place forms
  proved equal to them.

Seven laws one would expect turn out not to hold of the code. Five are proved with the exact condition
under which they do: the textbook red-black invariant after a duplicate insertion
(`RbShape.StepRestoresIff`), the one-place-per-thread law when a thread is killed
(`SchedSteps.KillKeepsInvIff`), reading from an unaligned offset (`FatRead.ReadsRightIff`), the table
of a formatted volume holding all its entries (`FatMount.TableHoldsIff`), and cluster numbers staying
below the bad and end marks when the caller gives the cluster size (`FatMount.GeometryIff`). Two, about
one pass over the wait queue, are proved under a guard on neighbours in the queue, with inputs on which
they fail without it: the pass takes off every removable thread (`SchedWait.PassTakesAll`,
`SchedWait.OnePassCanMiss`), and the wake-up time it leaves is not later than any waiter's deadline
(`SchedWait.PassTellsNextWake`, `SchedWait.WakeCanBeLate`).

Where comments and code disagree the model follows the code: an address inside a chunk frees that
chunk, which include/libs/chunks.h does not mention; FAT_get_free_cluster_from_table never returns
FATSize, although its comment includes it in the range; the free space of a circular buffer can be 0,
although include/libs/cbuffers.h:131-133 says it cannot be less than 1.

The clock, wake-ups that arrive during a call, the outcome of cancelling a wait in another library,
and the addresses the system allocator hands out are parameters of the steps. A new buffer is assumed
not to overlap those in use.

`dafny verify dfyconfig.toml` checks everything.

## Model

| member | source | states |
|---|---|---|
| RbShape.RunKeepsSound | libs/red_black_tree.c:276-523 | Over every run of insertions, duplicate or not, and extractions the tree is sorted, has equal black counts on all paths, at most one red-red edge, which starts at the root, and one root flag; when the last step was a successful insertion or an extraction it is fully red-black with a black root |
| RbShape.StepKeepsSound | libs/red_black_tree.c:327-366 | One call keeps that invariant, and restores the textbook one unless it was a duplicate |
| RbWitness.DuplicateCanLeaveRedRed | libs/red_black_tree.c:356-363 | A run from the empty tree of eleven insertions and two duplicates: red-black after the insertions, a red root after the first duplicate, a red-red edge after the second; so the textbook invariant is not what runs keep |
| RbShape.StepRestoresIff | libs/red_black_tree.c:327-366 | From every reachable state a step ends in a textbook red-black tree if and only if it is an extraction, an insertion of an absent key, or a duplicate whose colour flips do not reach the root (or rotate a red root) |
| RbShape.DuplicateColour | libs/red_black_tree.c:276-322 | The colour a duplicate leaves at the top of a subtree, told from the siblings on the way down before the call |
| RbShape.InsertRecShape | libs/red_black_tree.c:276-322 | Insertion into a proper subtree keeps its black count and leaves at most a red-red edge at its root, none when the root was black |
| RbShape.InsertRootShape | libs/red_black_tree.c:276-322 | The same recursion started at a root that is red over one red child stays inside the invariant |
| RbShape.ExtractRecShape | libs/red_black_tree.c:436-508 | Each recursive call either restores the subtree's black count and reports done, or returns a black-rooted subtree short by exactly one |
| RbShape.ExtractBalanceShape | libs/red_black_tree.c:374-434 | Rebalancing repairs a subtree whose one child is short by one, or passes the deficit up under a black root |
| RbShape.ExtractRootShape | libs/red_black_tree.c:510-523 | Extraction from a tree a duplicate left red-red still ends red-black once the root is blackened |
| RbShape.VerifyDecides | libs/red_black_tree.c:603-639 | rbtree_verify accepts exactly the trees with no red-red edge, equal black counts and parent-child order, and returns the black count plus one |
| RbShape.VerifyPassesAfterStep | libs/red_black_tree.c:603-639 | It passes right after every successful insertion or extraction of every run |
| RbShape.VerifyMissesDeepDisorder | libs/red_black_tree.c:603-639 | It also passes on a tree whose in-order keys are not sorted |
| RbShape.HeightBound | libs/red_black_tree.c:169-187 | The height of a red-black tree of n nodes is at most 2*log2(n+1) |
| RbShape.RunHeightBound | libs/red_black_tree.c:276-523 | The same bound for the tree left by any run |
| RbShape.RunComparisonsBound | libs/red_black_tree.c:169-187 | After any run the comparisons of a search, an insertion and an extraction, the descent to the heir included, are at most 2*log2(n+1) |
| RbOrder.InsertRefinesList | libs/red_black_tree.c:276-366 | Insertion is insertion into a sorted list and reports a duplicate exactly when the key is present |
| RbOrder.ExtractRefinesList | libs/red_black_tree.c:436-523 | Extraction takes exactly the node of that key out of the sorted list and returns it, or returns nothing and leaves the list |
| RbOrder.ListFindMeaning | libs/red_black_tree.c:510-523 | What the reference list operations mean: position, removal and absence of a key |
| RbOrder.InsertKeepsSorted | libs/red_black_tree.c:327-366 | The reference insertion keeps the list sorted and adds exactly the new node |
| RbHeap.InsertRecursive | libs/red_black_tree.c:276-322 | In place: the links and flags of the nodes spell exactly the value function's tree afterwards |
| RbHeap.ExtractRecursive | libs/red_black_tree.c:436-508 | In place, including the relinking of the in-order predecessor; the very node that matched is returned |
| RbHeap.Replace | libs/red_black_tree.c:486-498 | The heir takes over links and flags of the node it replaces, which is cut loose |
| RbHeap.BalanceExtract | libs/red_black_tree.c:374-434 | The in-place rebalancing spells the balanced value |
| RbHeap.Rotated | libs/red_black_tree.c:90-124 | A rotation moves links, colours and the root flag as the value function does and touches no other node |
| RbHeap.DoubleRotated | libs/red_black_tree.c:126-149 | The same for double rotations |
| RbHeap.RbRoot.Insert | libs/red_black_tree.c:327-366 | The client's root pointer after an insertion: valid, red-black when the node went in, refused exactly for a present key |
| RbHeap.RbRoot.Extract | libs/red_black_tree.c:510-523 | The root pointer after an extraction: valid, red-black, and the returned node is the one of the value function |
| RbHeap.ExtractRemovesNode | libs/red_black_tree.c:436-523 | Exactly the matching node leaves the set of linked nodes |
| RbQueries.NeighbourMeaning | libs/red_black_tree.c:551-581 | The reference neighbours are the greatest smaller and the least greater node, for absent keys too |
| RbQueries.SearchNeighbour | libs/red_black_tree.c:567-581 | search_previous and search_next return them |
| RbQueries.Neighbour | libs/red_black_tree.c:551-565 | previous and next return them when the key is present and null otherwise |
| RbQueries.FindCommon | libs/red_black_tree.c:189-213 | The common descent stops at the subtree of the key with the last turns taken on both sides |
| RbQueries.Search | libs/red_black_tree.c:525-531 | Search returns the node of the key or null |
| RbQueries.RangeMeaning | libs/red_black_tree.c:650-687 | The reference range holds exactly the nodes with keys between the bounds, in order |
| RbQueries.RangeNeedsTwo | libs/red_black_tree.c:667-672 | Both end points exist in the right order exactly when the range has at least two nodes |
| RbQueries.EnumerateRange | libs/red_black_tree.c:650-687 | Range enumeration lists the whole range in order when it has at least two nodes and returns 0 otherwise |
| RbLayers.EnumerateLayered | libs/red_black_tree.c:708-730 | The array is filled with the nodes level by level from left to right, and nothing beyond the node count is written |
| RbLayers.QueuedIsLayers | libs/red_black_tree.c:708-730 | The queue inside the output array visits the tree in the order of the independent level-by-level definition |
| RbLayers.LayersComplete | libs/red_black_tree.c:708-730 | That order lists every node exactly once |
| RbLayers.LayersInOrder | libs/red_black_tree.c:708-730 | The list goes down the tree: nodes of smaller depth first, and by key among nodes of one depth |
| LinkedQueue.Queue.Enqueue | libs/queue.c:37-56 | Linking at the tail appends to the sequence the nodes spell; no cycle, ends and counter right |
| LinkedQueue.Queue.Dequeue | libs/queue.c:58-79 | Unlinking the head removes the first, or reports an empty queue |
| LinkedQueue.Queue.Roll | libs/queue.c:81-95 | The head moves behind the tail |
| LinkedQueue.EnqueueCuts | libs/queue.c:37-56 | Linking a node another queue still holds cuts that queue behind it |
| LinkedQueue.Queue.Insert | libs/queue.c:97-121 | Linking after a given node, or in front, inserts there |
| LinkedList.List.Add | libs/list.c:37-70 | Linking at the head, at the tail or in between inserts at that position, both directions of links right |
| LinkedList.List.Remove | libs/list.c:72-99 | Unlinking removes exactly that position and clears the node's links; an empty list is refused |
| SchedSteps.RunKeepsInv | kernel/scheduler.c:176-635 | Over every run of kernel calls that does not panic and kills neither a sleeper nor an untimed mutex waiter, each live thread has exactly one place, running or one queue, its state and priority match the place, sleepers are sorted by deadline and idle is running or ready and never marked |
| SchedSteps.EveryRunFromBoot | kernel/kernel.c:122-173 | The same from start-up, under the same two conditions, for any number of calls and whatever happens during the first choice |
| SchedSteps.StepKeepsInv | kernel/kernel.c:196-312 | Every kernel call that does not panic keeps the invariant, but for the two kills of KillKeepsInvIff |
| SchedSteps.KillKeepsInvIff | kernel/scheduler.c:541-635 | Killing another thread keeps the invariant if and only if the thread is neither a sleeper nor an untimed mutex waiter |
| SchedSteps.KillBreaksInv | kernel/scheduler.c:594-613 | Killing one of those two always breaks it |
| SchedSteps.KilledSleeperIsLost | kernel/scheduler.c:286-319 | The pass that finds a killed sleeper due, wherever it stands in the delay queue, leaves it in no queue at all while it still occupies its slot |
| SchedSteps.CreateKeepsInv | kernel/kernel.c:271-296 | Creating a thread in the first free slot keeps the invariant |
| SchedSteps.FirstFreeMeaning | kernel/threads.c:55-120 | The slot taken is the first free one |
| SchedSteps.BootChooses | kernel/kernel.c:122-149 | The two threads made at start-up form a state from which a thread can be chosen |
| SchedSteps.BootState | kernel/kernel.c:122-149 | The two threads made at start-up: slots 0 and 1, names, priorities 3 and 0, each in its ready queue, nothing else |
| SchedEffects.UpdateDoes | kernel/scheduler.c:352-381 | What one update does, told in records and queues: nobody left asleep is overdue; the sleepers that were due stand in order of deadline at the end of their priority's ready queue, behind what stood there; only resumed, marked, expired or woken waiters leave the wait queue, at least one when any can, all when no two stand together; who left is in the ready queue of its priority or, when marked, in the dead queue; every record is the old one but for exactly these; and both wake-up times are told |
| SchedEffects.ResumeAllIs | kernel/scheduler.c:424-453 | All wake-ups of an update together: exactly the waiting threads some wake-up names with an event they wait for become ready, with wait flags and deadline cleared, and nobody moves |
| SchedCalls.ScheduleDoes | kernel/scheduler.c:321-381 | schedule_thread is such an update followed by a choice: the first unmarked thread of the best ready queue that has one runs, those passed over and the dead lose their slots, and every other record and queue is as the update left it |
| SchedCalls.ScheduleDelivers | kernel/scheduler.c:321-381 | So after the call nobody left asleep has a deadline up to the clock, and no thread that a wake-up named still waits |
| SchedCalls.StepDoes | kernel/kernel.c:196-312 | Every kernel call that does not panic, in all its cases, leaves exactly what Done says in records and queues: where the caller goes, with which deadline and flags, what the update and the choice then do, whom a kill marks, what a new thread looks like |
| SchedCalls.PanicsIff | kernel/kernel.c:235-312 | The calls that panic, for all states and arguments |
| SchedCalls.SuspendLetsOthersRun | kernel/kernel.c:196-217 | When an unmarked thread stood in a ready queue of the caller's or a better priority, somebody else runs after thread_suspend |
| SchedCalls.YieldQueues | kernel/scheduler.c:411-422 | The caller stands last in the ready queue of its priority; every other queue and record is as before |
| SchedCalls.SleepLaysDown | kernel/scheduler.c:455-491 | The caller waits for its deadline only, behind every sleeper not later and ahead of every later one; nothing else changes |
| SchedCalls.BlockBlocks | kernel/scheduler.c:493-521 | The caller waits for the given events at the end of the wait queue, until clock plus msecs when msecs is not 0; nothing else changes |
| SchedCalls.KillMarks | kernel/scheduler.c:541-635 | The removal of another thread panics exactly as stated; otherwise Terminate is in its flags, a waiting one has lost its wait flags, and all other records and all queues are as before, but for an untimed mutex waiter, which is also queued as dead |
| SchedCalls.MarkStays | kernel/scheduler.c:176-635 | No kernel call takes the mark off a thread that keeps its slot |
| SchedCalls.KilledNeverRuns | kernel/scheduler.c:176-635 | Over every run after a kill of a thread that is neither a sleeper nor an untimed mutex waiter, the thread is not the running one as long as it holds its slot |
| SchedCalls.TerminateReleases | kernel/kernel.c:257-269 | A thread that ends itself has given its slot back when the next one runs |
| SchedCalls.CreateMakes | kernel/threads.c:55-120 | A new thread takes the least free slot with its name cut to fifteen characters and queues last in its priority; it is refused exactly for a priority from 4 on, a full table or a name some other slot holds |
| SchedRuns.NewRunnerChooses | kernel/scheduler.c:176-199 | The first unmarked thread of a queue runs and exactly those queued before it move to the dead queue in order |
| SchedRuns.PickChooses | kernel/scheduler.c:321-349 | The best priority with an unmarked thread wins, and exactly the threads passed over, in order, move to the dead queue |
| SchedRuns.HouseKeepReleases | kernel/scheduler.c:138-170 | House keeping empties the dead queue and releases exactly its threads' slots |
| SchedSteps.DelayInsertAt | kernel/scheduler.c:455-491 | A new sleeper is linked after every deadline up to its own and before every later one |
| SchedSteps.DelayWakesExactlyTheDue | kernel/scheduler.c:286-319 | A pass wakes exactly the sleepers that are due, each priority's in order of deadline |
| SchedSteps.DueMeaning | kernel/scheduler.c:286-319 | In a sorted queue the due threads are the front part, those with deadline up to now |
| SchedSteps.DelayHeadGivesMinimum | kernel/scheduler.c:116-123 | The delay taken from the head alone is the least remaining delay over all sleepers, capped at SCHED_DELAY_MAX |
| SchedWait.PassTrims | kernel/scheduler.c:210-275 | A pass over the wait queue loses and duplicates nobody, removes only resumed, terminated or expired threads, and leaves the others' records alone |
| SchedWait.PassRemovesOne | kernel/scheduler.c:210-275 | It removes at least one whenever any is removable |
| SchedWait.PassesDrain | kernel/scheduler.c:210-275 | With the clock standing still, as many passes as waiters drain every removable thread |
| SchedWait.PassTakesAll | kernel/scheduler.c:210-275 | One pass takes off every removable thread when no two of them stand directly behind each other in the queue |
| SchedWait.OnePassCanMiss | kernel/scheduler.c:256-274 | Otherwise it can miss one: a queue on which a pass leaves a removable thread behind |
| SchedWait.PassTellsNextWake | kernel/scheduler.c:210-275 | When no removable thread has a removable or a timed one directly behind it, a pass leaves nobody removable and the wake-up time is the least remaining delay of all timed threads that stay, capped |
| SchedWait.PassWakeIsKnown | kernel/scheduler.c:116-123 | No pass leaves a wake-up time that is too early: it is the cap or the remaining delay of a timed thread that stays |
| SchedWait.WakeCanBeLate | kernel/scheduler.c:256-274 | It can be too late: behind a removed thread a timed waiter due in 5 ms is not looked at, and the pass ends with the cap |
| SchedWait.WaitersDistinct | kernel/scheduler.c:210-275 | No thread is linked twice in the wait queue |
| SchedMachine.Scheduler.ScheduleWaiting | kernel/scheduler.c:210-275 | The loop computes the pass and never looks at an empty queue |
| SchedMachine.Scheduler.ScheduleDelayed | kernel/scheduler.c:286-319 | The loop computes the pass over the sleepers |
| SchedMachine.Scheduler.PickThread | kernel/scheduler.c:321-349 | The loop over the priorities chooses a thread and keeps every thread in one place |
| SchedMachine.Scheduler.UpdateSchedule | kernel/scheduler.c:352-381 | The loop over the wake-ups and the two passes: the value function, and all that UpdateDoes states, of the fields |
| SchedMachine.Scheduler.ScheduleThread | kernel/scheduler.c:321-349 | The whole call refines the value function and ends with the invariant and an empty dead queue; nobody left asleep is overdue and nobody a wake-up named still waits |
| SchedMachine.Scheduler.HouseKeeping | kernel/scheduler.c:152-170 | The loop empties the dead queue and releases exactly the slots of those in it |
| SchedMachine.Scheduler.DelayThread | kernel/scheduler.c:455-491 | The walk along the sleepers links the caller where LaidDown says, with deadline clock plus msecs; idle and timers are refused |
| SchedMachine.Scheduler.WaitThread | kernel/scheduler.c:493-521 | Waiting is refused for idle and for no event flags, and otherwise queues the caller last with the flags and the deadline that Blocked states |
| SchedMachine.Scheduler.ResumeThread | kernel/scheduler.c:424-453 | Resuming succeeds exactly for a waiting thread with a matching flag, which becomes ready with wait flags and deadline cleared; no other record changes |
| SchedMachine.Scheduler.RemoveThread | kernel/scheduler.c:541-635 | The removal in place: refused exactly where KillPanics says for another thread, which is then marked and left in its place (Condemned); the caller itself goes to the end of the dead queue |
| SchedMachine.Scheduler.CreateThread | kernel/threads.c:55-120 | The slot scan and the insertion into the ready queue, with the result that Created states |
| SchedMachine.Scheduler.ThreadSuspend | kernel/kernel.c:196-217 | The composed call: the caller queues last in its priority, then the update and the choice; the invariant is kept |
| SchedMachine.Scheduler.ReadyThreads | kernel/scheduler.c:642-652 | The count over the better priorities is 0 exactly when their ready queues are empty |
| SchedMachine.Scheduler.ThreadMaySuspend | kernel/kernel.c:219-233 | After an update the caller goes on exactly when nobody of a better priority is ready, and otherwise suspends; the invariant is kept |
| SchedMachine.Scheduler.ThreadDelay | kernel/kernel.c:235-255 | The composed call: panics exactly for idle and timers with a delay, and otherwise lays the caller down until clock plus msecs before the choice; the invariant is kept |
| SchedMachine.Scheduler.ThreadWait | kernel/scheduler.c:493-521 | Waiting and choosing the next thread: refused exactly for idle and for no event flags, and then nothing changes; otherwise the caller waits with the stated flags, deadline and place; the invariant is kept |
| SchedMachine.Scheduler.ThreadTerminate | kernel/kernel.c:257-269 | The composed call: panics exactly for idle and timers, and otherwise the caller has no slot afterwards; the invariant is kept |
| SchedMachine.Scheduler.ThreadKill | kernel/kernel.c:298-312 | The composed call: panics exactly where stated, marks the thread and changes nothing else, with the exact condition under which the invariant survives |
| MutexRing.RunRefines | kernel/mutex.c:95-196 | Over every run of lock, unlock and cancel the ring with holes behaves as a plain first-in first-out queue, and an unowned mutex has an empty ring |
| MutexRing.StepRefines | kernel/mutex.c:95-196 | One call on the ring is the same call on the queue, with the same answer |
| MutexRing.HandOverIsFirst | kernel/mutex.c:128-161 | Ownership passes to the first waiter that was not cancelled |
| MutexRing.PunchIsRemoval | kernel/mutex.c:175-196 | Cancelling removes the first occurrence of that waiter and keeps the order of the rest |
| MutexRing.HolesTakeRoom | kernel/mutex.c:118-120 | Cancelled slots still take room: a lock can be turned away although nobody waits |
| MutexRing.Mutex.LockMutex | kernel/mutex.c:95-126 | The in-place lock over wrapping indices: granted exactly to a live thread other than the owner, at once when the mutex is free, behind all slots while fewer than 19 are in use |
| MutexRing.Mutex.UnlockMutex | kernel/mutex.c:128-161 | The in-place hand-over with its loop over holes: exactly the owner releases, the first slot that is no hole takes over, and the slots behind it stay |
| MutexRing.Mutex.CancelWait | kernel/mutex.c:175-196 | The in-place scan from head to tail: the first slot of the waiter becomes a hole, and cancelling fails exactly when it has none |
| MutexRing.Mutex.FreeSpace | include/libs/cbuffers.h:131-142 | Free space is one less than the buffer minus the slots in use |
| FatVolume.Volume.Write | fat/fat.c:1182-1324 | For every offset up to the size and every length the content becomes a byte splice; running out of clusters leaves exactly the prefix that fits; chain length follows the size, free plus used clusters are conserved and every other file keeps its chain and bytes; nothing changes when there is no byte to write, no such entry, a start beyond the end, or a read-only, link, directory or label entry |
| FatVolume.Volume.Append | fat/fat.c:356-388 | Appending links one free entry behind the given chain, keeps all chains acyclic, disjoint and closed, and fails exactly when no entry is free |
| FatVolume.Volume.GetFreeCluster | fat/fat_internals.c:86-108 | The search from the hint and then from 2 finds a free entry exactly when there is one |
| FatChain.NextInChain | fat/fat_internals.c:27-37 | What the table entry of a chain's cluster says: the next cluster, or an end mark exactly at the last one |
| FatVolume.Volume.SetCluster | fat/fat_internals.c:39-50 | Writing outside [2, FATSize) is refused |
| FatVolume.Volume.Lookup | fat/fat.c:99-113 | The walk gives the cluster holding an offset, or the mark ending the chain |
| FatVolume.Volume.GetFirst | fat/fat.c:1143-1165 | The first cluster of a write is found, or appended exactly at the end of the chain |
| FatVolume.Volume.GetNext | fat/fat.c:1167-1180 | The next cluster is found, or appended behind the last |
| FatVolume.Volume.UpdateOnDisk | fat/fat.c:1130-1141 | Size, directory entry and stored table follow the write |
| FatVolume.Volume.WriteRest | fat/fat.c:1267-1324 | The loop over whole clusters and the last part extends the splice chunk by chunk |
| FatVolume.Volume.Available | fat/fat.c:1326-1344 | The count of free entries in [2, FATSize) |
| FatVolume.Volume.OthersUntouched | fat/fat.c:1182-1324 | Chains and bytes of the other files are the same after every step of a write |
| FatCreate.Create | fat/fat.c:521-682 | Creating a void file or a directory by path succeeds exactly when path and attributes are acceptable, the containing directory exists and has a slot left, no entry has the same stored path and, for a directory, a cluster is free; the new owner is apart from all others, whose bytes stay; no link is created, nor a directory with the label attribute |
| FatNames.ParseDirectoryLast | fat/fat_names.c:97-105 | The last separator of a path, or its start |
| FatVolume.Volume.Mount | fat/fat.c:396-475 | A volume whose table holds sound chains that fit its entries starts valid, with table, data and entries as read |
| FatVolume.ClustersAfter | fat/fat.c:1130-1141 | The number of clusters a grown size asks for |
| FatChain.ExtendedAllLinked | fat/fat.c:356-388 | Extending one chain keeps every chain linked and no cluster shared |
| FatChain.ExtendedFree | fat/fat.c:356-388 | An append uses exactly one free entry |
| FatChain.WriteBlock | fat/fat.c:1182-1324 | Overwriting one cluster replaces one block of the file's bytes |
| FatChain.SpliceStep | fat/fat.c:1182-1324 | Writing the next chunk extends the splice by that chunk |
| FatRead.Read | fat/fat.c:1004-1125 | The checks (directories and the label are refused), the length read and the caller's buffer afterwards, for every offset |
| FatRead.ReadsRightIff | fat/fat.c:1064-1080 | A read is right for every content if and only if it is aligned, stays in one cluster, or has at least as much left as the first cluster gave |
| FatRead.FaithfulReads | fat/fat.c:1004-1125 | Under that condition the buffer is exactly the content from the offset on |
| FatRead.UnfaithfulReads | fat/fat.c:1073-1077 | Otherwise the last byte due is never written |
| FatRead.ReadClusters | fat/fat.c:1082-1125 | The loop copies whole clusters and the rest to the right place |
| FatRead.ReadUnaligned | fat/fat.c:1064-1080 | The partial first copy and the advance by the already reduced length |
| FatSession.FreshFile | fat/fat.c:396-1324 | From a freshly formatted disk on: after mounting, creating a file in the root directory under any name but the label's and any sequence of writes, refused and partial ones included, the content is the fold of the splices, each write stored exactly what had room, and a read of any part is right under the guard of ReadsRightIff |
| FatSession.WriteAll | fat/fat.c:1182-1324 | The same for any sequence of writes to a file of any valid volume; the room of the file is the same after every write |
| FatSession.WriteOne | fat/fat.c:1182-1324 | One write stores the whole buffer when it fits, what has room otherwise, and nothing beyond the end |
| FatFormat.ComputeSecPerClus | fat/fat_format.c:43-65 | The least power of two that covers the volume within the cluster limit, or 0 when none does |
| FatMount.ChooseSecPerClus | fat/fat_format.c:88-102 | A given size is taken exactly when it is a power of two within the limit |
| FatFormat.FatSzExact | fat/fat_format.c:111-114 | With a computed cluster size the table size is the rounded-up quotient, without wrap-around |
| FatFormat.LogExact | fat/fat_format.c:137-191 | Every sector is written exactly once and in order if and only if the table has a sector and leaves one for data |
| FatFormat.RoomyIff | fat/fat_format.c:111-191 | For every cluster size the layout has room exactly from four sectors on, unless the 16-bit table size wraps to nothing |
| FatFormat.RoomyComputed | fat/fat_format.c:111-191 | With a computed cluster size that is exactly from four sectors on |
| FatFormat.WritesAreLog | fat/fat_format.c:137-191 | The sectors of the writes, region by region |
| FatFormat.AppliedRange | fat/fat_format.c:137-191 | Writing consecutive sectors once each replaces that stretch of the disk and nothing else |
| FatMount.Format | fat/fat_format.c:67-201 | Formatting refuses exactly a label with a forbidden character or a volume no cluster size fits, leaving the disk alone; fails exactly when the layout runs off the disk; and otherwise performs exactly these writes, which leave the partition as LaidOut describes it whenever the layout has room |
| FatMount.FormatLays | fat/fat_format.c:104-191 | The formatted partition sector by sector: parameter block with its fields, two tables each opened by 0xFF in bytes 1 to 5, the label entry with the label and spaces, blanks everywhere else, and the rest of the disk as before |
| FatMount.FormattedDisk | fat/fat_format.c:137-191 | The disk afterwards: the volume's blocks in the partition, everything else as before |
| FatMount.FormattedTable | fat/fat_format.c:148-166 | The table read back has 0xFF00, 0xFFFF and the root directory's end mark 0xFFFF, and 0 in every other entry |
| FatMount.GeometryIff | fat/fat.c:429-435 | For every cluster size, given or computed: the mounted counts are right and no cluster number reaches the bad or end marks if and only if the data region has fewer than (0xFFF7 - 1) clusters' worth of sectors; there is a cluster exactly when the data region holds one |
| FatMount.GeometryExact | fat/fat.c:429-435 | A computed cluster size always meets that condition from four sectors on |
| FatMount.GivenCanReachMarks | fat/fat_format.c:92-102 | A given size of 1 on 66043 sectors does not: cluster numbers reach the marks |
| FatMount.GivenCanWrap | fat/fat.c:431-432 | A given size of 1 on 70000 sectors: the 16-bit count of clusters wraps |
| FatMount.GivenCanLoseTable | fat/fat_format.c:113-114 | A given size of 1 on 16908289 sectors: the 16-bit size of the table wraps to 0 and sectors are written twice |
| FatMount.TableHoldsIff | fat/fat.c:429-435 | For every cluster size, given or computed, and 512-byte sectors: the table has an entry for every cluster if and only if FATSz*(256*spc+2) - (sectors-1) > spc, and so for every entry a right mount counts |
| FatMount.TableCanBeShort | fat/fat.c:429-435 | A volume of 259 sectors for which it does not |
| FatMount.ClusterExtents | fat/fat_internals.h:59-62 | For every cluster size, also where counts wrap, the sector extents of the clusters lie in the data region and do not overlap |
| FatMount.ExtentsFollow | fat/fat_internals.h:59-62 | Cluster 2 starts right behind the two tables and each further cluster right behind the one before |
| FatMount.MountFresh | fat/fat.c:396-475 | Mounting a formatted volume, whatever its cluster size, that meets the conditions of GeometryIff and TableHoldsIff gives a valid volume whose root directory holds the label entry alone and whose other clusters are all free |
| FatNames.ParseDirectory | fat/fat_names.c:38-95 | Parsing gives the stored names of the path's pieces in order, small letters as capitals and spaces up to 39 bytes, and fails exactly when a piece is longer or has a character outside the permitted set |
| FatNames.BuildDirName | fat/fat_names.c:107-128 | The 39 bytes written are the name with small letters as capitals, then spaces; refused exactly for more than 39 characters or one outside the permitted set, and then the first byte is 0 or the buffer untouched |
| FatNames.CaseInsensitive | fat/fat_names.c:107-128 | Paths that differ in letter case only are refused together or name the same entries |
| FatNames.GoodIsStorable | fat/fat_names.c:29-36 | The permitted characters as a set of codes, and the length limit of 39 |
| FatNames.PiecesTake | fat/fat_names.c:52-62 | A piece before a separator is the first piece of the path |
| FatNames.PiecesSkip | fat/fat_names.c:52-62 | A separator in front adds no piece |
| FatNames.RoundTrip | fat/fat_names.c:38-128 | Joining the stored names with separators and parsing again gives the same names |
| FatNames.FieldsJoin | fat/fat_names.c:52-62 | The fields joined again give the path, and none holds a separator |
| FatNames.JoinFields | fat/fat_names.c:52-62 | There is only one way to cut a path into fields |
| FatNames.PiecesShape | fat/fat_names.c:52-62 | No piece is empty or holds a separator |
| Bitmaps.BitmapSet | include/libs/bitmaps.h:49-52 | Setting a bit sets that position and no other |
| Bitmaps.BitmapClear | include/libs/bitmaps.h:54-57 | Clearing a bit clears that position and no other |
| Bitmaps.BitmapIsSet | include/libs/bitmaps.h:59-66 | The test reads that position |
| Bitmaps.BitmapFirstIsClear | include/libs/bitmaps.h:86-103 | The first clear position, or the length |
| Bitmaps.FirstClearBit | include/libs/bitmaps.h:94-98 | The first clear bit of a word, by a mask that doubles until it vanishes |
| Bitmaps.ChangedFlags | include/libs/bitmaps.h:49-57 | Changing one bit of one word, seen over the whole bitmap |
| ChunkValues.RunKeepsSound | libs/chunks.c:151-235 | Over every run of malloc and free, stray addresses included, counters equal the clear bits, buffers stay apart and no pool but the first created is wholly free |
| ChunkValues.LiveIsHeld | libs/chunks.c:151-235 | Over every run in which clients return what they hold, the live chunks are exactly those held |
| ChunkValues.LiveApart | libs/chunks.c:46-89 | Live chunks do not overlap, are aligned and lie inside a buffer |
| ChunkValues.MallocAddsOne | libs/chunks.c:151-192 | Malloc returns an aligned chunk that was not live and makes just that one live; it fails only when every chunk is live and no pool can be added |
| ChunkValues.FreeRemovesOne | libs/chunks.c:205-235 | Freeing a live chunk ends just that one |
| ChunkValues.FreeElsewhere | libs/chunks.c:217-226 | Any other address changes nothing or frees the live chunk it falls in |
| ChunkValues.FreeDropsEmptied | libs/chunks.c:91-107 | An extension pool goes exactly when its last live chunk is freed; the first pool never does |
| ChunkValues.CreateSound | libs/chunks.c:109-149 | Creation fails exactly without size, items or memory; the pool made has the alignment asked for (that of a long for 0), the least multiple of it that holds the size, the given delta, and one pool of exactly the given number of free chunks in the given buffer; it starts sound with nothing live |
| ChunkValues.EveryRunFromCreate | libs/chunks.c:109-235 | Over every run from a creation on, each address handed out is a multiple of the alignment asked for, and no two live chunks share any of the bytes asked for |
| ChunkValues.MallocDoes | libs/chunks.c:151-192 | Malloc takes the first free chunk of the first pool that has one; only when every chunk is used does it put a pool of exactly delta chunks in front and take its first, and it fails exactly when delta is 0 or memory is out |
| ChunkValues.FreeActsIff | libs/chunks.c:205-235 | Exactly when a release does something: the address falls in a used chunk, of the last chunk of a pool only its own address counting |
| ChunkValues.ChunkInside | libs/chunks.c:56-66 | A chunk is aligned, inside its buffer, and found again from its address |
| ChunkPool.ChunksPool.Malloc | libs/chunks.c:151-192 | The search over the pools and the bitmap, in place, with the outcomes of MallocDoes |
| ChunkPool.ChunksPool.Free | libs/chunks.c:205-235 | The search by address, the bitmap update and the deletion, in place |
| ChunkPool.PoolCreate | libs/chunks.c:109-149 | Creation in place, with its refusals and the pool that CreateSound states |
| HashValues.RunAgrees | libs/hash_list.c:52-168 | Over every run of add and del the table holds, row by row and in order, what a plain list of items holds |
| HashValues.EveryRunFromInit | libs/hash_list.c:26-168 | From a new table on, after every run a look-up gives the oldest item the plain list holds of that hash, and a slot without data when it holds none |
| HashValues.EveryRowByHash | libs/hash_list.c:26-168 | After every run each item is in the row its hash leaves as remainder, in a table of the size asked for and at least 16 |
| HashValues.GetAgrees | libs/hash_list.c:91-109 | Looking up gives the oldest live item of the hash; a slot without data means there is none |
| HashValues.AddAgrees | libs/hash_list.c:52-89 | Adding puts the item behind all others; EINVAL exactly for a null item and EGENERIC exactly for missing memory in a row some item hashes to |
| HashValues.DelAgrees | libs/hash_list.c:129-168 | Deleting removes just the oldest item of the hash and keeps the order of the rest; the code says so exactly, including success on an empty row 0 for hash 0 |
| HashValues.EmptyRowZero | libs/hash_list.c:146-150 | An empty row 0 answers get and del of hash 0 with a slot without data |
| HashValues.CopyUpDrops | libs/hash_list.c:111-127 | Copying every slot over its predecessor and dropping the last is removal of the first |
| HashCells.HashList.Add | libs/hash_list.c:52-89 | Filling the head slot or linking a cell behind the last, in place |
| HashCells.HashList.Get | libs/hash_list.c:91-109 | The walk along a row |
| HashCells.HashList.Del | libs/hash_list.c:129-168 | Emptying the head, copying up or unlinking the last cell, in place |
| HashCells.ShrinkRow | libs/hash_list.c:111-127 | The recursive copy-up leaves the row without its last cell and with every later slot moved up |
| HashCells.HashListInit | libs/hash_list.c:26-50 | Sizes below 16 become 16, above USHRT_MAX are refused, and every row starts empty |

## Left out

- Red-black keys: the comparison function is a strict total order represented by integers; a node passed to insert is not linked yet and has clear flags, as the header asks.
- In-order enumeration, counting, walking and printing of a tree: plain traversals without an invariant of their own.
- Scheduler queues are sequences of thread numbers; that the linked form is such a sequence operation is proved separately in `LinkedQueue`. Every link is made of a thread no queue holds, a precondition proved at each call, except for the kill of an untimed mutex waiter.
- SchedMachine.Scheduler.LinkKilledWaiter: the thread is in two queues afterwards; that the linked form also cuts the wait queue behind it is shown by `LinkedQueue.EnqueueCuts` and not carried into the scheduler's state.
- SchedSteps.StepKeepsInv: leaves out the kill of a sleeper or of an untimed mutex waiter, because the code breaks the invariant there; `SchedSteps.KillKeepsInvIff` states exactly when.
- SchedEffects.UpdateDoes: in which order several waiters that leave in one pass queue among themselves is given by the value function only.
- The clock does not wrap, and deadlines are unbounded; the period set on the clock device, the smaller of the two wake-up times, is not a field of the state.
- Context switching, stacks, interrupt masking and thread entry points: each kernel call is one atomic step.
- Mutexes: one mutex with a fixed set of live threads; the list of all mutexes, timed locks and the return codes of the kernel wrappers are not modelled.
- FAT volume: disk transfers succeed, and the timestamps of entries are not modelled.
- FatVolume.Volume.Write: the table array is FATSize long; `FatMount.TableHoldsIff` says when a formatted volume provides that.
- FatVolume.Volume.Write: every cluster is read into the volume buffer before it is overwritten, also where the code overwrites the whole buffer and skips the read; the bytes stored are the same.
- FatVolume.Volume.Append: the owner of the chain is named by a ghost argument; the code only knows a cluster of it.
- SchedWait.PassTakesAll: one direction only; which removable threads a crowded queue keeps depends on halving each run of them again and again until the turns are used up.
- FatVolume.Volume.Mount: the refusal of a volume already mounted and disk errors are not modelled, and how entries are read from directory clusters is not; the geometry it takes from the parameter block is `FatMount.Mounted`.
- FatCreate.Create: not modelled are paths on which the code's search is not well defined or leaves the model (`FatCreate.Ordinary`): a containing directory spelt with separators only, where the code uses an uninitialised entry; one that is a plain file, which the code takes for a directory; and dot entries on the way. A directory without a slot is not extended, since the code passes an end mark as an index there (fat/fat.c:594-600) and fails.
- FatVolume.Volume.Write: files are named by their stored paths; resolving a path for reading or writing is the search modelled in `FatCreate.Found`.
- Links, renaming, statistics and listing, and the bytes of directory entries in their clusters: directories are a map from stored paths to entries.
- Truncating and deleting: freed table entries get the mark of a free directory entry instead of 0, so the free count is not restored by the code.
- FatMount.Format: the volume number, the strings of the parameter block other than the label, and the timestamps of the label entry are not modelled, and sector numbers do not wrap at 32 bits; a write beyond the disk fails.
- FatMount.MountFresh: 512-byte sectors; the data region is given by clusters, and where the conditions of `FatMount.GeometryIff` and `FatMount.TableHoldsIff` fail the mounted volume is not modelled further.
- FAT names: memory for the split names never runs out; relative paths are not modelled.
- Chunk sizes and addresses are unbounded: 32-bit overflow of size times items is not modelled.
- ChunkPool.ChunksPool.Malloc: the pool list is a sequence; the doubly linked form is proved in `LinkedList`.
- Bitmaps: a `long` has 32 bits; the for-each callbacks are not modelled.
- Hash table: releasing the whole table and dumping it are not modelled.
- pakman, poll, alarms, timers, clock, drivers, graphics, console, disk access, MBR and BPB tools are not part of this model.
