# LBeacon: scheduler, allocator, worker pool and device lists

An LBeacon scans for Bluetooth devices, keeps what it heard on three lists and uploads it to a gateway.
Packets that arrive go through buffer lists to a pool of worker threads. This project models the four
stateful parts of that program and the two codecs beside them, and proves what they are for.

- **Worker pool.** `JobQueue` is the linked job queue on the heap, proved to be a FIFO. `ThreadPool` is the
  pool as an interleaving of atomic steps of any number of workers and one submitter, with program
  counters, both mutexes, the binary semaphore, signals, broadcasts and spurious wake-ups.
  `ThreadPoolInvariant` holds the inductive invariant, `ThreadPoolTheorems` what follows for every
  execution: no wake-up is lost, jobs are pulled in order, and each job is run and freed, or freed
  unrun, exactly once. `ThreadPoolProgress` shows that neither the running pool nor its shutdown can
  get stuck.
- **Scheduler.** `LinkedList` is the intrusive circular list with its real `next`/`prev` updates;
  `PriorityList` is the bucket sort on those links, `PriorityLevels` and `PriorityOrder` prove that it is a
  stable sort by the configured nice values and when it loses entries. `CommUnitSpec`, `CommUnitProofs`,
  `CommUnitEffects`, `CriticalFirst` and `CommUnit` are the routine that empties the buffer lists: bounded
  waiting over whole runs, in passes and in time, the timing of the starvation pass, the exact effect of
  scans and passes, and which packets are handed over and which discarded.
- **Allocator.** `MempoolSpec`, `MempoolProofs` and `Mempool` are the fixed-slot pool whose free list is
  kept inside the free slots, with 32-bit addresses and the signed arithmetic of `mp_free`.
- **Device lists.** `DeviceSpec` gives the operations on values; `DeviceProofs`, `DeviceOwnership`,
  `DisjointSightings`, `BleHistory` and `BrHistory` prove invariants and refinements over every sequence of
  operations.
  On the heap, `RingMap` is any number of circular lists at once and `DeviceRings` the three device lists
  and the local list of an upload, with the two list entries of every record: an entry is isolated exactly
  when its record is on no list that uses it. `DeviceLists` carries the operations out with the loops of
  the source on those links; like the source it decides by isolation what to free, and its contracts show
  that this frees what the specification says. `TrackedRing` is the link surgery that cuts an upload off
  its list, `TrackedUpload` the text of the upload and exactly when it fits its buffer, `DeviceReports`
  the budgets of the two uploads of a report. `ReportReader` reads such a text as its receiver does, and
  `ReportRoundTrip` shows that it reads back as what the records hold.
- **Codecs.** `Hex`, `Eir` (advertising data structures and the parser) and `Advertising` (the beacon's
  own advertising data). `PacketQueue` is the ring buffer of received packets.

The pattern throughout: a method does what the C function does, step by step, and its contract equates the
new state with a function of the old one; lemmas then prove what that function is worth.

Results where the code does less than its comments or its callers expect:

- `sort_priority_list` drops an entry whose nice value is none of the four levels; the sort is a permutation
  exactly when there is none (`PriorityOrder.SortIsPermutation`).
- `mp_free` never takes back the first slot of the only block, and takes back the first slot of another
  block exactly under the condition of `MempoolProofs.AcceptsFirstSlots`; all other slots are always taken
  back.
- `consolidate_tracked_data` with a budget of 190 or less loses the first record of a non-empty list
  (`TrackedRing.DetachPrefix`, `DeviceLists.ObjectLists.Consolidate`). `handle_tracked_object_data` never
  passes it such a budget (`DeviceReports.BudgetsSuffice`).
- An upload can exceed its budget. With a given payload and scan response length and every budget up to
  the message buffer the text always fits if and only if payload length plus twice the scan response length
  is at most 72, for arbitrary records in range, or 74, for the records the scanners make, which have no
  battery level when a payload is wanted (`TrackedUpload.BoundIsExact`; budget by budget, `FitsExactly`).
  For full BLE records none of the budgets that follow an empty BR/EDR upload suffices
  (`FullRecordsExceedBudget`); BR/EDR records carry no payload and always fit.
- `src/LBeacon.h:447-451` promises disjoint time intervals for records of one address. They never overlap,
  but they can touch in one second (`DisjointSightings.RecordsCanTouch`); exactly when, for every run, is
  `DisjointSightings.EveryRunStrictExactly`.
- The length check of `eir_parse_specific_data` lets the last byte of a structure lie one place beyond the
  data, exactly on the inputs of `Eir.LastByteMayLieBeyond`, such as that of `NameBeyondItsData`; and it compares the length of a structure with
  the size of the buffer although it writes two characters a byte, so that a buffer of 65 suffices for all
  data exactly when there are at most 31 bytes of it (`Eir.BufferSuffices`).
- `hex_to_decimal` gives the six characters behind '9' the values 10 to 15 (`Hex.HexToDecimalInverse`).
- `addpkt` cuts a binary packet at its first zero byte (`PacketQueue.CopiedIntact`).

## Model

| member | source | states |
|---|---|---|
| LinkedList.InitEntry | import/LinkedList.h:107-111 | the entry becomes a circular list of its own |
| LinkedList.InsertEntryList | import/LinkedList.h:129-136 | the new entry lies between the two others in both directions, and their outer links are untouched |
| LinkedList.IsIsolatedNode | import/LinkedList.h:151-154 | true exactly when the circle the node lies on has no other entry |
| LinkedList.IsEntryListEmpty | import/LinkedList.h:169-172 | true exactly when the head is the only entry |
| LinkedList.InsertListFirst | import/LinkedList.h:188-191 | the circle gains the entry right behind the head, all else in order, `prev` still inverse to `next` |
| LinkedList.InsertListTail | import/LinkedList.h:208-211 | the circle gains the entry at its end, in front of the head |
| LinkedList.RemoveEntryList | import/LinkedList.h:230-234 | the two neighbours are linked with each other and keep their outer links |
| LinkedList.RemoveListNode | import/LinkedList.h:252-258 | the rest is the same circle without the node, and the node is isolated, so that `is_isolated_node` tells whether it is on a list |
| LinkedList.ConcatList | import/LinkedList.c:51-64 | two disjoint circles become one, the entries of the second behind those of the first |
| LinkedList.GetListLength | import/LinkedList.c:66-77 | counts the entries other than the head; the traversal ends |
| LinkedList.RingUnique | import/LinkedList.h:107-258 | the links determine the contents: two descriptions of a circle from the same head are equal |
| PriorityList.SortPriorityList | import/BeDIS.c:266-334 | on the heap: the priority list ends as a well-formed circle in which critical lists come before those of high, normal and low priority, by their nice values and the configured ones; it holds exactly the entries with one of the four nice values, entries of equal nice value in their original order, and every other entry ends isolated |
| PriorityList.Distribute | import/BeDIS.c:283-306 | the loop moves every entry to the tail of a local list or leaves it isolated; which one is decided by its nice value and the four configured ones, the more urgent first; all lists stay well formed and disjoint |
| PriorityList.Splice | import/BeDIS.c:308-330 | a non-empty local list loses its head and its entries follow those of the priority list |
| PriorityOrder.SortIsStable | import/BeDIS.c:266-334 | within each level the entries keep their order |
| PriorityOrder.LevelsInOrder | import/BeDIS.c:308-330 | a more urgent level never follows a less urgent one; `SortSortsByNice` says so of the nice values |
| PriorityOrder.SortSortsByNice | import/BeDIS.c:283-330 | in the sorted list an entry of critical nice value has only such in front of it, one of high only critical and high, one of normal no low; kept are exactly the entries with one of the four values, in their order |
| PriorityOrder.BucketsByClass | import/BeDIS.c:290-305 | each level holds exactly the entries with its configured nice value and that of no more urgent level |
| PriorityOrder.SortIsPermutation | import/BeDIS.c:283-306 | the result is in level order, and it is a permutation if and only if every nice value is one of the four configured levels |
| PriorityOrder.BucketsPartition | import/BeDIS.c:283-306 | what is sorted together with what is dropped is what was there |
| PriorityOrder.CriticalPrefix | import/BeDIS.c:469-477 | the time-critical lists are exactly a prefix of the sorted list |
| CriticalFirst.SortGivesCriticalPrefix | import/BeDIS.c:469-477 | so the configuration of the scheduler, read off the sorted list, has them in front |
| CriticalFirst.CriticalStageServes | import/BeDIS.c:469-507 | with them in front the early break skips none: the stage hands over the head of the first non-empty time-critical list and does nothing else |
| CriticalFirst.CriticalStageIdle | import/BeDIS.c:469-507 | with every time-critical list empty the stage does nothing |
| CommUnitProofs.NormalScanExact | import/BeDIS.c:404-451 | a scan hands over at most one packet, the head of the first list whose head is not too old; every earlier list was empty or lost exactly its stale head; everything else is unchanged |
| CommUnitProofs.IterateExtends | import/BeDIS.c:386-558 | in one iteration nothing is lost, duplicated or reordered in any list, and a starvation pass takes a packet from every list that held one |
| CommUnitProofs.RunExtends | import/BeDIS.c:386-558 | the same over every run: what has left a list followed by what it holds is only ever extended at the end |
| CommUnitProofs.IterateConserves | import/BeDIS.c:386-558 | what has left a list followed by what it holds is after an iteration what it was before, followed by what arrived in it |
| CommUnitProofs.RunConserves | import/BeDIS.c:386-558 | the same over every run: nothing but the arrivals is added, nothing lost, in order |
| CommUnitProofs.PassesServe | import/BeDIS.c:456-546 | over every run a list has served more than k packets or at least one per starvation pass |
| CommUnitProofs.BoundedWaiting | import/BeDIS.c:390-546 | after k + 1 starvation passes a packet with k packets ahead of it has left its list, at its place in the order, whatever producers and normal scans did |
| CommUnitProofs.WaitingTime | import/BeDIS.c:390-559 | the same by the clock: while the work flag is set and consecutive readings are at most d apart, a packet with k packets ahead of it has left its list by the deadline |
| CommUnitProofs.DeadlineClosed | import/BeDIS.c:390-549 | the deadline is `(k + 1) * MAX_STARVATION_TIME + (2 * k + 1) * d` after the first reading: every pass begins at most d late, and after each but the last the next interval begins at most d after that pass began |
| CommUnitProofs.PassBeginsOnTime | import/BeDIS.c:390-402 | with a monotone clock and work enabled a pass is made at a reading if and only if it is the first that is `MAX_STARVATION_TIME` or more after the end of the previous pass |
| CommUnitEffects.PassExactly | import/BeDIS.c:400-402 | an iteration is a pass if and only if the clock reads no less than at the end of the previous pass and the work flag is cleared or 600 seconds have gone by; a clock set back keeps it scanning whatever the flag says |
| CommUnitEffects.ScanExact | import/BeDIS.c:400-451 | the exact state after a normal scan: in ascending order the head of every non-empty list before the end of the scan is discarded, its age by the clock reading above the limit, and the head it ends at, not above the limit, is handed over |
| CommUnitEffects.PassExact | import/BeDIS.c:456-558 | the exact state after a pass: the head of the first non-empty list among the leading time-critical ones, if any, and then, in strictly descending order, the head of every list not empty at its turn are handed over; nothing is discarded and nothing else leaves a list |
| CommUnitEffects.RunFates | import/BeDIS.c:386-558 | over every run a departure is a discard if and only if it was made by a normal scan and the packet was then older than the limit, by the clock reading of that scan |
| CommUnit.Scheduler.Scan | import/BeDIS.c:412-446 | the traversal of a normal scan, with its departures and what it leaves as in `ScanExact` |
| CommUnit.Scheduler.ServeTimeCritical | import/BeDIS.c:469-507 | the traversal with its early break hands over the head of the first urgent list and nothing else |
| CommUnit.Scheduler.ServeInReverse | import/BeDIS.c:510-546 | the backward traversal hands over, from the last list to the first, the head of every list that is not empty, and nothing else |
| CommUnit.Scheduler.Pass | import/BeDIS.c:456-558 | a starvation pass is the iteration `PassExact` is about |
| CommUnit.Scheduler.Routine | import/BeDIS.c:390-559 | the two nested loops compute the run the theorems speak of |
| MempoolProofs.RunKeepsInv | import/Mempool.c:60-265 | over every run of allocations and frees of slots in use: the free list never holds a slot twice or a slot in use, no slot is lost, and the counts add up to `alloc_time * slots` |
| MempoolProofs.ExpandKeepsInv | import/Mempool.c:89-135 | an expansion keeps that |
| MempoolProofs.AllocKeepsInv | import/Mempool.c:169-214 | so does an allocation, which returns a slot that was not in use, or fails and changes nothing |
| MempoolProofs.FreeKeepsInv | import/Mempool.c:217-265 | so does a free, whether the slot is accepted or refused |
| MempoolProofs.SlotsApart | import/Mempool.c:109-124 | distinct slots never overlap |
| MempoolProofs.AllocFailsOnlyWhenExhausted | import/Mempool.c:98-188 | with malloc succeeding an allocation fails if and only if `MAX_EXP_TIME * slots` slots are in use |
| MempoolProofs.ClosestIsClosest | import/Mempool.c:228-236 | the loop finds the smallest positive offset, or -1 when there is none |
| MempoolProofs.OffsetsOfSlot | import/Mempool.c:231 | with `int` casts and wrap-around, the offset in the slot's own block is the true one and any positive offset in another block is at least a block |
| MempoolProofs.AcceptsInnerSlots | import/Mempool.c:226-241 | for blocks in any address order, every slot but the first of its block is found in its own block and accepted |
| MempoolProofs.AcceptsFirstSlots | import/Mempool.c:226-241 | a first slot is accepted if and only if the nearest block at a positive offset is a multiple of the slot size away |
| MempoolProofs.LowestFirstSlotRefused | import/Mempool.c:233-241 | the first slot of the only block is never accepted |
| MempoolProofs.FewSlotsRefused | import/Mempool.c:226-241 | over every run the slots whose free is ever refused number at most the blocks obtained, hence at most `MAX_EXP_TIME` |
| Mempool.MemoryPool.LinkSlots | import/Mempool.c:109-124 | the links written into the new slots spell the new block, last slot first, in front of the old free list |
| Mempool.MemoryPool.ExpandPool | import/Mempool.c:89-135 | the expansion on the in-slot links is that of the specification |
| Mempool.MemoryPool.Allocate | import/Mempool.c:169-214 | the pool and the result are those of the specification; the chain read from the slots stays exact |
| Mempool.MemoryPool.Release | import/Mempool.c:217-265 | likewise, and the return value tells whether the slot was accepted |
| Mempool.MemoryPool.FindClosest | import/Mempool.c:226-236 | computes the offset `ClosestIsClosest` is about |
| Mempool.MemoryPool.Write | import/Mempool.c:211-213 | the user of a slot may overwrite it, first word included, without harm to the free list |
| Mempool.MemoryPool.UsagePercentage | import/Mempool.c:267-273 | the share of the obtained slots that is in use, between 0 and 1, and 1 exactly when the free list is empty |
| JobQueue.Queue.Push | import/thpool.c:328-349 | the job becomes the last of the sequence the links represent |
| JobQueue.Queue.Pull | import/thpool.c:356-388 | yields the first job or, from an empty queue, none; a new post is due exactly when jobs remain |
| JobQueue.Queue.Clear | import/thpool.c:313-324 | pulls every job once, in order, and leaves an empty queue |
| ThreadPoolInvariant.InvStep | import/thpool.c:124-445 | every step of every thread keeps the invariant |
| ThreadPoolInvariant.ReachableInv | import/thpool.c:124-445 | it holds in every state of every execution with any number of workers |
| ThreadPoolTheorems.NoWakeupIsLost | import/thpool.c:230-445 | before shutdown a non-empty queue means that the semaphore is set, or a worker has passed `bsem_wait` and not finished its pull, or the submitter owes its post; a set semaphore with sleepers means that a woken worker has yet to test it |
| ThreadPoolTheorems.AllAwake | import/thpool.c:429-434 | in every execution, from the broadcast of a shutdown until the semaphore mutex is released no worker sleeps |
| ThreadPoolTheorems.MutualExclusion | import/thpool.c:328-445 | while a worker is inside a region of a mutex, neither another worker nor the submitter is inside a region of it, for both mutexes |
| ThreadPoolTheorems.PulledInOrder | import/thpool.c:328-388 | in every reachable state the pulled jobs are a prefix of the submitted ones, each once and in order, and the queue is exactly the rest |
| ThreadPoolTheorems.RunAndFreedAtMostOnce | import/thpool.c:230-324 | no job runs or is freed twice, none is freed before its run, none is both run and cleared |
| ThreadPoolTheorems.EveryJobAccountedFor | import/thpool.c:148-324 | once the pool is destroyed each submitted job was run once and then freed once, or never run and freed once by `jobqueue_clear` |
| ThreadPoolProgress.PullStep | import/thpool.c:230-388 | while a job waits, some thread can move so that its pull comes strictly nearer, or pulls it |
| ThreadPoolProgress.FrontJobCanBePulled | import/thpool.c:230-388 | no deadlock while it runs: from every state of the invariant with a job waiting and a worker, some continuation without submissions and spurious wake-ups pulls that job |
| ThreadPoolProgress.ShutdownStep | import/thpool.c:148-324 | while workers remain, some thread can move so that the shutdown comes strictly nearer to its end, even when all workers sleep |
| ThreadPoolProgress.ShutdownCompletes | import/thpool.c:148-324 | a shutdown cannot hang: from every state of the invariant after `thpool_destroy` has begun, some continuation without spurious wake-ups destroys the pool |
| ThreadPoolProgress.NoDeadlock | import/thpool.c:124-445 | both for every state of every execution with any number of workers; the continuations are executions of the pool |
| DeviceProofs.SweepExact | src/LBeacon.c:658-718 | when the one-flag sweep stops at an expired node, that node and all behind it are expired, the nodes passed are not, and a sweep that finds nothing leaves no node with the address |
| DeviceProofs.SweepRemovesExactlyExpired | src/LBeacon.c:658-718 | while the clock stands still and nothing is found, the nodes removed are exactly those older than the interval |
| DeviceSpec.MatchesIsEqual | src/LBeacon.c:590-610 | the two prefix comparisons together are equality of the addresses |
| DeviceProofs.RunKeepsInv | src/LBeacon.h:439-460 | over every run in which uploads have a budget that admits a record or an empty list: no list holds a record twice, the BLE list shares none, the slots in use are exactly the records on lists, the scanned and the BLE list have distinct addresses, the scanned list is newest first, and records of one address on the BR/EDR list do not overlap in time and only the last can still grow |
| DeviceProofs.EveryRunKeepsInv | src/LBeacon.h:439-460 | in particular every run that starts with empty lists |
| DeviceProofs.StepKeepsInv | src/LBeacon.c:440-762 | every operation keeps that |
| DeviceProofs.CheckScannedOwnership | src/LBeacon.c:668-710 | after the sweep the slots in use are again exactly the records on lists, and the slots handed back, each once, are those that were in use and are no longer on any list; that the isolation test decides so is `DeviceLists.ObjectLists.CheckScannedList` |
| DeviceProofs.UploadOwnership | src/LBeacon.c:1751-1787 | so does an upload; on the links `DeviceLists.ObjectLists.ReleaseDetached` |
| DeviceProofs.CleanupOwnership | src/LBeacon.c:2664-2711 | so does each clean-up; on the links `DeviceLists.ObjectLists.CleanupLists` |
| DeviceProofs.CleanupAll | src/LBeacon.c:2728-2730 | the three clean-ups in sequence empty all lists and free every record once, none twice |
| DeviceOwnership.StepOwnership | src/LBeacon.c:1764-1786 | an operation frees a slot precisely when its record leaves the last list it was on; `DeviceLists` ties every operation it speaks of to the code that tests for isolation |
| DeviceOwnership.RunOwnership | src/LBeacon.c:440-762 | over every run a slot is freed exactly as often as it was taken, less one while its record is on a list |
| DeviceOwnership.EveryRunFreesOnce | src/LBeacon.c:440-762 | from empty lists on every slot taken has been freed once or its record is still on a list, and a run that ends with empty lists has freed as often as it took |
| DisjointSightings.StrictUnlessSameSecond | src/LBeacon.h:447-451 | an operation keeps the time intervals of equal addresses disjoint if and only if it does not start a record in the second in which an earlier record of that address was last extended |
| DisjointSightings.StepStrict | src/LBeacon.h:447-451 | one operation keeps them strictly disjoint when it extends records within their interval only |
| DisjointSightings.EveryRunStrictExactly | src/LBeacon.h:447-451 | over every run from empty lists they stay strictly disjoint throughout if and only if no operation of the run starts a record in the second in which an earlier one of its address was last extended |
| DisjointSightings.EveryRunStrict | src/LBeacon.h:447-451 | in particular they do over every run in which records are extended within their interval |
| DisjointSightings.RecordsCanTouch | src/LBeacon.c:470-688 | for every device a legal run from empty lists after which two records of its address touch |
| BleHistory.StepRefines | src/LBeacon.c:450-588 | a book of what was heard of each address, kept by looking at the operations alone, steps with the lists: after every operation the BLE list holds the addresses of the book in its order, and each record represents what the book says of its address |
| BleHistory.RunRefines | src/LBeacon.c:450-588 | the same over every run |
| BleHistory.EveryRunRefines | src/LBeacon.h:455-460 | from empty lists on each BLE record tells the first and last time, strongest signal, latest battery level, payload and accepted scan response heard of its address since its insertion |
| BrHistory.StepRefines | src/LBeacon.c:450-560 | for the BR/EDR devices a book with one history per record steps on the operations alone: a sighting extends the record with the address that is on the scanned list and not late, by 600 seconds from its first sighting, and otherwise starts another; after every operation the lists are those of the book, each record represents its history, and no other record has changed |
| BrHistory.EveryRunRefines | src/LBeacon.h:439-452 | from empty lists on, over every run, each BR/EDR record tells the first and last time, strongest signal, sticky button and latest battery level heard of it |
| BleHistory.MergeRepresents | src/LBeacon.c:470-490 | a further sighting extends that history; a button press is not forgotten |
| BleHistory.RespondRepresents | src/LBeacon.c:580-586 | a scan response is kept exactly when the last sighting asked for it |
| RingMap.Remove | import/LinkedList.h:252-258 | with any number of circles on the heap exactly that of the node changes, and the node becomes a circle of its own |
| DeviceRings.IsolationTells | src/LBeacon.h:366-367 | in every state of the invariant that all operations keep, an entry of a record points to itself if and only if the record is on no list that uses this entry |
| DeviceRings.IsUnlinked | import/LinkedList.h:151-154 | so `is_isolated_node` on `sc_list_entry` decides whether a record is on the scanned list, and on `tr_list_entry` whether it is on a tracked-object list or a local list |
| DeviceRings.Add | src/LBeacon.c:504-517 | a new record with two isolated entries; all lists stay as they are |
| DeviceRings.LinkFirst | src/LBeacon.c:550-552 | the record becomes the first of the list, and no other list changes |
| DeviceRings.LinkLast | src/LBeacon.c:544-555 | the record becomes the last of the list, and no other list changes |
| DeviceRings.Unlink | src/LBeacon.c:674 | the record leaves that list, the rest in order; its other entry and all other lists stay as they are |
| DeviceRings.Detach | src/LBeacon.c:1619-1666 | the admitted front of a list moves to the local list; admitting none of a non-empty list unlinks its first record for good, and its entry does not point to itself |
| DeviceLists.ObjectLists.CheckScannedList | src/LBeacon.c:655-722 | on the heap: the traversal with its flag unlinks nodes and frees those whose other entry is isolated; lists, records and slots handed back, in order, are those of the specification `SweepExact` is about |
| DeviceLists.ObjectLists.RemoveScanned | src/LBeacon.c:698-709 | one node leaves the scanned list, and goes back to the pool exactly when it is not on the BR/EDR list, although the code only tests the other entry for isolation |
| DeviceLists.ObjectLists.CheckBleList | src/LBeacon.c:724-745 | following the links finds the first record with the address, or reports that there is none |
| DeviceLists.ObjectLists.SendToPushDongle | src/LBeacon.c:440-560 | keeps the links and the lists sound and makes the store that of the specification, of which `BleHistory.StepRefines` and `BrHistory.StepRefines` tell what each record then holds |
| DeviceLists.ObjectLists.SendToPushDongleScanRsp | src/LBeacon.c:562-588 | likewise |
| DeviceLists.ObjectLists.Consolidate | src/LBeacon.c:1569-1792 | on the heap: the admitted prefix is written and released and the rest stays in order; the text reads back as kind, count and one line for each record of the prefix, as `ReportRoundTrip.MessageTells` says; with a budget of at most 190 and a non-empty list the header says 0 and the first record is lost, on no list but with an entry that does not look isolated |
| DeviceLists.ObjectLists.CutOff | src/LBeacon.c:1619-1666 | the admitted records become the local list; which list and which record is affected in every case |
| DeviceLists.ObjectLists.ReleaseDetached | src/LBeacon.c:1751-1787 | the local list is emptied; BLE records go back to the pool, BR/EDR records exactly those not on the scanned list, decided by the isolation test, in order |
| DeviceLists.ObjectLists.CountSendable | src/LBeacon.c:1684-1694 | the number in the header is the number of records written |
| DeviceLists.ObjectLists.MessageText | src/LBeacon.c:1695-1746 | header and records, in list order, leaving out records still waiting for a scan response; read back by `ReportReader.Read` they are what the records hold |
| ReportRoundTrip.MessageTells | src/LBeacon.c:1695-1746 | for every list whose addresses contain no semicolon, splitting the message at semicolons and reading decimal and hexadecimal numbers gives the number of the kind, the number of lines, and in list order for each record address, first and last time, signal, button, battery level and the bytes of payload and scan response; records that need a scan response and have none are left out |
| ReportRoundTrip.DecReads | src/LBeacon.c:1734-1742 | the decimal text of a number reads back as the number |
| DeviceLists.ObjectLists.CleanupLists | src/LBeacon.c:2664-2711 | on the heap: every node leaves its list and, unless its other entry is isolated, the other one; the result is that of the specification, for each of the three lists |
| TrackedRing.CountAdmitted | src/LBeacon.c:1627-1645 | the number of records the budget admits, and the tail pointer the cut relies on |
| TrackedRing.DetachPrefix | src/LBeacon.c:1619-1666 | on the heap: the list splits into two well-formed circles, the prefix and the rest; with a budget of at most 190 the first record ends on neither, not isolated |
| TrackedRing.DetachFront | src/LBeacon.c:1619-1666 | the same among other lists, which are left alone |
| TrackedUpload.RecordFitsBuffer | src/LBeacon.h:172-176 | every record is shorter than the 190 characters of its buffer |
| TrackedUpload.AdmittedWithinBudget | src/LBeacon.c:1631-1644 | what the admitted records take from the budget leaves at least 35 of it |
| TrackedUpload.MessageFitsBudget | src/LBeacon.c:1631-1746 | whatever the lengths of the single records, the whole text with its NUL fits the budget when payload length plus twice the scan response length is at most 72 for each of them, or 74 if they are as the scanners make them |
| TrackedUpload.FitsExactly | src/LBeacon.c:1631-1746 | for every budget above 190 and records of given lengths, all in range or all as the scanners make them: the text always fits if and only if the widest text, in closed form, does |
| TrackedUpload.BoundIsExact | src/LBeacon.c:1259-1299 | for budgets up to the message buffer, or any larger limit, the text always fits if and only if payload length plus twice the scan response length is at most 72 for records in range, and at most 74 for those the scanners make |
| TrackedUpload.FullRecordsExceedBudget | src/LBeacon.c:1285-1292 | for BLE records with full buffers every budget from 8060 to 8188, those that follow an upload of no BR/EDR record and at most 128 characters of basic information, is exceeded by some list, also of records the scanners make |
| DeviceReports.RunScanned | src/LBeacon.c:2014-2205 | over every run of operations with what the scanners pass, every record is in range, has no battery level when a payload is wanted, and those of BR/EDR devices carry no data |
| DeviceReports.BudgetsSuffice | src/LBeacon.c:1259-1292 | the BR/EDR text takes less than half of the message buffer, so that both budgets of a report exceed 190 and neither upload can lose a record |
| DeviceReports.ReportsAreLegal | src/LBeacon.c:1226-1315 | after every such run the two uploads of a report are operations the run theorems speak of, in whatever state the second one finds the lists |
| DeviceReports.ReportFits | src/LBeacon.c:1226-1315 | the whole report with its NUL fits the message buffer when payload length plus twice the scan response length is at most 74 for each BLE record |
| Hex.DecodeText | import/BeDIS.c:51-73 | `hex_to_decimal` on the printed text gives back the bytes |
| Hex.TextAt | import/BeDIS.c:51-61 | byte by byte the text is the two digits, out of "0123456789ABCDEF", the more significant one first |
| Hex.HexToDecimalInverse | import/BeDIS.c:51-73 | `hex_to_decimal` gives a digit's value exactly to the characters from '0' to '?' and 'A' to 'F', and inverts `decimal_to_hex` exactly on '0' to '9' and 'A' to 'F', the characters that produces |
| Hex.Print | src/LBeacon.c:1893-1909 | the text and a NUL are written to the front of the buffer and nothing beyond |
| Eir.DecodeEncode | src/LBeacon.c:1824-1886 | a concatenation of length-type-data structures determines the structures |
| Eir.ParseSpecificData | src/LBeacon.c:1812-1891 | on all data for which the text fits the buffer: success exactly when the first structure of the type is no longer than the buffer and, for manufacturer data, of length 7 or 11; its text, padded with zeros, is then the content of the buffer; no index beyond `eir_len` is read |
| Eir.FindsFirst | src/LBeacon.c:1824-1886 | on all data, zero-padded or cut short or not, the walk succeeds at a place if and only if the first structure of the type lies there, with well-formed structures of other types filling the data before it, and is acceptable |
| Eir.FirstDecides | src/LBeacon.c:1835-1880 | the first structure of a type that is searched for decides: if it is not acceptable nothing is found |
| Eir.NotFound | src/LBeacon.c:1827-1832 | nothing is found when only structures of other types lie before the end of the data, a zero length byte or a structure cut short |
| Eir.PrintedDecodes | src/LBeacon.c:1843-1850 | the text left in the buffer decodes to length byte, type and data of the structure found |
| Eir.BufferSuffices | src/LBeacon.c:1839-1850 | the text of every accepted structure fits the buffer for all data if and only if the buffer holds the text of the longest name; a buffer of 65 exactly for at most 31 bytes of data |
| Eir.LastByteMayLieBeyond | src/LBeacon.c:1831 | the walk reports a structure that reaches index `eir_len` if and only if the first structure of the type in the data has a length byte that makes it end there and is acceptable |
| Advertising.UuidStrToData | src/LBeacon.c:47-72 | the array is filled with the bytes whose hexadecimal text is the string in upper case |
| Advertising.UuidPrinted | src/LBeacon.c:47-72 | for every string of hexadecimal digits the bytes print as the string in upper case |
| Advertising.BuildAdvertisingData | src/LBeacon.c:888-1010 | no write leaves the 31 bytes and the length is 30; a receiver reads exactly one beacon, whose UUID prints as the given string in upper case, with the low 16 bits of major and minor and the low 8 bits of the power as a signed number |
| Advertising.BeaconRoundTrip | src/LBeacon.c:888-1010 | a receiver reads exactly two structures and gets back the UUID, the low 16 bits of major and minor and the low 8 bits of the signal power as a signed number |
| Advertising.BeaconUnchanged | src/LBeacon.c:888-1010 | everything comes back unchanged if and only if major and minor are 16-bit and the power is 8-bit signed |
| PacketQueue.PacketRing.constructor | import/pkt_Queue.c:42-65 | an empty queue for any capacity of at least one |
| PacketQueue.PacketRing.IsNull | import/pkt_Queue.c:320-327 | true exactly for the empty queue |
| PacketQueue.PacketRing.IsFull | import/pkt_Queue.c:330-345 | true exactly when the queue holds as many packets as it has slots |
| PacketQueue.PacketRing.QueueLen | import/pkt_Queue.c:348-377 | the number of packets, never the error code |
| PacketQueue.PacketRing.AddPkt | import/pkt_Queue.c:97-190 | which of the four results, and that exactly on success a packet is appended, with the port and content size given and the address and content copied up to their first zero byte |
| PacketQueue.PacketRing.DelPkt | import/pkt_Queue.c:228-277 | drops the first packet, if there is one |
| PacketQueue.PacketRing.GetPkt | import/pkt_Queue.c:193-222 | yields and drops the first packet, or yields a blank one |
| PacketQueue.PacketRing.FreePacketQueue | import/pkt_Queue.c:68-91 | the loop ends, the queue is empty, and since the flag is never reset `AddPkt` refuses everything from then on |
| PacketQueue.PacketRing.FlagTellsOccupied | import/pkt_Queue.c:97-277 | a slot's flag is false exactly for the slots of the occupied arc |
| PacketQueue.CopiedIntact | import/pkt_Queue.c:163-172 | a packet comes out with the bytes put in if and only if no byte follows a zero byte |

## Left out

- Concurrency outside the worker pool: each operation on the device lists, the pool of slots and the packet queue is atomic, as its lock makes it; `consolidate_tracked_data` releases the lock between its steps, and that interleaving is not modelled.
- Scans of the scheduler are atomic towards producers, except between the two stages of a starvation pass; arrivals at one list commute with the rest of a scan of other lists.
- The buffer lists of the scheduler are sequences in `CommUnit.Scheduler`; the link operations they rest on are proved on the heap in `LinkedList` and `PriorityList`. In `DeviceLists.ObjectLists` links and entries are on the heap, the other fields of a record in a map by slot.
- The result of `thpool_add_work` is ignored by its caller; a failed allocation of a job is no step of the worker pool.
- Jobs are named by their order of submission, so reuse of a job's slot is the business of `Mempool`; what a job computes is not interpreted.
- `jobqueue_clear` pulls without interference, which `ThreadPoolInvariant.Phases` justifies: every worker has left by then. Progress needs a fair scheduler, which is not modelled; `ThreadPoolProgress` gives the schedules.
- `thpool_init`, thread creation, the timed part of `thpool_destroy` as distinct from its polling, and the final frees.
- `mp_destroy`, which sets its pointers to NULL before it frees them; `mp_init` with no slots, after which `mp_alloc` would follow NULL; slots smaller than a pointer; blocks of 2 GB or more; address spaces other than 32 bits.
- `UsagePercentage` computes over the reals.
- ParseSpecificData: excludes the data whose text overruns the buffer, on which the source has no defined behaviour; `Eir.BufferSuffices` tells when there is none.
- The content of the buffer after `eir_parse_specific_data` fails, which a NULL format string leaves undefined.
- `uuid_str_to_data` on strings with other characters or an odd number of digits, where the source reads outside its table.
- Addresses with a semicolon, which the receiver of an upload would split; addresses come from `ba2str` and hold none.
- Addresses of 18 or more characters, which `strncpy` would leave unterminated.
- Negative content sizes, which `addpkt` would pass on to `strncpy` as huge ones.
- The run theorems take uploads with a budget above 190 or an empty list, which `DeviceReports.ReportsAreLegal` shows for reports; what such an upload with a smaller budget loses is stated by `DeviceLists.ObjectLists.Consolidate` alone.
- The bytes of Bluetooth events: `DeviceReports.FromScanners` states the ranges of what the scanners pass on, with advertising data of at most 31 bytes.
- Wrong list or device-type arguments, which are logged and ignored.
- `examine_scanned_ble_device` and the list of temporary BLE devices, with the weak-signal records it does not free.
- HCI and UDP traffic, configuration, logging, sleeping, the address map, string helpers and the code for classic Bluetooth pushing.
- Encryption and framing of packets in UDP_API; libEncrypt is not part of this model.
