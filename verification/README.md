# OceanBase 0.4 ChunkServer: background machinery, modelled and proved in Dafny

The project models the parts of the ChunkServer that keep state across threads, calls or
files, and proves what they keep over every run:

* the **daily merge** (`ObChunkMerge`): worker threads that drain batches of tablets, park
  when there is nothing to do or the load is high, and upgrade the served version at the
  end. `MergeSections` has the mutex-held sections, `MergeProtocol` the transition system
  over all interleavings, `MergeInvariant` what every step keeps of batch and counters,
  `MergeOrder` what it keeps of versions and wake-ups while the served version has a
  tablet, `MergeTheorems` what follows for all runs, `MergeSteps` and `MergeRetries` when
  exactly a step does what. `MergeProgress` and `MergeRescue` say
  when an open round can be brought to its end and by whom, `MergeFairness` how long a
  tablet can wait, `MergeExact`, `MergePaths`, `MergeLimits` and `MergeFailures` have the
  exact conditions of what does not always hold, with the runs. `ChunkMerge` is the
  scheduler object, `TabletImage` the part of the two-slot tablet image the scheduler uses,
  and `ImageRuns` ties the two together over whole runs;
* the **disk manager** (`ObDiskManager`): reservations, the one-pass choice of a disk, the
  disk table built by `scan`. `DiskTable` has the meaning of the operations, `DiskManager`
  the object, `DiskRuns` and `DiskLedger` the results over any sequence of calls;
* the **bypass loader** (`ObBypassSSTableLoader`): disks split among threads
  (`BypassShares`), an atomic counter that elects the finisher (`BypassProtocol`,
  `BypassTheorems`), and the commit or rollback against the image (`BypassCommit`);
* the **compact-sstable queue** (`ObCompactSSTableMemThread`): a ring with lazily wrapped
  indices (`CompactQueue`, `Versions`);
* the **read path**: many remote calls presented as one stream of cells (`GetStream`),
  the merging of a row's cells (`Cells`), the rows cached beside the stream (`RowCache`,
  `JoinCacheRuns`, `CellStream`), and the compact sstables attached to a get or a scan
  (`ScanProxy`);
* two **metadata tools**: the repair of the tablet ring (`RingRepair`) and the layout
  checks of the sstable checker (`SstableLayout`).

`dafny verify dfyconfig.toml` checks all of it.

## Assumptions

* A section held under the scheduler's mutex is one step, and so is a call of `schedule`,
  which takes no lock in the source. `MergeFailures.ResetInsideFetchUpgradesTooEarly`
  shows that the second assumption is needed.
* The tablet image answers a merge request with distinct unmerged tablets older than the
  requested version, and with all of them unless the batch is full; it reports version 0
  once the served version has no tablet; it refuses to upgrade only to a version with
  tablets that is not above the reported one; and it takes a slot over for another version
  only if the tablets in it are merged. `ImageRuns.ImageMeetsProtocol` derives this from the
  image's own code, for every state of every run.
* Migration, deletion and creation of tablets are changes of a tablet's status between
  steps, as arbitrary as the server lets them be: a tablet that enters is of the served
  version or the next, or of any version on an empty server. Every worker may also wake up
  without a signal.
* The outcome of every call into another server, the file system, the clock, the load
  average, memory allocation or a tablet merger is a parameter or a nondeterministic event.
* The join cache keeps the value first put under a key and may drop entries at any time.

## What the code does not keep

Each of these has a lemma with the exact condition and a run or an input that fails.

* The frozen version is the reported one or the next only from the moment the scheduler has
  seen a served version, at its start or in a `schedule` call (`VersionDisciplineIff`). A
  server that starts empty and is given a tablet is out of order until then
  (`FirstTabletGoesUnseen`). Once the served version has run out of tablets the order is
  lost, except while the frozen version is 0, or 1 in an open round.
* The two branches the source calls impossible are impossible as long as the served version
  has a tablet (`ImpossibleBranches`). A worker kills the process exactly when the last
  `schedule` call, coming after the batch was taken, left a frozen version below its
  tablet's (`KillIff`); removing the last tablet while a worker holds it leads there
  (`RemovalKills`). `RefillAfterEndIff` says when a refill finds the round over; dropping
  the last table leads there, through an upgrade to an empty version (`EmptyUpgrade`).
* The workers can end an open round if and only if the image would upgrade already, a tablet
  is to be merged, or a merge is ahead (`RoundCanEndIff`). If the last tables are dropped
  and a tablet of the served version is allocated before the round has ended, they cannot,
  and retry for good (`CornerIsReached`, `HopelessForGood`). The next calls of `schedule`
  free them (`OpenRoundCanEnd`).
* A worker that gets no merger leaves its loop and stays counted as active. Load throttling
  can then park the last running worker (`ThrottleLeavesOneIff`, `ThrottleParksLast`). A
  step leaves an open round with nobody to go on with it exactly when it takes the last
  worker who is awake in one of these two ways (`StallStepIff`, `LeavingStalls`), and no
  round is ever opened again (`NoRoundAfterExit`).
* A server that loads one version, all of it merged, serves an empty slot and reports no
  version (`LoadedStartsIff`).
* Adding a tablet relabels the slot of its version without emptying it. The slots stay in
  order if and only if there was nothing to relabel (`RelabellingIsSoundIff`), which the
  allocation before it sees to (`AllocationMakesAddingSound`).
* `active_thread_num_` starts at the number of threads asked for. A thread that did not
  start blocks merging for good (`RoundsStartIffAllThreadsDid`).
* The per-disk merge limit is looked at and counted in two separate steps. It is a limit if
  and only if there are no more workers than it allows (`LimitHoldsIffFewWorkers`).
* `pending_merge_` has OB_MAX_DISK_NUMBER (16) entries and is indexed by disk numbers, which
  run from 1 to 16. Merges are counted inside the array if and only if no tablet is on
  disk 16 (`CountersSufficeIff`).
* After a failed scan nobody runs `finish_load`, and the loader goes on reporting that it is
  loading (`FinishedIffNoScanFailed`). After a stop signal a load can finish without some of
  its files (`FinishedLoadIsCompleteIff`, `ShutdownSkipsFiles`). A tablet that entered the
  image's list but not its sstable index survives the rollback (`UnindexedSurvives`).
* A completion without a live reservation can over-commit a disk (`CompletionIsSafeIff`).
* The compact-sstable queue jams when it fills up, unless it is the first fill, and stays
  jammed (`FifoIffCareful`, `JamIsForever`); its tablets are then never released
  (`Queue.Destroy`).
* The get stream ends normally on a response that claims more cells than were asked for
  and is not marked fulfilled (`EndsIffTolerated`).
* A row without a key costs the next row of the response its first cell in the cache
  (`UnkeyedRowCutsNext`, `PutsWholeRowsIff`). A cache lookup in the middle of a row can make
  the cache keep its second half (`HalfRowCachedIff`). A cached row is the merge of the
  delivered cells and not always the cells themselves (`MergedIsVerbatimIff`). Cached rows
  are shared by reads whose end versions agree in the low 32 bits (`SharedIff`), which hold
  the major version.
* Without a bloom filter the checker accepts a schema that lies over the block index
  (`SchemaMayLieAnywhere`), and it accepts rows that lie over the row index
  (`RowsClearOfIndexIff`).
* Start and end flags are not touched by the ring repair, so that its result is a partition
  if and only if the flags of neighbours fit (`PartitionIff`).

## Model

| member | source | states |
|---|---|---|
| `MergeTheorems.UpgradeIsComplete` | oceanbase/src/chunkserver/ob_chunk_merge.cpp:605-727 | in every run a round ends only when no worker holds a tablet and every older tablet in the image is flagged merged; if the served version was never empty, the service moves by one to the frozen version, which is then reported if and only if it has a tablet |
| `MergeTheorems.UnmergedIsNeverLost` | oceanbase/src/chunkserver/ob_chunk_merge.cpp:404-478 | in every run a tablet that is not merged stays in the image until a step merges it, discards it or changes it from outside |
| `MergeTheorems.PendingIsNeverLost` | oceanbase/src/chunkserver/ob_chunk_merge.cpp:404-478 | nor does the service move past it, as long as the served version is not empty |
| `MergeTheorems.SettledBeforeUpgrade` | oceanbase/src/chunkserver/ob_chunk_merge.cpp:404-478 | between a tablet's waiting and the service's moving on lies a step that merged it and left it flagged merged, discarded it and left it flagged merged and removed, or changed it from outside |
| `MergeRetries.MergeCountIsExact` | oceanbase/src/chunkserver/ob_chunk_merge.cpp:448-468 | in every run a tablet's merge count grows by exactly the number of its merges, failed ones included, unless it gets flags from outside or is made by a merge |
| `MergeRetries.GivenUpIff` | oceanbase/src/chunkserver/ob_chunk_merge.cpp:404-433 | a worker gives a tablet up if and only if it was merged more often than the limit, exactly two listed copies are newer and the root server consents; then it is flagged merged and removed, and leaves the image if the image lets it; else looking at a tablet changes no flag |
| `MergeRetries.MadeAreFresh` | oceanbase/src/chunkserver/ob_tablet_merger_v1.cpp:136-150 | what a merge makes enters the image unmerged and untried, one version up |
| `MergeSteps.AdmittedIff` | oceanbase/src/chunkserver/ob_chunk_merge.cpp:404-478 | a worker may merge its tablet if and only if it is not too new and not given up, a merger is at hand, and fewer workers than the limit are inside a merge on its disk; without a merger the worker leaves |
| `MergeSteps.AskOutcome` | oceanbase/src/chunkserver/ob_chunk_merge.cpp:659-738 | what a request comes to, in every case: the next tablet, the first of a fresh batch, another try, or a place to sleep |
| `MergeSteps.UpgradeIff` | oceanbase/src/chunkserver/ob_chunk_merge.cpp:605-727 | the service is upgraded if and only if a worker asks when all tablets are given back and none is left to merge, in an open round, the cache can be built and the image does not refuse |
| `MergeSteps.FlagsTellHistory` | oceanbase/src/chunkserver/ob_chunk_merge.cpp:605-727 | in every run an upgrade is pending since a try to finish failed, a round is fresh since its launch and until its first batch, and over since the upgrade and until the next launch |
| `MergeSteps.LaunchIff` | oceanbase/src/chunkserver/ob_chunk_merge.cpp:247-322 | `schedule` opens a round if and only if the version is above 1 and above the reported one, which is not 0, every thread asked for was started and is parked, the interval has passed, the bypass loader rests and the round could be started |
| `MergeSteps.NewestFrozenIsGreatest` | oceanbase/src/chunkserver/ob_chunk_merge.cpp:263-271 | the newest frozen version is the greatest one `schedule` was called for, or the version served at the start |
| `MergeSteps.GoesOnIff` | oceanbase/src/chunkserver/ob_chunk_merge.cpp:348-364 | a worker asks at once if and only if the load is low or no more than the minimum of workers runs, has left or was never started |
| `MergeTheorems.PendingComesBack` | oceanbase/src/chunkserver/ob_chunk_merge.cpp:680-706 | the next batch taken from the image contains every pending tablet, unless the batch is full |
| `MergeTheorems.NoStall` | oceanbase/src/chunkserver/ob_chunk_merge.cpp:348-398 | while the served version is not empty and no worker has left, an open round always has a worker that runs or has been woken |
| `MergeTheorems.ActiveCountsRunning` | oceanbase/src/chunkserver/ob_chunk_merge.cpp:348-398 | the active counter is the number of workers that run, have left or were never started, and is 0 exactly when all are parked |
| `MergeTheorems.ThrottleLeavesOneIff` | oceanbase/src/chunkserver/ob_chunk_merge.cpp:348-364 | load throttling leaves a worker running if and only if another one runs, or nobody has left and all were started |
| `MergeTheorems.LaunchFindsAllParked` | oceanbase/src/chunkserver/ob_chunk_merge.cpp:247-322 | a round is opened only when every thread asked for was started and is parked, so that no tablet is in hand |
| `MergeTheorems.NoRoundAfterExit` | oceanbase/src/chunkserver/ob_chunk_merge.cpp:434-437 | once a worker has left, no round is ever opened again |
| `MergeTheorems.MissingThreadBlocksMerging` | oceanbase/src/chunkserver/ob_chunk_merge.cpp:72-98 | if a counted thread never started, no round opens and nothing is upgraded |
| `MergeTheorems.BatchAccounting` | oceanbase/src/chunkserver/ob_chunk_merge.cpp:659-738 | 0 <= have-got <= index <= batch size <= 1024, the gap is the number of workers holding a tablet, and no two workers hold the same slot or tablet |
| `MergeTheorems.SlotHandedOutOnce` | oceanbase/src/chunkserver/ob_chunk_merge.cpp:664-672 | two hand-outs with no refill between them give different slots, in increasing order |
| `MergeTheorems.DiskCounterIsExact` | oceanbase/src/chunkserver/ob_chunk_merge.cpp:447-468 | each of the 16 counters is the number of workers inside a merge on its disk |
| `MergeExact.VersionDisciplineIff` | oceanbase/src/chunkserver/ob_chunk_merge.cpp:263-322 | serving <= frozen <= serving + 1 and the round flags agree with it: while the served version has a tablet, if and only if the scheduler has seen it at its start or in a `schedule` call; in the first state in which it is empty, exactly when the frozen version is 0, or is 1 in an open round |
| `MergeExact.FirstTabletGoesUnseen` | oceanbase/src/chunkserver/ob_chunk_merge.cpp:272-275 | the run: a server that starts empty is given its first tablet, and its frozen version stays behind the reported one |
| `MergeExact.KillIff` | oceanbase/src/chunkserver/ob_chunk_merge.cpp:406-411 | in every run a worker that looks at its tablet kills the process if and only if the last `schedule` call came after the batch was taken and left a frozen version below the tablet's |
| `MergeExact.RefillAfterEndIff` | oceanbase/src/chunkserver/ob_chunk_merge.cpp:680-726 | in every state up to the first with an empty served version, a request finds the round over if and only if that version is empty, the batch is used up, the round flag says so and the frozen version is above 0 |
| `MergeExact.StallStepIff` | oceanbase/src/chunkserver/ob_chunk_merge.cpp:348-489 | a step leaves an open round with nobody awake if and only if the only awake worker leaves, or is throttled although somebody has left |
| `MergeTheorems.ImpossibleBranches` | oceanbase/src/chunkserver/ob_chunk_merge.cpp:406-411 | no worker kills the process and no refill finds the round over, as long as the served version is not empty |
| `MergeInvariant.StepKeepsCounts` | oceanbase/src/chunkserver/ob_chunk_merge.cpp:331-489 | every step of every worker, of `schedule` and of the surroundings keeps the batch and counter invariants |
| `MergeOrder.StepKeepsOrder` | oceanbase/src/chunkserver/ob_chunk_merge.cpp:263-489 | every step from a state whose served version has a tablet keeps the version, image and wake-up invariants |
| `MergeOrder.RunKeepsOrder` | oceanbase/src/chunkserver/ob_chunk_merge.cpp:263-489 | so they hold in every state of every run, up to and including the first in which the served version is empty |
| `MergeProgress.RoundCanEndIff` | oceanbase/src/chunkserver/ob_chunk_merge.cpp:331-489 | in an open round with all its workers, their own steps can end it if and only if the image would upgrade already, a tablet is to be merged, or a merge is ahead |
| `MergeProgress.HopelessForGood` | oceanbase/src/chunkserver/ob_chunk_merge.cpp:605-657 | otherwise no sequence of the workers' steps and wake-ups ever upgrades |
| `MergeRescue.RoundCanEndWellIff` | oceanbase/src/chunkserver/ob_chunk_merge.cpp:331-489 | their own steps can end it in a version that has a tablet if and only if there is one already, or a tablet not flagged merged is to be merged or about to be |
| `MergeRescue.OpenRoundCanEnd` | oceanbase/src/chunkserver/ob_chunk_merge.cpp:263-489 | however a run came to an open round, as long as no worker has left and the served version is not empty: both conditions are exact, and with `schedule` being called the round can end in any case, without a chance wake-up or a change from outside |
| `MergeFairness.MissesAreBounded` | oceanbase/src/chunkserver/ob_chunk_merge.cpp:680-706 | if batches get settled, a waiting tablet is left out of at most one batch for every 1024 others that wait |
| `MergeLimits.LimitHoldsIffFewWorkers` | oceanbase/src/chunkserver/ob_chunk_merge.cpp:447-468 | no run exceeds the per-disk limit if and only if there are no more workers than the limit |
| `MergeLimits.CountersSufficeIff` | oceanbase/src/chunkserver/ob_chunk_merge.h:135 | no run merges a tablet without a counter in the array if and only if disk numbers stop at 15 |
| `MergeLimits.RoundsStartIffAllThreadsDid` | oceanbase/src/chunkserver/ob_chunk_merge.cpp:72-98 | some run opens a round if and only if every thread asked for started |
| `MergeLimits.LeavingStalls` | oceanbase/src/chunkserver/ob_chunk_merge.cpp:434-437 | the run, for any number of workers: the one with the only tablet gets no merger and leaves, and the others sleep in an open round |
| `MergeFailures.RemovalKills` | oceanbase/src/chunkserver/ob_chunk_merge.cpp:406-411 | the run: the last tablet is removed while a worker holds it, then `schedule` is called |
| `MergeFailures.EmptyUpgrade` | oceanbase/src/chunkserver/ob_chunk_merge.cpp:605-652 | the run, with two or more workers and no chance wake-up: the last table was dropped, the upgrade is to an empty version, the version order breaks and the next worker's refill finds the round over |
| `MergeFailures.CornerIsReached` | oceanbase/src/chunkserver/ob_tablet_image.cpp:2753-2757 | the run: the last table was dropped, the image is prepared for a tablet of the served version, and the workers can never end the round |
| `MergeFailures.ThrottleParksLast` | oceanbase/src/chunkserver/ob_chunk_merge.cpp:348-364 | the run: one worker leaves, the other fails its merge and is throttled, with an open round and two tablets waiting |
| `MergeFailures.ResetInsideFetchUpgradesTooEarly` | oceanbase/src/chunkserver/ob_chunk_merge.cpp:274-276 | a reachable state in which the reset of the frozen version, were it not atomic, would upgrade past an unmerged tablet |
| `TabletImage.Image.EldestIndex` | oceanbase/src/chunkserver/ob_tablet_image.cpp:1971-1987 | the slot of the older version that has tablets, else the newest |
| `TabletImage.Image.GetTabletsForMerge` | oceanbase/src/chunkserver/ob_tablet_image.cpp:2643-2682 | the first tablets, up to the size, among all unmerged ones of the older versions, eldest version first |
| `TabletImage.AnswerIsBatch` | oceanbase/src/chunkserver/ob_tablet_image.cpp:2643-2682 | the answer has distinct tablets, each unmerged and older than the version, and all such tablets unless it is full |
| `TabletImage.EldestFirst` | oceanbase/src/chunkserver/ob_tablet_image.cpp:2643-2682 | tablets of an older version come before those of a newer one |
| `TabletImage.Image.UpgradeService` | oceanbase/src/chunkserver/ob_tablet_image.cpp:2515-2549 | the newest slot goes into service unless it has tablets and is not above the reported version |
| `TabletImage.Image.TabletsAllMerged` | oceanbase/src/chunkserver/ob_tablet_image.cpp:2763-2785 | true if and only if every tablet of the slot is flagged merged |
| `TabletImage.Image.PrepareTabletImage` | oceanbase/src/chunkserver/ob_tablet_image.cpp:2714-2761 | succeeds unless another version's unmerged tablets are in the slot and are to be destroyed; the slot then carries the version, emptied or relabelled, and is the newest if that was empty or older; on failure nothing changes |
| `TabletImage.RelabellingIsSoundIff` | oceanbase/src/chunkserver/ob_tablet_image.cpp:2739-2752 | relabelling without destroying leaves each slot with its own version's tablets if and only if the slot was empty or had that version |
| `TabletImage.AllocationMakesAddingSound` | oceanbase/src/chunkserver/ob_tablet_image.cpp:2327-2371 | after the allocation has prepared the slot, adding the tablet relabels nothing |
| `ImageRuns.ServiceMeetsContract` | oceanbase/src/chunkserver/ob_tablet_image.cpp:1914-1928 | two slots that hold the protocol's tablets report the version, and allow an upgrade, as the protocol says |
| `ImageRuns.AnswerMeetsContract` | oceanbase/src/chunkserver/ob_tablet_image.cpp:2643-2682 | they answer a merge request as the protocol says |
| `ImageRuns.PreparesIff` | oceanbase/src/chunkserver/ob_tablet_image.cpp:2739-2751 | a slot can be taken over exactly when the protocol says so |
| `ImageRuns.StepMirrors` | oceanbase/src/chunkserver/ob_tablet_image.cpp:2327-2761 | every step of the protocol, matched by the image's own operations, keeps the slots and the protocol's image the same: tablets, flags, newest and served version |
| `ImageRuns.ImageMeetsProtocol` | oceanbase/src/chunkserver/ob_tablet_image.cpp:1914-2761 | in every state of every run the image reports, answers, upgrades and prepares as the protocol assumes |
| `TabletImage.Image.InitializeServiceIndex` | oceanbase/src/chunkserver/ob_tablet_image.cpp:3087-3114 | a loaded image serves the first slot, from the eldest on, with a tablet that is not merged, else the eldest |
| `ImageRuns.LoadedStartsIff` | oceanbase/src/chunkserver/ob_tablet_image.cpp:3087-3114 | that slot has a tablet if and only if two versions were loaded or a tablet that is not merged |
| `ImageRuns.EveryImageStarts` | oceanbase/src/chunkserver/ob_chunk_merge.cpp:105-122 | there is a starting state of the scheduler on every empty image, and on every image whose service slot has tablets beside nothing but a neighbouring version |
| `ChunkMerge.NewerCopiesCounts` | oceanbase/src/chunkserver/ob_chunk_merge.cpp:740-764 | the running count is the number of copies newer than the tablet |
| `ChunkMerge.Scheduler.constructor` | oceanbase/src/chunkserver/ob_chunk_merge.cpp:72-147 | the fields after `init`, with the counter at the number of threads asked for |
| `ChunkMerge.Scheduler.GetTablets` | oceanbase/src/chunkserver/ob_chunk_merge.cpp:659-738 | array, counters and flags afterwards are those of the section the protocol runs, in every branch |
| `ChunkMerge.Scheduler.FinishRound` | oceanbase/src/chunkserver/ob_chunk_merge.cpp:605-657 | the round ends and the version moves exactly when cache and upgrade succeed; else the upgrade stays pending |
| `ChunkMerge.Scheduler.Schedule` | oceanbase/src/chunkserver/ob_chunk_merge.cpp:263-322 | the fields afterwards, and whether the workers are woken, are those of the protocol's launch step |
| `ChunkMerge.Scheduler.HaveNewVersionInOtherServers` | oceanbase/src/chunkserver/ob_chunk_merge.cpp:740-764 | true if and only if exactly two listed copies are newer than the tablet |
| `ChunkMerge.Scheduler.CheckLoad` | oceanbase/src/chunkserver/ob_chunk_merge.cpp:766-824 | a worker goes on at or below the minimum or under low load; the signals are as many as sleepers and spare load allow |
| `ChunkMerge.SignalsAreMost` | oceanbase/src/chunkserver/ob_chunk_merge.cpp:766-824 | signals are sent exactly when the load is low and more tablets are at hand than workers run; then as many as workers sleep, but never so many that the load could reach the high mark |
| `DiskManager.Manager.Scan` | oceanbase/src/chunkserver/ob_disk_manager.cpp:56-126 | the table afterwards is valid and holds the usable disks found before the first path failure, with all counts reset; with a disk installed the result is success exactly when disk 16 is not among them |
| `DiskTable.ScanIsValid` | oceanbase/src/chunkserver/ob_disk_manager.cpp:56-132 | numbers grow with the index, the other slots are zero, and a number is found if and only if its disk was usable |
| `DiskManager.Manager.FindDisk` | oceanbase/src/chunkserver/ob_disk_manager.cpp:653-666 | the downward search finds the disk if and only if it is installed |
| `DiskManager.Manager.GetDestDisk` | oceanbase/src/chunkserver/ob_disk_manager.cpp:190-294 | reserves exactly the chosen disk, and returns -1 exactly when no normal disk has room for one more sstable |
| `DiskManager.Manager.Select` | oceanbase/src/chunkserver/ob_disk_manager.cpp:200-275 | the single pass yields the declared choice: fewest sstables with ties to the most room when no eligible disk passes the threshold, else most room under the writer limit, else most room |
| `DiskTable.ChoiceIsUnique` | oceanbase/src/chunkserver/ob_disk_manager.cpp:200-292 | the declared choice is unique, and absent exactly when no disk is eligible |
| `DiskTable.EligibleHasSpace` | oceanbase/src/chunkserver/ob_disk_manager.cpp:277-292 | the chosen disk has space for a whole sstable, so the test after the pass never fails |
| `DiskManager.Manager.AddUsedSpace` | oceanbase/src/chunkserver/ob_disk_manager.cpp:466-496 | the table afterwards, for installed and unknown disks, with and without settling a reservation |
| `DiskManager.Manager.AddSstableNum` | oceanbase/src/chunkserver/ob_disk_manager.cpp:498-510 | only the sstable count of the disk changes |
| `DiskManager.Manager.SetDiskStatus` | oceanbase/src/chunkserver/ob_disk_manager.cpp:512-530 | only the status changes, and success means the disk is installed |
| `DiskManager.Manager.ReleaseSpace` | oceanbase/src/chunkserver/ob_disk_manager.cpp:532-544 | only the free space of the disk changes |
| `DiskManager.Manager.GetTotalUsed` | oceanbase/src/chunkserver/ob_disk_manager.cpp:559-571 | bytes in use on all disks, every reservation counted in full |
| `DiskRuns.NoOverCommit` | oceanbase/src/chunkserver/ob_disk_manager.cpp:190-544 | over any sequence of honest calls, free space minus full-size reservations is never negative on any disk |
| `DiskRuns.CompletionIsSafeIff` | oceanbase/src/chunkserver/ob_disk_manager.cpp:466-496 | a completion keeps the disks from being over-committed if and only if its bytes fit into the room left plus the reservation it settles |
| `DiskRuns.UseIsConserved` | oceanbase/src/chunkserver/ob_disk_manager.cpp:466-571 | over any sequence of honest calls, reported use changes by the bytes stored plus a full sstable for each reservation still open |
| `DiskRuns.PairAddsUsedBytes` | oceanbase/src/chunkserver/ob_disk_manager.cpp:466-571 | a reservation and its completion change the reported use by exactly the bytes written |
| `DiskRuns.LoadStaysBalanced` | oceanbase/src/chunkserver/ob_disk_manager.cpp:246-275 | however many sstables are placed one after the other on open disks, the counts of any two disks stay within one |
| `DiskLedger.LedgerBalances` | oceanbase/src/chunkserver/ob_disk_manager.cpp:466-544 | over any sequence of calls a disk's space is what it was less the bytes completed on it plus those released, its sstables are those counted, and its status is the one it was given last |
| `DiskLedger.ReservationsBalance` | oceanbase/src/chunkserver/ob_disk_manager.cpp:190-496 | over honest calls its open reservations are those made on it less those completed |
| `DiskLedger.EligibleIff` | oceanbase/src/chunkserver/ob_disk_manager.cpp:218-226 | a disk may be chosen exactly while it is normal and one more whole sstable fits beside those being written |
| `DiskLedger.FailedIsNotChosen` | oceanbase/src/chunkserver/ob_disk_manager.cpp:512-530 | a disk marked as failed is not chosen until it is marked as normal again, whatever else happens |
| `DiskLedger.MarkingMovesOne` | oceanbase/src/chunkserver/ob_disk_manager.cpp:512-530 | marking a disk leaves the others as eligible as they were; marked as normal it is eligible again exactly if it has room |
| `DiskLedger.ScanReportsUse` | oceanbase/src/chunkserver/ob_disk_manager.cpp:559-571 | after a scan the reported use is what the file system reports for the usable disks |
| `DiskLedger.ChoiceInFigures` | oceanbase/src/chunkserver/ob_disk_manager.cpp:200-292 | the choice in the figures of the disks: by sstables while no disk is used beyond the threshold, else by space, among disks with few writers if there are any, with all ties |
| `BypassShares.SharesTile` | oceanbase/src/chunkserver/ob_bypass_sstable_loader.cpp:372-414 | the ranges of the threads tile the disks for every thread count and disk count |
| `BypassShares.EveryDiskOnce` | oceanbase/src/chunkserver/ob_bypass_sstable_loader.cpp:372-414 | every disk is in the range of exactly one thread |
| `BypassShares.SharesAreEven` | oceanbase/src/chunkserver/ob_bypass_sstable_loader.cpp:372-414 | no thread has more than one disk more than another, and those with more come first |
| `BypassTheorems.StepKeeps` | oceanbase/src/chunkserver/ob_bypass_sstable_loader.cpp:372-577 | every step of every loading thread keeps the scan, election and load invariants |
| `BypassTheorems.FinishOnceAndRight` | oceanbase/src/chunkserver/ob_bypass_sstable_loader.cpp:414-451 | in every interleaving `finish_load` runs at most once, if and only if all disks were scanned well, with the success flag set, by a thread on its last disk |
| `BypassTheorems.FinishedIffNoScanFailed` | oceanbase/src/chunkserver/ob_bypass_sstable_loader.cpp:414-451 | when all threads are done every disk was scanned, and the load was finished if and only if no scan failed |
| `BypassTheorems.FinishedLoadIsCompleteIff` | oceanbase/src/chunkserver/ob_bypass_sstable_loader.cpp:549-577 | a finished load has all its files if and only if, when the first load after a stop signal ended, every wanted file had been begun; without a stop signal loading is never cut short |
| `BypassTheorems.FinishedLoadsNothingElse` | oceanbase/src/chunkserver/ob_bypass_sstable_loader.cpp:485-577 | what is loaded at the finish was wanted and was loaded once |
| `BypassTheorems.ClosedByStop` | oceanbase/src/chunkserver/ob_bypass_sstable_loader.cpp:549-577 | before a finish, loading ends only with a load that went well after a stop signal |
| `BypassTheorems.SpoiltIff` | oceanbase/src/chunkserver/ob_bypass_sstable_loader.cpp:453-547 | the scan of a disk has failed if and only if a file of it could not be loaded, an entry not be read, or its directory is missing |
| `BypassTheorems.LoadedIff` | oceanbase/src/chunkserver/ob_bypass_sstable_loader.cpp:549-577 | a file counts as loaded if and only if a load of it has ended well |
| `BypassTheorems.LoadingStopsIff` | oceanbase/src/chunkserver/ob_bypass_sstable_loader.cpp:549-577 | loading goes on until a load fails or one ends after a stop signal, and no longer |
| `BypassTheorems.ShutdownSkipsFiles` | oceanbase/src/chunkserver/ob_bypass_sstable_loader.cpp:549-577 | a run in which a stop signal makes the load finish without one of its files |
| `BypassTheorems.ShutdownMayLoseNothing` | oceanbase/src/chunkserver/ob_bypass_sstable_loader.cpp:549-577 | a run in which a stop signal comes with two files unloaded and both are still loaded |
| `BypassCommit.CommitMeans` | oceanbase/src/chunkserver/ob_bypass_sstable_loader.cpp:783-807 | a commit keeps every old tablet and adds the first loaded tablet of each new range, and nothing else |
| `BypassCommit.TakesAllIff` | oceanbase/src/chunkserver/ob_bypass_sstable_loader.cpp:783-807 | the image takes every item if and only if no addition fails, and none misses the index but that of a range known already |
| `BypassCommit.RollbackRestoresIff` | oceanbase/src/chunkserver/ob_bypass_sstable_loader.cpp:213-293 | a rollback after a failure at any position restores the image if and only if the image lets go of every tablet this load brought in |
| `BypassCommit.UnindexedSurvives` | oceanbase/src/chunkserver/ob_bypass_sstable_loader.cpp:239-293 | a tablet that entered the list but not the sstable index is not removed by the rollback |
| `BypassCommit.RecyclingDuplicatesIsIdle` | oceanbase/src/chunkserver/ob_bypass_sstable_loader.cpp:221-293 | recycling the duplicates after a commit takes nothing out of the image |
| `BypassCommit.Loader.AddBypassTablets` | oceanbase/src/chunkserver/ob_bypass_sstable_loader.cpp:783-807 | the image after the additions, how many items went in, which item stopped it, and which are marked as duplicates |
| `BypassCommit.Loader.RecycleTablet` | oceanbase/src/chunkserver/ob_bypass_sstable_loader.cpp:239-293 | one recycled item leaves list and index exactly when it is indexed and may be removed |
| `BypassCommit.Loader.RecycleUnloadTablets` | oceanbase/src/chunkserver/ob_bypass_sstable_loader.cpp:221-237 | the image loses exactly the indexed tablets of the recycled items |
| `BypassCommit.Loader.Rollback` | oceanbase/src/chunkserver/ob_bypass_sstable_loader.cpp:213-219 | the image is the old one again if and only if no item stayed unindexed and all removals go through |
| `BypassCommit.Loader.FinishLoad` | oceanbase/src/chunkserver/ob_bypass_sstable_loader.cpp:140-211 | the load succeeds if and only if the image takes every item; then the image is the commit; else it is the old image if and only if the refused item did not enter the list and the image lets go of the others |
| `CompactQueue.RingIsJammingQueue` | oceanbase/src/chunkserver/ob_compactsstable_cache.cpp:352-460 | for every sequence of calls the ring answers as a first-in first-out queue that gives nothing back once jammed |
| `CompactQueue.FifoIffCareful` | oceanbase/src/chunkserver/ob_compactsstable_cache.cpp:352-460 | it is a bounded first-in first-out queue exactly on the sequences in which no pop meets a queue full after a pop or a refusal |
| `CompactQueue.FillingJams` | oceanbase/src/chunkserver/ob_compactsstable_cache.cpp:369-386 | once a tablet was taken out, filling the queue jams it |
| `CompactQueue.JamIsForever` | oceanbase/src/chunkserver/ob_compactsstable_cache.cpp:352-460 | from then on every valid push overflows and every pop returns null |
| `CompactQueue.HandedOutInOrder` | oceanbase/src/chunkserver/ob_compactsstable_cache.cpp:352-460 | for every sequence of calls, what was accepted is what was handed out followed by what still queues |
| `CompactQueue.VersionIsGreatest` | oceanbase/src/chunkserver/ob_compactsstable_cache.cpp:352-388 | the queue's version is the greatest of all valid ones offered, refused ones included |
| `Versions.CompareIsOrder` | oceanbase/src/common/ob_range.h:119-141 | versions compare by major, then minor version, and the final-minor mark never matters |
| `Versions.PositiveIsWord` | oceanbase/src/common/ob_range.h:63-76 | a version is valid exactly when its packed word is above zero |
| `CompactQueue.Queue.Push` | oceanbase/src/chunkserver/ob_compactsstable_cache.cpp:352-388 | ring and answer afterwards; the ring stands for the queue with the tablet added, or unchanged on overflow |
| `CompactQueue.Queue.Pop` | oceanbase/src/chunkserver/ob_compactsstable_cache.cpp:439-460 | ring and tablet afterwards; the ring stands for the queue without its first tablet, or unchanged when empty or jammed |
| `CompactQueue.Queue.Destroy` | oceanbase/src/chunkserver/ob_compactsstable_cache.cpp:335-349 | the queued tablets are released in order, and none of them if the queue is jammed |
| `GetStream.EndsWellIffServed` | oceanbase/src/chunkserver/ob_get_cell_stream.cpp:191-337 | a stream ends having settled exactly the requested cells if and only if the server serves them, however it cuts them up |
| `GetStream.EndsIffTolerated` | oceanbase/src/chunkserver/ob_get_cell_stream.cpp:281-337 | the exact condition for a normal end |
| `GetStream.EndsAs` | oceanbase/src/chunkserver/ob_get_cell_stream.cpp:191-337 | every end of a stream from the responses alone: the first response that does not fit decides, and says which error it is |
| `GetStream.DeliversResponses` | oceanbase/src/chunkserver/ob_get_cell_stream.cpp:77-117 | for every server the delivered cells are those of its responses, joined in order |
| `GetStream.CallsInOrder` | oceanbase/src/chunkserver/ob_get_cell_stream.cpp:191-251 | a served stream makes as many calls as the server needs, at most one per requested cell, each from where the last left off |
| `GetStream.CallsTile` | oceanbase/src/chunkserver/ob_get_cell_stream.cpp:281-337 | every requested cell is covered by exactly one call |
| `Cells.ChangesComeTo` | oceanbase/src/common/ob_object.cpp:337-611 | any sequence of values applied to a column is refused if and only if one does not fit the one before; else it comes to the last plain value or null, the number set last plus the increments after it, the earliest creation or the latest modification time |
| `Cells.MergedByColumn` | oceanbase/src/chunkserver/ob_row_cell_vec.cpp:113-166 | a merged row holds, for every column, what the values delivered for it come to, and nothing for the others |
| `Cells.MergedIffFitting` | oceanbase/src/chunkserver/ob_row_cell_vec.cpp:113-166 | a row can be merged if and only if every column's values fit and there is room for every new column |
| `Cells.NopIsIdle` | oceanbase/src/chunkserver/ob_row_cell_vec.cpp:122-128 | a no-op after the first cell changes nothing |
| `Cells.DeleteForgets` | oceanbase/src/chunkserver/ob_row_cell_vec.cpp:115-121 | a delete makes the cells before it irrelevant |
| `Cells.MergedIsVerbatimIff` | oceanbase/src/chunkserver/ob_row_cell_vec.cpp:81-173 | the merged row is the delivered cells if and only if no column repeats, no no-op or delete follows the first cell, operations on the row carry no column and there is room |
| `CellStream.StoreCell` | oceanbase/src/chunkserver/ob_row_cell_vec.cpp:113-166 | the search loop and its branches yield the declared merge |
| `RowCache.SharedIff` | oceanbase/src/chunkserver/ob_get_cell_stream.cpp:352-358 | two reads use the same cache keys if and only if their inclusive end versions agree in the low 32 bits |
| `RowCache.FeedRow` | oceanbase/src/chunkserver/ob_get_cell_stream.cpp:119-188 | a row closes the row before it; then its merge, or the merge without its first cell, is put, or nothing, and nothing when one of its cells could not be merged |
| `RowCache.PutsWholeRowsIff` | oceanbase/src/chunkserver/ob_get_cell_stream.cpp:119-188 | a response puts row by row exactly the merges of its whole keyed rows, if and only if no row whose first cell matters follows a refused one |
| `RowCache.VerbatimIsHurtable` | oceanbase/src/chunkserver/ob_get_cell_stream.cpp:136-156 | in a row whose cells are kept as they come the first cell always matters |
| `RowCache.KeyedRowsUnhurt` | oceanbase/src/chunkserver/ob_get_cell_stream.cpp:339-368 | when all rows have keys, every response meets that condition |
| `RowCache.UnkeyedRowCutsNext` | oceanbase/src/chunkserver/ob_get_cell_stream.cpp:136-156 | a row without a key makes the next row be cached without its first cell |
| `JoinCacheRuns.HitsAreWholeRows` | oceanbase/src/chunkserver/ob_get_cell_stream.cpp:370-427 | over runs of reads, deliveries, lookups and evictions, a lookup that hits returns the merge of a row all of whose cells are of that table and key, delivered by a read of the same key version |
| `JoinCacheRuns.CachedRowIsFound` | oceanbase/src/chunkserver/ob_join_cache.cpp:88-147 | the merge of a keyed row read whole under a new key is returned by every later lookup, whatever else is read and put, until it is evicted; it is the delivered cells if and only if nothing in the row concerns another cell of it |
| `JoinCacheRuns.LookupMidRow` | oceanbase/src/chunkserver/ob_get_cell_stream.cpp:370-427 | for any row and any position, what is put for the row after a lookup there: nothing, the whole row, its second half, or the second half merged into the cached row |
| `JoinCacheRuns.HalfRowCachedIff` | oceanbase/src/chunkserver/ob_get_cell_stream.cpp:401-413 | the cache changes exactly when the lookup misses, the row is not cached, and the cells on both sides can be merged; then it keeps the second half |
| `CellStream.StreamCachesResponses` | oceanbase/src/chunkserver/ob_get_cell_stream.cpp:77-188 | reading a served stream to its end caches what reading its responses out one by one would |
| `CellStream.JoinCache.PutRow` | oceanbase/src/chunkserver/ob_join_cache.cpp:118-147 | refused exactly without an initialised cache or a key; else kept unless the key is cached already |
| `CellStream.GetCellStream.Get` | oceanbase/src/chunkserver/ob_get_cell_stream.cpp:58-69 | the stream starts afresh, with the key version of the new read |
| `CellStream.GetCellStream.NextCell` | oceanbase/src/chunkserver/ob_get_cell_stream.cpp:26-117 | stream, result and rows beside the stream after one call, whatever the server answers |
| `CellStream.GetCellStream.GetNewCellData` | oceanbase/src/chunkserver/ob_get_cell_stream.cpp:191-251 | settling the response read, asking, and the four ways this can fail |
| `CellStream.GetCellStream.CheckFinishAllGet` | oceanbase/src/chunkserver/ob_get_cell_stream.cpp:281-337 | index and finish flag afterwards, in every branch |
| `CellStream.GetCellStream.AddCacheClearResult` | oceanbase/src/chunkserver/ob_get_cell_stream.cpp:168-188 | the gathered row is offered to the cache and always cleared; fails exactly when the row is refused |
| `CellStream.GetCellStream.AddCellCache` | oceanbase/src/chunkserver/ob_get_cell_stream.cpp:119-165 | rows beside the stream after one delivered cell |
| `CellStream.GetCellStream.GetCacheRow` | oceanbase/src/chunkserver/ob_get_cell_stream.cpp:370-427 | the cached row, loaded over the row being gathered |
| `ScanProxy.GetCompactRow` | oceanbase/src/chunkserver/ob_get_scan_proxy.cpp:264-346 | the loop yields the declared outcome, and each merged member has its own iterator, in order |
| `ScanProxy.GetMergesExactly` | oceanbase/src/chunkserver/ob_get_scan_proxy.cpp:264-346 | on an ascending list exactly the first members whose major and minor version are not above the one asked for and that have the row are merged, as many as allowed, in list order; the get fails exactly when one of these cannot be opened |
| `ScanProxy.GetReportsAbsence` | oceanbase/src/chunkserver/ob_get_scan_proxy.cpp:264-346 | the row is reported missing exactly when there is a member up to that version and none of these has it; then with their first valid table id |
| `ScanProxy.PrefixIsAll` | oceanbase/src/chunkserver/ob_get_scan_proxy.cpp:288-318 | stopping at the first newer member of an ascending list misses no member up to the version asked for |
| `ScanProxy.Attach` | oceanbase/src/chunkserver/ob_get_scan_proxy.cpp:138-219 | a scan attaches the leading wanted members cut at the iterator limit, reports the last attached version, and fails exactly for missing iterators, a missing list or an iterator that fails |
| `ScanProxy.WantedPrefixIsAll` | oceanbase/src/chunkserver/ob_get_scan_proxy.cpp:186-209 | on an ascending list those are all the members whose major version is within the query version, or all for query version 0 |
| `RingRepair.ProcessRingRange` | oceanbase/tools/merge_meta_new.cpp:203-287 | the array afterwards is the declared repair of the old one |
| `RingRepair.PartitionIff` | oceanbase/tools/merge_meta_new.cpp:203-287 | for an ordered list every key of a table then lies in exactly one of its tablets, if and only if exactly one side takes the key at every boundary; start-exclusive, end-inclusive ranges always do |
| `RingRepair.RepairIsStable` | oceanbase/tools/merge_meta_new.cpp:203-287 | repairing twice is repairing once, and inner boundaries do not move |
| `SstableLayout.CheckOffsetSize` | oceanbase/tools/ob_sstable_checker.cpp:1441-1565 | accepts exactly the files that meet every listed comparison |
| `SstableLayout.AcceptedIffInOrder` | oceanbase/tools/ob_sstable_checker.cpp:1441-1565 | with a bloom filter at a positive offset, accepted if and only if blocks, index, bloom filter and schema follow each other, end before the trailer, and the trailer begins before the last word |
| `SstableLayout.NoByteTwice` | oceanbase/tools/ob_sstable_checker.cpp:1441-1565 | in such a file no byte belongs to two parts, and all lie before the trailer |
| `SstableLayout.WithoutBloomFilter` | oceanbase/tools/ob_sstable_checker.cpp:1441-1565 | without a bloom filter a file is accepted exactly when blocks and block index follow each other inside the file and the schema lies anywhere before the trailer |
| `SstableLayout.SchemaMayLieAnywhere` | oceanbase/tools/ob_sstable_checker.cpp:1487-1523 | so the parts are in order if and only if the schema lies behind the block index |
| `SstableLayout.SchemaOverIndex` | oceanbase/tools/ob_sstable_checker.cpp:1487-1523 | an accepted file whose schema lies over its block index |
| `SstableLayout.CheckRows` | oceanbase/tools/ob_sstable_checker.cpp:791-837 | accepts exactly the row indexes that fit and grow strictly inside the data |
| `SstableLayout.RowsAcceptedIff` | oceanbase/tools/ob_sstable_checker.cpp:791-837 | accepted exactly when the row index lies inside the block, and the rows are not empty and begin and end inside it |
| `SstableLayout.RowsTile` | oceanbase/tools/ob_sstable_checker.cpp:814-837 | in an accepted block every byte between the first and last offset lies in exactly one row, no other byte in any, and all lie in the data |
| `SstableLayout.RowsClearOfIndexIff` | oceanbase/tools/ob_sstable_checker.cpp:804-837 | the rows stay clear of the row index if and only if they all end before it or all begin behind it |

## Left out

- Remote calls, packets, timers, schema and frozen-time fetching, statistics and logging: their outcomes are parameters.
- Shutdown of the merge (`inited_`, `destroy`): workers leave only when they get no merger or are told to stop.
- A slot taken over between a tablet's allocation and its entry into the image: the two are one step of the protocol. `RelabellingIsSoundIff` says what the entry would then do to the slot.
- The order of the tablets inside a slot: a tablet that enters is appended, where the source keeps them sorted by range.
- What lies behind `pending_merge_` in memory: a read there may yield any value, a write there changes nothing in the model.
- Signals sent by `check_load` are counted, but a parked worker of the protocol may wake at any time, so that no result depends on them.
- Lost wake-ups between the unlocked broadcast of `schedule` and a worker entering its wait: excluded by the one-step assumption.
- `get_disk_for_migrate`, `shrink_space`, mounting and checking of disks; a `scan` while sstables are being written forgets their reservations.
- Wrap-around of 32-bit and 64-bit counters and offsets; the cut of the cache key's version to 32 bits is modelled.
- File work of the bypass loader (names, links, directories, the schema check): a file is wanted or not, and loading it succeeds or fails; a directory listing that fails is an empty one, as in the source.
- GetStream: after an error the run ends; calling the stream again would settle the same response twice. How requested cells are packed into one request is not modelled, only that a call asks for the rest.
- Cells: numbers are unbounded and added without rounding, and the byte format of rows is not modelled.
- JoinCacheRuns.HitsAreWholeRows: rows are taken as one response delivers them, and other streams writing to the same cache are not modelled; a row split across two responses is two rows.
- ScanProxy: the loop over rows of `get_compact_scanner`, the building of column filters, and the merging of cells by `ObMerger`.
- RingRepair: reading and writing of the meta files, and dropping of missing files.
- SstableLayout: decoding of integers, checksums, schema and row-key checks; the order of row keys across blocks, where the comparison in the source runs against its own message.
- The recyclers, the expired-sstable pool, data generators, dump tools and scripts of the repository: input and output, or logic of a few lines each.
