# Verified models of the kernel mechanism demos

This project models the stateful C demos of a teaching kernel repository and proves
what they promise: a futex lock, an LVM extent allocator, two I/O schedulers, a TCP
congestion window, page write-back, longest-prefix routing, a connection tracker and
RAID striping. `dafny verify dfyconfig.toml` checks everything.

How each mechanism is modelled:

- **Futex lock** (`Spinlock`, `Futex`). A step relation for any number of threads, each
  running any number of iterations. A step is one atomic operation: the compare-and-swap,
  the read of `lock`, the compare-and-enqueue of FUTEX_WAIT, the store `lock = 0`,
  FUTEX_WAKE of one sleeper, a spurious wakeup, the load and the store of `counter++`.
  The v3 and v4 locks are two variants of one machine. The v1 spin lock is the abstract
  machine they refine. A third variant swaps the two lines of `futex_unlock`.
- **LVM** (`BitWords`, `CInts`, `Extents`, `LvmRuns`, `Lvm`, `LvmObjects`). `Lvm` has the classes with the 64-bit
  bitmap words, the counters and the loops. They are proved against set-level functions in
  `Extents`. `LvmRuns` proves what every sequence of operations keeps, and the 32-bit
  sector translation. `LvmObjects` runs such sequences on the objects.
- **I/O schedulers** (`Requests`, `Deadline`, `Cfq`). Classes with the lists the source
  mutates, proved against functions of what is pending, and theorems about every run.
- **Congestion window** (`Arith`, `Congestion`). Every `uint32_t` operation reduces modulo
  2^32; the global bound shows that none of them ever wraps.
- **Write-back** (`WritebackSteps`, `WritebackPair`, `Writeback`). A step relation over the lock sections of
  any number of threads with one flusher per inode, the same with two flushers, and the
  source's functions with their loops as sequences of those sections.
- **Routing, conntrack, RAID** (`Masks`, `Route`, `Conntrack`, `Raid`). Bit-vector masks and
  hashes, a chained hash table, and div/mod address maps.

Where the code and its documentation differ, the model follows the code:

- RFC 5681 asks for a floor of two segments on `ssthresh`; the code has none
  (`Congestion.ThresholdFloorIff`, `Congestion.ThresholdCanVanish`).
- `lv_create` reports an error when space runs out but returns a volume of full size with
  zeroed map entries (`LvmRuns.RunHolders` gives the exact consequence).
- `lv_map_sector` multiplies in 32 bits: logical sectors stay apart exactly on disks of at
  most 2^21 extents (`LvmRuns.ApartUpToIff`). The totals of a group are 32-bit as well
  (`Lvm.VolumeGroup.AddPv`). Signed overflow is undefined in C; the model takes it to wrap
  in two's complement, which the product needs from 2^20 extents on.
- The rotation of `raid5_map` is meant to place every sector apart; it does so only for one
  data disk (`Raid.Raid5InjectiveIff`).
- The CFQ slice is compared with bytes, and a queue that runs dry early stays active
  (`Cfq.NothingChosenIff`, `Cfq.DryStarvesOthers`).
- Write-back can lose a store made between the device write of a page and the clearing of
  its flag (`WritebackSteps.StoreSafeIff`, `WritebackSteps.StoreInWindowIsLost`), and
  unmarking a page in flight is counted twice (`WritebackSteps.UnmarkSafeIff`,
  `WritebackSteps.UnmarkInFlightUnderflows`). Overlapping flushes of an inode can end an
  fsync early (`WritebackPair.FsyncDurableIff`), and fsync can wait for ever
  (`WritebackSteps.FlushMissesLateWrite`, `WritebackSteps.FsyncWaitsForOthers`).

## Model

| member | source | states |
|---|---|---|
| `Spinlock.StepInv` | demos/futex/futex_v1_spinlock.c:14-41 | every step keeps: lock word = threads in the critical section, counter = completed increments, a loaded value is still current |
| `Spinlock.MutualExclusion` | demos/futex/futex_v1_spinlock.c:14-27 | in every reachable state the lock word counts the threads inside, and there is at most one |
| `Spinlock.FinalCounter` | demos/futex/futex_v1_spinlock.c:32-41 | when n workers of k iterations are done the counter is n·k |
| `Futex.StepRefines` | demos/futex/futex_v4_final.c:34-61 | every step of v3 and v4, spurious wakeups included, is a spin-lock step or a stutter |
| `Futex.RunRefines` | demos/futex/futex_v3_futex_lock.c:37-59 | every run of either lock yields a run of the spin lock between the abstracted end states |
| `Futex.ReachableRefines` | demos/futex/futex_v4_final.c:34-74 | every reachable state abstracts to a reachable spin-lock state |
| `Futex.MutualExclusion` | demos/futex/futex_v4_final.c:34-61 | threads between a successful CAS and `lock = 0` always number exactly `lock`, so at most one |
| `Futex.FinalCounter` | demos/futex/futex_v4_final.c:65-74 | the split load and store of `counter++` never lose an increment |
| `Futex.StepKeepsWaker` | demos/futex/futex_v4_final.c:34-61 | no step leaves a sleeper without a lock holder, a thread about to wake, or an awake contender |
| `Futex.NoLostWakeup` | demos/futex/futex_v4_final.c:34-61 | in every reachable state of v3 and v4 a sleeper has somebody to wake it, and unfinished threads are never all asleep |
| `Futex.BlockedSleeps` | demos/futex/futex_v3_futex_lock.c:37-52 | while the lock is held, three steps of its own put a contender to sleep and change nothing else, in v3 and v4 |
| `Futex.ContendersSleep` | demos/futex/futex_v4_final.c:34-54 | from every reachable state and over every run in which the lock stays held, a thread inside futex_lock takes at most three steps of its own, and two more per wakeup |
| `Futex.WhatEndsASleep` | demos/futex/futex_v4_final.c:44-46 | a sleeper can wake spuriously at any time; FUTEX_WAKE wakes exactly one chosen sleeper whenever there is one; nothing else ends a sleep |
| `Futex.V3NeverReads` | demos/futex/futex_v3_futex_lock.c:37-52 | in no run does a v3 thread read the lock word outside its compare-and-swap |
| `Futex.RetriesAfterLooking` | demos/futex/futex_v4_final.c:40-53 | v4 tries again only after it has seen the lock free and waits only on the value it has seen; v3 tries again after every wait |
| `Futex.RunIsProgress` | demos/futex/futex_v3_futex_lock.c:37-72 | a step of the holder, or of an awake thread while the lock is free, lowers the remaining work |
| `Futex.WakeUpIsProgress` | demos/futex/futex_v4_final.c:56-61 | waking a sleeper lowers the remaining work |
| `Futex.CanAlwaysComplete` | demos/futex/futex_v4_final.c:34-74 | from every reachable state n·(16k+11) steps without spurious wakeups suffice to finish all threads, with counter n·k and the lock free |
| `Futex.WakeFirstLosesAWakeup` | demos/futex/README.md:80-82 | with wake and store exchanged, two threads reach a state where the lock is free and the only unfinished thread sleeps |
| `Extents.FirstFit` | demos/lvm/lvm.c:70-84 | the lowest start of that many consecutive free extents, and none only if there is no such run |
| `Extents.Find` | demos/lvm/lvm.c:70-84 | the lowest start in the whole volume, and none only if there is no run |
| `Extents.FitNeedsFree` | demos/lvm/lvm.c:137 | a run of free extents needs that many free ones, so the free-count test never rejects a volume that fits |
| `Extents.OneFits` | demos/lvm/lvm.c:70-93 | one extent fits in a volume exactly when it is not full |
| `Extents.FirstFitFrom` | demos/lvm/lvm.c:135-148 | the first volume with a fitting run and its lowest start |
| `Extents.VgFind` | demos/lvm/lvm.c:135-148 | the first volume of the group with a fitting run and its lowest start, and none only if no volume has one |
| `Extents.OneFitsInVg` | demos/lvm/lvm.c:135-148 | a one-extent request fails exactly when the group has no free extent |
| `Extents.TakeManyCounts` | demos/lvm/lvm.c:184-196 | n single-extent requests yield min(n, free) extents and lower the free total by that number |
| `Extents.TakeManyFresh` | demos/lvm/lvm.c:184-196 | those extents are distinct, were free, and are exactly what is newly allocated |
| `Extents.TakeManyInOrder` | demos/lvm/lvm.c:184-196 | the j-th map entry is the first fit after the first j extents |
| `LvmRuns.CreateGrows` | demos/lvm/lvm.c:173-198 | a creation that fits gives each new map entry a fresh extent and disturbs no holder |
| `LvmRuns.ExtendGrows` | demos/lvm/lvm.c:210-225 | so does a successful extension |
| `LvmRuns.FailedExtendGrows` | demos/lvm/lvm.c:216-219 | a failed extension keeps what it took, unreachable from any volume, and disturbs no holder |
| `LvmRuns.SnapshotGrows` | demos/lvm/lvm.c:239-245 | so does the reservation of a copy-on-write area |
| `LvmRuns.ShortCreateShares` | demos/lvm/lvm.c:186-190 | a creation that does not fit always leaves two holders of one extent or a holder of an unallocated one |
| `LvmRuns.RunHolders` | demos/lvm/lvm.c:126-251 | after every sequence of operations each allocated extent is held, and extents are held exclusively if and only if every creation fitted |
| `LvmRuns.Conservation` | demos/lvm/lvm.c:126-251 | over every sequence that fits, logical extents + copy-on-write extents + lost ones + free ones = all extents added |
| `LvmRuns.MapSectorExact` | demos/lvm/lvm.c:201-207 | within the logical volume the 32-bit product gives the true physical sector if and only if the extent number is below 2^20 |
| `LvmRuns.SectorInside` | demos/lvm/lvm.c:201-207 | with exclusive holders and at most 2^20 extents per volume, an in-range sector goes to the true sector of an extent that exists |
| `LvmRuns.SectorsCollideIff` | demos/lvm/lvm.c:201-207 | two in-range sectors translate to the same place iff they have the same offset and their extents lie on one disk, a multiple of 2^21 apart |
| `LvmRuns.SectorsApartIff` | demos/lvm/lvm.c:201-207 | distinct sectors of all logical volumes translate apart iff no two map entries are on one disk a multiple of 2^21 extents apart |
| `LvmRuns.TranslationInjective` | demos/lvm/lvm.c:173-225 | after every sequence that fits, on disks of at most 2^21 extents, distinct in-range logical sectors of any volumes translate apart; with at most 2^20 every address is inside its disk |
| `LvmRuns.BigDiskCollides` | demos/lvm/lvm.c:206 | on any larger disk a run of four operations that fit gives one volume two sectors with the same address |
| `LvmRuns.ApartUpToIff` | demos/lvm/lvm.c:201-207 | so every fitting run on disks of at most n extents keeps sectors apart iff n <= 2^21 |
| `LvmRuns.PastTheEndAliases` | demos/lvm/lvm.c:203 | a sector past the end is read from the last extent |
| `BitWords.BitsAfterSet` | demos/lvm/lvm.c:86-89 | setting a bit of the word array adds exactly that extent to the set |
| `BitWords.BitsAfterClear` | demos/lvm/lvm.c:96-99 | clearing a bit removes exactly that extent |
| `Lvm.PhysicalVolume.constructor` | demos/lvm/lvm.c:60-68 | all extents free, the counter at their number, which is the 32-bit truncation of the size and exact iff the size is below 2^31 extents |
| `Lvm.PhysicalVolume.Scan` | demos/lvm/lvm.c:71-84 | the run-length scan finds `count` exactly when a run exists, and then the lowest start |
| `Lvm.PhysicalVolume.Alloc` | demos/lvm/lvm.c:70-93 | succeeds iff a run exists, takes the lowest, and keeps the 32-bit counter right iff count >= 0 |
| `Lvm.PhysicalVolume.Release` | demos/lvm/lvm.c:95-101 | frees the range, and keeps the counter right iff all of it had been allocated; a negative count frees nothing and spoils the counter |
| `Lvm.ReleaseUndoesAlloc` | demos/lvm/lvm.c:70-101 | releasing a fresh allocation restores the volume |
| `Lvm.VolumeGroup.AddPv` | demos/lvm/lvm.c:126-132 | fails iff there are 16 volumes; the group and its 32-bit totals stay right iff the volume was not a member and the new total is below 2^31 |
| `Lvm.VolumeGroup.AllocPe` | demos/lvm/lvm.c:135-148 | for count >= 1 succeeds iff some volume has a run and takes the first such volume's lowest; otherwise takes nothing; the totals stay right iff count >= 0 or there is no volume |
| `Lvm.AllocExtents` | demos/lvm/lvm.c:184-196 | the allocation loop takes the same extents as repeated first fit until the group is full |
| `Lvm.CreateLv` | demos/lvm/lvm.c:173-198 | a map of full length: the extents taken, then zero entries; a negative count takes nothing |
| `Lvm.ExtendLv` | demos/lvm/lvm.c:210-225 | succeeds iff enough extents are free; a failure keeps the volume's map but not the free count; a negative number cuts the map and frees nothing |
| `Lvm.CreateSnapshot` | demos/lvm/lvm.c:228-251 | shares the origin's map, reserves one contiguous first-fit area, and records its extent number but not its volume; a count below one reserves nothing |
| `LvmObjects.Execute` | demos/lvm/lvm.c:60-251 | any sequence of operations within the range of int, on a new group, leaves bitmaps, counters, LE maps and snapshot records in the state of the value model; if all creations fit, no two map entries of the objects share an extent |
| `Requests.InsertBySector` | demos/iosched/iosched.c:154-181 | the scan inserts before the first larger sector |
| `Requests.SortIsStableSort` | demos/iosched/iosched.c:154-181 | insertion one by one gives a sector-sorted permutation that keeps arrival order within a sector |
| `Requests.StableSortUnique` | demos/iosched/iosched.c:154-181 | there is only one such list |
| `Requests.SortRemove` | demos/iosched/iosched.c:201-239 | removing a request before or after sorting is the same |
| `Deadline.DeadlineScheduler.constructor` | demos/iosched/iosched.c:139-148 | empty indexes and the 500/5000 ms deadlines |
| `Deadline.DeadlineScheduler.Add` | demos/iosched/iosched.c:154-181 | one insertion keeps the sorted list and both FIFOs the indexes of what is pending |
| `Deadline.DeadlineScheduler.ReadExpired` | demos/iosched/iosched.c:183-190 | true iff the head of the read FIFO has waited at least the read deadline, in 64-bit jiffies |
| `Deadline.DeadlineScheduler.WriteExpired` | demos/iosched/iosched.c:192-199 | true iff the head of the write FIFO has waited at least the write deadline, in 64-bit jiffies |
| `Deadline.HeadExpiredMeans` | demos/iosched/iosched.c:183-199 | the expiry test of each FIFO, as the wait of its head against its own deadline |
| `Deadline.DeadlineScheduler.Dispatch` | demos/iosched/iosched.c:201-239 | with one reading of the clock per expiry test, returns an expired read, else an expired write, else the lowest sector, and removes it from all three lists |
| `Deadline.IndexesAgree` | demos/iosched/iosched.c:154-239 | the sorted list is the stable sort of, and holds exactly, the requests of the two FIFOs |
| `Deadline.PickIsPending` | demos/iosched/iosched.c:201-239 | a dispatch returns nothing iff nothing is pending, otherwise a pending request |
| `Deadline.Conservation` | demos/iosched/iosched.c:154-239 | over every interleaving of adds and dispatches, what arrived is what was served plus what is pending |
| `Deadline.DrainInSectorOrder` | demos/iosched/iosched.c:225-239 | with every wait below its deadline and no arrivals, draining serves the stable sector sort of what was pending |
| `Deadline.FifoLatency` | demos/iosched/iosched.c:183-223 | an expired request at FIFO position k is served within the next k+1 turns of its kind, whatever arrives meanwhile |
| `Deadline.ExpiredIsServed` | demos/iosched/iosched.c:183-223 | after every history with ordered stamps, a read that has waited the read deadline at position k is newly served within k+1 dispatches, a write that has waited the write deadline within k+1 dispatches that find no late read |
| `Deadline.ReadTurns` | demos/iosched/iosched.c:201-211 | for reads every dispatch is a turn, whatever arrives in between |
| `Cfq.CfqScheduler.GetQueue` | demos/iosched/iosched.c:278-300 | the process's queue, created at the tail iff there was none |
| `Cfq.CfqScheduler.AddRequest` | demos/iosched/iosched.c:316-341 | sorted insertion into that queue |
| `Cfq.CfqScheduler.DispatchRequest` | demos/iosched/iosched.c:343-377 | switches to the first busy queue when the slice is used, and serves the head of the active queue |
| `Cfq.RunInv` | demos/iosched/iosched.c:278-377 | over every run each process owns at most one queue, every queue is sector-sorted, and the active queue exists |
| `Cfq.AddPending` | demos/iosched/iosched.c:316-341 | an add changes only the adding process's queue |
| `Cfq.DispatchPending` | demos/iosched/iosched.c:343-377 | a dispatch changes only the served process's queue, by its head |
| `Cfq.NothingChosenIff` | demos/iosched/iosched.c:343-377 | a dispatch returns nothing iff all queues are empty or the active queue ran dry within its slice |
| `Cfq.DryStarvesOthers` | demos/iosched/iosched.c:346-360 | once that happens every dispatch returns nothing until the active process itself adds a request |
| `Cfq.StarvationExample` | demos/iosched/iosched.c:346-360 | a three-event run, for any request one byte short of a slice, after which another process's request waits behind a dry active queue |
| `Cfq.LargeRequestsNeverStall` | demos/iosched/iosched.c:343-377 | if all requests have at least a slice of bytes, a dispatch returns nothing iff nothing is queued, over every run |
| `Cfq.NeverStallsIff` | demos/iosched/iosched.c:343-377 | requests of at least m bytes guarantee that over every run iff m is at least a slice |
| `Cfq.Conservation` | demos/iosched/iosched.c:316-377 | per process and over every run, served plus queued is what it added |
| `Cfq.SlicesAreKept` | demos/iosched/iosched.c:346-377 | over every run the count of the active queue is the sum of the bytes served since its slice began, in 32 bits; requests come from the slice's owner exactly while that sum is below 100, and then from the first busy queue |
| `Congestion.StepInv` | demos/tcp-congestion-control/congestion.c:45-103 | every event keeps MSS <= cwnd <= MSS²+1, ssthresh a multiple of MSS and at most 730·MSS, fewer than three duplicates |
| `Congestion.Run` | demos/tcp-congestion-control/congestion.c:36-103 | so does every event sequence |
| `Congestion.StepIsIdeal` | demos/tcp-congestion-control/congestion.c:45-103 | within that bound no 32-bit operation wraps: each event is the same in unbounded arithmetic |
| `Congestion.LossHalves` | demos/tcp-congestion-control/congestion.c:78-103 | a third duplicate or a timeout sets ssthresh to half of cwnd within one segment, cwnd to ssthresh + 3 MSS or to one MSS, and the duplicate count to zero |
| `Congestion.ThresholdFloorIff` | demos/tcp-congestion-control/congestion.c:78-103 | ssthresh stays at two segments or more after a loss iff cwnd exceeded three segments (section 3.1 of RFC 5681 asks for it always) |
| `Congestion.ThresholdCanVanish` | demos/tcp-congestion-control/congestion.c:95-103 | two timeouts in a row take ssthresh to zero |
| `Congestion.DupAcksAccumulate` | demos/tcp-congestion-control/congestion.c:78-92 | the duplicate count is the number of duplicates modulo three, whatever ACKs come between |
| `Congestion.SlowStartAcks` | demos/tcp-congestion-control/congestion.c:45-75 | n slow-start ACKs add n segments up to the threshold, and avoidance starts exactly when it is reached |
| `Congestion.SlowStartDoubles` | demos/tcp-congestion-control/congestion.c:116-127 | a round of cwnd/MSS ACKs doubles cwnd exactly while the double is within ssthresh |
| `Congestion.RoundsMultiply` | demos/tcp-congestion-control/congestion.c:116-127 | n rounds multiply cwnd by 2^n while that is within ssthresh, and slow start ends exactly at the threshold |
| `Congestion.FiveRounds` | demos/tcp-congestion-control/congestion.c:36-42 | from the initial 2 segments slow start takes exactly five rounds to the threshold of 64 |
| `Congestion.SlowStartEndsInTenRounds` | demos/tcp-congestion-control/congestion.c:116-132 | from every state the events can reach, ten rounds end slow start |
| `Congestion.AvoidanceRound` | demos/tcp-congestion-control/congestion.c:53-55 | a round in avoidance adds less than two segments, and at most one from a whole number of segments |
| `Congestion.AvoidanceRoundLower` | demos/tcp-congestion-control/congestion.c:53-55 | from a whole number of segments it adds at least MSS²/(cwnd+MSS) per ACK |
| `Congestion.AvoidanceGrowsIff` | demos/tcp-congestion-control/congestion.c:53-55 | an ACK in avoidance enlarges cwnd iff cwnd <= MSS² |
| `Congestion.CongestionControl.constructor` | demos/tcp-congestion-control/congestion.c:36-42 | the initial state satisfies the bounds |
| `Congestion.CongestionControl.Acked` | demos/tcp-congestion-control/congestion.c:68-75 | an ACK is one step of the event model |
| `Congestion.CongestionControl.DuplicateAcked` | demos/tcp-congestion-control/congestion.c:78-92 | a duplicate ACK is one step of the event model |
| `Congestion.CongestionControl.TimedOut` | demos/tcp-congestion-control/congestion.c:95-103 | a timeout is one step of the event model |
| `Congestion.CongestionControl.SimulateSlowStart` | demos/tcp-congestion-control/congestion.c:116-132 | runs exactly the rounds that start in slow start, at most ten and from the initial state five, and always ends in avoidance |
| `Congestion.CongestionControl.SimulateAvoidance` | demos/tcp-congestion-control/congestion.c:135-146 | runs the given rounds; in avoidance cwnd grows by less than two segments each |
| `WritebackSteps.StepInv` | demos/writeback/wb_sim.c:56-175 | every step of marking, unmarking and flushing threads keeps: nr_dirty = list length, flag set iff listed or in flight, the saved next page is the list head, clean pages equal the device, and the counter equation |
| `WritebackSteps.StepCounted` | demos/writeback/wb_sim.c:56-175 | g_dirty_count + marks in progress = sum of list lengths + clean-ups in progress, after every step |
| `WritebackSteps.NoUnderflow` | demos/writeback/wb_sim.c:56-175 | in every reachable state no step takes the unsigned counter below zero |
| `WritebackSteps.CountsDirtyPages` | demos/writeback/wb_sim.c:56-175 | between operations the counter is the number of dirty pages and the sum of nr_dirty |
| `WritebackSteps.ReadsLastWrite` | demos/writeback/wb_sim.c:56-175 | in every run a page never unmarked reads as its last written value, from the cache while dirty and from the device once clean |
| `WritebackSteps.FsyncIsDurable` | demos/writeback/wb_sim.c:211-218 | whenever the exit test of fsync holds, the device has the last written value of every page of the inode |
| `WritebackSteps.StoreSafeIff` | demos/writeback/wb_sim.c:158-163 | a store keeps the invariant iff it does not fall between the device write and the clearing of the flag, or stores the value just written out |
| `WritebackSteps.WindowStoreKeptIff` | demos/writeback/wb_sim.c:158-163 | from every state of the invariant such a store ends in a clean page, whose contents the device has iff the store repeated what was written out |
| `WritebackSteps.StoreInWindowIsLost` | demos/writeback/wb_sim.c:158-163 | otherwise there is a run in which fsync returns, the page is clean and the device has the older value |
| `WritebackSteps.UnmarkSafeIff` | demos/writeback/wb_sim.c:89-112 | unmarking keeps the invariant iff no flusher holds the page or goes to it next |
| `WritebackSteps.UnmarkInFlightUnderflows` | demos/writeback/wb_sim.c:89-112 | otherwise there is a run that takes the counter below zero |
| `WritebackSteps.GuardIsExact` | demos/writeback/wb_sim.c:56-218 | over every clean start and every run, fsync is durable, and the counter never negative, iff stores and unmarks respect those two conditions |
| `WritebackSteps.FlushMissesLateWrite` | demos/writeback/wb_sim.c:148-171 | a page written while the last page is in flight is not visited: a run ends the flush of fsync with that page dirty |
| `WritebackSteps.FsyncWaitsForOthers` | demos/writeback/wb_sim.c:205-221 | from such a state fsync returns in no run in which nobody else flushes the inode or unmarks one of its pages |
| `WritebackPair.OneAtATime` | demos/writeback/wb_sim.c:140-175 | with two flushers on an inode, a run in which no flush begins while writeback_in_progress is set is a run with one flusher, so all results above hold of it |
| `WritebackPair.SecondFlusherEndsFsyncEarly` | demos/writeback/wb_sim.c:140-218 | with overlapping flushes there is a run in which the exit test of fsync holds while a page is in flight and the device has its old contents |
| `WritebackPair.FsyncDurableIff` | demos/writeback/wb_sim.c:140-218 | over every clean start and every run, the exit test of fsync implies that the device has the last written value of each page, iff no flush of the inode begins while writeback_in_progress is set |
| `Writeback.PageCache.Write` | demos/writeback/wb_sim.c:56-87 | a store and mark_page_dirty, also while a flusher is at work on the inode: the page is listed once and counted once |
| `Writeback.PageCache.UnmarkPageDirty` | demos/writeback/wb_sim.c:89-112 | takes a dirty page off its list and out of the counts; nothing happens to a clean one |
| `Writeback.PageCache.FlushPage` | demos/writeback/wb_sim.c:148-171 | one pass of the loop takes the head of the list, writes it, clears its flag and counts it |
| `Writeback.PageCache.WritebackInode` | demos/writeback/wb_sim.c:140-175 | empties the list, writes exactly its pages from the unchanged cache, and lowers the counter by their number |
| `Writeback.PageCache.WritebackAllInodes` | demos/writeback/wb_sim.c:178-195 | nothing is dirty, the counter is zero, and the device equals the unchanged cache except for discarded changes |
| `Writeback.PageCache.FsyncInode` | demos/writeback/wb_sim.c:198-224 | the same for one inode, with the others' device pages untouched and the exit test true at once |
| `Masks.OnesMonotone` | demos/route/route.c:70-75 | a mask contained in another has at most as many ones |
| `Masks.ContiguousNest` | demos/route/route.c:70-75 | of two contiguous masks one is contained in the other |
| `Masks.OnesCountsBits` | demos/route/route.c:70-75 | the number of ones is the number of the 32 bit positions that are set |
| `Masks.PrefixLength` | demos/route/route.c:70-75 | a contiguous mask with s low zero bits has 32 - s ones |
| `Route.PrefixLen` | demos/route/route.c:70-75 | the shift loop counts the ones of the mask |
| `Route.LookupRoute` | demos/route/route.c:82-97 | -1 iff nothing matches, otherwise the first route with the most mask bits among those that match |
| `Route.LongestPrefixMatch` | demos/route/route.c:65-97 | over contiguous masks and distinct prefixes it is the unique route whose addresses lie within those of every matching route (section 5.2.4.3 of RFC 1812) |
| `Route.OrderIndependentIff` | demos/route/route.c:82-97 | every order of the table gives the same route iff the matching routes of maximal mask length are equal |
| `Route.WellFormedOrderIndependent` | demos/route/route.c:82-97 | so it is for contiguous masks and distinct prefixes |
| `Route.DropIff` | demos/route/route.c:119-156 | a packet is dropped iff it is in transit and no route matches, which a /0 route rules out |
| `Route.NextHopOnRoute` | demos/route/route.c:119-156 | over contiguous masks and distinct prefixes the decision is the same for every order of the table: the gateway of the most specific route, the destination itself, or no next hop |
| `Conntrack.BucketSymmetric` | demos/conntrack/conntrack.c:120-122 | both directions of a connection hash to the same bucket |
| `Conntrack.ScrambleIff` | demos/conntrack/conntrack.c:120-122 | the multiplication loses nothing: keys agree iff the low nine bits of the exclusive-or agree |
| `Conntrack.ScanMeaning` | demos/conntrack/conntrack.c:124-144 | a scan finds the first entry matching in either direction, with the right direction flag, and none iff none matches |
| `Conntrack.ChainIsEnough` | demos/conntrack/conntrack.c:124-144 | scanning only the packet's bucket gives what scanning the whole table gives |
| `Conntrack.ConnTable.Lookup` | demos/conntrack/conntrack.c:124-144 | the chain walk returns the newest matching entry of the whole table |
| `Conntrack.ConnTable.Create` | demos/conntrack/conntrack.c:146-161 | the entry becomes the newest, every chain stays the table's entries of its bucket, and conn_total is the sum of chain lengths iff that fits in an int |
| `Conntrack.LookupAfterCreate` | demos/conntrack/conntrack.c:124-161 | right after creation a scan finds the new entry for its tuple, and for addresses and ports exchanged as a reply unless that is the same tuple |
| `Conntrack.Round` | demos/conntrack/conntrack.c:124-161 | the same through the table's own create and lookup |
| `Conntrack.ConnEntry.Step` | demos/conntrack/conntrack.c:199-262 | one packet is never dropped and keeps the state, resets an established connection, or advances the connection phase |
| `Conntrack.TrackPackets` | demos/conntrack/conntrack.c:199-262 | any packet sequence leaves the entry in the state of the run model and reports at most 3R+4 state changes for R resets |
| `Conntrack.StepAdvances` | demos/conntrack/conntrack.c:199-262 | every change of state but the reset advances the connection phase |
| `Conntrack.ChangesBounded` | demos/conntrack/conntrack.c:199-262 | a run with R resets changes state at most 3R+4 times |
| `Conntrack.FinalStates` | demos/conntrack/conntrack.c:199-262 | TIME_WAIT and LAST_ACK are never left |
| `Conntrack.HandshakeEstablishes` | demos/conntrack/conntrack.c:206-242 | from SYN_SENT a SYN+ACK of either direction and later an original ACK establish, whatever else comes between but a reply FIN |
| `Conntrack.EarlyAck` | demos/conntrack/conntrack.c:206-242 | a reply ACK in SYN_SENT establishes at once; an original ACK or SYN does nothing |
| `Conntrack.EstablishedUntil` | demos/conntrack/conntrack.c:216-253 | an established connection is left exactly at the first FIN or original RST, to the state that packet names |
| `Conntrack.ActiveClose` | demos/conntrack/conntrack.c:216-231 | an original FIN and the next original ACK lead to TIME_WAIT for good |
| `Conntrack.PassiveClose` | demos/conntrack/conntrack.c:244-258 | a reply FIN leads to CLOSE_WAIT and the next one to LAST_ACK for good |
| `Conntrack.WholeConnection` | demos/conntrack/conntrack.c:199-260 | whole connections in wire flag values: handshake, data, and a reset or a close of either side |
| `Conntrack.SynRecvOrigin` | demos/conntrack/conntrack.c:206-242 | SYN_RECV is entered only by a SYN+ACK in SYN_SENT, and kept since |
| `Conntrack.EstablishedOrigin` | demos/conntrack/conntrack.c:211-242 | ESTABLISHED is entered only by an original ACK in SYN_RECV or a reply ACK in SYN_SENT |
| `Conntrack.FinWaitOrigin` | demos/conntrack/conntrack.c:216-222 | FIN_WAIT is entered only by an original FIN on an established connection |
| `Conntrack.CloseWaitOrigin` | demos/conntrack/conntrack.c:244-253 | CLOSE_WAIT is entered only by a reply FIN in SYN_RECV or ESTABLISHED |
| `Conntrack.LastAckOrigin` | demos/conntrack/conntrack.c:254-258 | LAST_ACK is entered only by a reply FIN in CLOSE_WAIT, after an earlier reply FIN |
| `Conntrack.TimeWaitOrigin` | demos/conntrack/conntrack.c:216-227 | TIME_WAIT is entered only by an original ACK in FIN_WAIT, after an original FIN on an established connection |
| `Raid.UnmapAfterMap` | demos/raid/raid.c:134-140 | raid0_map stays within the disks and has a left inverse |
| `Raid.MapAfterUnmap` | demos/raid/raid.c:134-140 | the same function is its right inverse, so the map is a bijection onto all (disk, sector) places |
| `Raid.Raid0NoGrowth` | demos/raid/raid.c:134-140 | a disk sector is never larger than the logical sector |
| `Raid.Raid10Bijection` | demos/raid/raid.c:179-187 | raid10_map is a bijection onto the even disks |
| `Raid.LoadExact` | demos/raid/raid.c:134-140 | the number of stripes on a disk after any prefix, for every chunk size, in closed form |
| `Raid.Balanced` | demos/raid/raid.c:134-140 | over any prefix of stripes and for every chunk size two disks' loads differ by at most one |
| `Raid.Raid10LoadExact` | demos/raid/raid.c:179-187 | a primary disk of RAID 10 carries the load of its pair in a RAID 0 over the pairs, and mirrors are never addressed |
| `Raid.Raid10Balanced` | demos/raid/raid.c:179-187 | over any prefix of stripes two primary disks' loads differ by at most one |
| `Raid.StripeDisk` | demos/raid/raid.c:134-187 | all sectors of a stripe lie on one disk, for RAID 0 and RAID 10 |
| `Raid.Raid5InjectiveIff` | demos/raid/raid.c:156-175 | the rotated map keeps sectors apart iff there is one data disk |

## Left out

- Futex: memory is sequentially consistent, and fairness of the scheduler is not modelled; completion is stated as always possible.
- Spinlock.FinalCounter: the counter is unbounded; its wrap-around after 2^63 increments is not modelled.
- Futex.FinalCounter: the counter is unbounded, as in `Spinlock.FinalCounter`.
- Futex: `futex_v2_yield_spinlock.c` and `demos/concurrency/race.c` add nothing beyond the spin lock.
- Lvm.CreateSnapshot: the snapshot's map is a copy of the origin's value, so a later `realloc` of the shared pointer is not captured.
- Lvm.CreateLv: a failed allocation of the map counts as an empty map, and the per-volume tally `pv_used`, which is never read, is dropped.
- Lvm.PhysicalVolume.Alloc: the count -2^31, for which `start + count` overflows; the same holds for `Lvm.VolumeGroup.AllocPe` and `Lvm.CreateSnapshot`.
- Lvm.ExtendLv: growing a volume whose count is negative, or beyond an int, is excluded, because the source then writes outside its map.
- Lvm.PhysicalVolume.Release: a positive range lies inside the volume, because the source would write outside its bitmap.
- Lvm.PhysicalVolume.constructor: the truncated extent count is not negative and its rounding to words does not overflow, because otherwise there is no bitmap.
- LvmObjects.Execute: operations with negative counts, which the methods of `Lvm` cover one by one, and those that leave the range of an int, after which `Lvm.VolumeGroup.AddPv` says the totals are wrong.
- LvmRuns: copy-on-write data and `snapshot_write`, which sets only a bitmap.
- Deadline.DeadlineScheduler.Add: a request that is already pending is not added again; in the source its list links would be overwritten.
- Deadline: `jiffies_to_msecs` is a parameter; the latency results need it monotone.
- Deadline and Cfq: `io_sched_set`, which re-initialises the lists, the noop scheduler, and the statistics counters.
- Cfq: round-robin fairness, which the scan from the list head does not give.
- Congestion: `last_cwnd_mss`, which is written once and never read, and all printing.
- WritebackSteps.StepInv: one flusher per inode at a time (`WritebackPair.OneAtATime` carries it over to two), and no store or unmark that `StoreSafeIff` and `UnmarkSafeIff` show to break the invariant; the page flag does not protect against them.
- WritebackSteps.StepCounted: the same steps as `StepInv`.
- WritebackSteps.NoUnderflow: the same steps as `StepInv`; `GuardIsExact` shows that the restriction is exact.
- WritebackSteps.CountsDirtyPages: the same steps as `StepInv`.
- WritebackSteps.ReadsLastWrite: the same steps as `StepInv`.
- WritebackSteps.FsyncIsDurable: the same steps as `StepInv`; `GuardIsExact` and `WritebackPair.FsyncDurableIff` show that both restrictions are exact.
- Writeback.PageCache.Write: called when the inode's lock is free, since one thread cannot wait for it.
- Writeback.PageCache.UnmarkPageDirty: called when the inode's lock is free.
- Writeback.PageCache.WritebackInode: called when the inode's lock is free and no flusher is at work on it.
- Writeback.PageCache.WritebackAllInodes: called when no thread is inside an operation.
- Writeback.PageCache.FsyncInode: called when the inode's lock is free and no flusher is at work on it; `FsyncIsDurable` covers other threads.
- WritebackSteps: the wrap-around of `nr_dirty` at 2^32 and of the counter at 2^64 dirty pages.
- WritebackSteps: a store and the list section of its `mark_page_dirty` are one step, and so is a device write.
- Writeback: the flush thread, the dirty-ratio thresholds and the wait queues of fsync.
- Route: ARP, packet parsing and the `metric` column, which the lookup does not read.
- Conntrack: UDP and ICMP entries, timeouts and the rule matching on states.
- Raid: RAID 1, rebuilding, and the parities of RAID 5 and RAID 6; of RAID 5 only the address map is modelled.
- Names, printing, memory allocation failures and the `main` scenarios of all demos.
- The other demos (vfs, bio, netfilter, iptables, sockets, boot code): scans and sums that would only add easy members, or code without state of its own.
