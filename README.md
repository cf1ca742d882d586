# A verified model of the erasure-coded storage reliability simulator

This project models the C++ core (`simulator/libc/`) of a discrete-event simulator.
The simulator estimates how often an erasure-coded storage cluster loses data.
It places the chunks of each stripe in distinct racks, then simulates an iteration:

- Disks fail, at times taken from Weibull lifetimes or a failure trace.
- Each failure asks for a repair.
- A repair claims the whole available cross-rack bandwidth and finishes once the
  chunks it needs have crossed racks.
- Repair is either eager (the failed disk is rebuilt at once) or lazy (stripes with
  fewer bad chunks than a threshold wait, and their bad disks are remembered per stripe).
- After every batch of failures, a loss check decides whether some stripe has more
  bad chunks than its code tolerates.

`Run` repeats iterations and adds up losses, failed stripes and lost chunks.

The model keeps the source's structure:

| Dafny file | Models |
|---|---|
| `disks.dfy` | `Disk` (disk.cpp): a class whose methods update its clocks in place, with value functions for each update |
| `networks.dfy` | `Network` (network.cpp): the cross-rack pool and the per-rack intra-rack values |
| `system_states.dfy` | `State` (state.cpp): the failed-disk bitmap as a set, the failed count, the health flag |
| `traces.dfy` | `Trace` (trace.cpp): extending a trace over the mission by whole periods |
| `placements.dfy` | `Placement` (placement.cpp): flat placement, the per-disk stripe index, the two loss checks |
| `events.dfy` | the event record and the priority queue ordered by `CompareEventTime` (simulation.hpp) |
| `stripe_rules.dfy` | the per-stripe scan of a repair: bad chunks, LRC global/group counts, tolerance |
| `traffic.dfy` | `ComputeRepairTrafficForStripe`, including its C integer division |
| `scheduling.dfy` | the whole simulation state as a value (`Sched`) and each step of simulation.cpp as a function over it: eager, lazy and follow-up repair, batch handling, `GetNextEvent`, `RunIteration`, `Reset` seeding |
| `invariants.dfy` | the bandwidth budget and the structural invariant kept by every step |
| `admission.dfy` | what a repair request claims and queues, the lazy bookkeeping, what a batch does |
| `simulation.dfy` | `Simulation` (simulation.cpp): a class whose fields the methods update, each method proved to move its abstract state exactly as the `scheduling.dfy` function says |
| `runs.dfy` | `Run`'s totals, and the two places where Run and Reset as written depart from what they evidently mean |

The bandwidth budget is the available cross-rack bandwidth plus the shares carried by queued repair events.
No step of the simulation raises it, and every step keeps it at or below the configured maximum (`Invariants.HandleBatchKeeps`, `Invariants.NextEventKeeps`, `Invariants.IterateKeeps`).

Decisions the model makes about the source:

- **Loss rule.** A Reed-Solomon or replicated stripe counts as lost only when more than `n-k` chunks are bad, as the code reads (`> code_n_ - code_k_`). With 3-way replication, losing 2 of 3 replicas is therefore not a loss (`Placements.ReplicaTwoOfThreeSurvives`).
- **Lazy scan.** The lazy scan checks tolerance for every code kind (simulation.cpp:309-349).
- **DiskReplacement batch.** The model keeps this branch as written, with lazy and eager swapped (simulation.cpp:625-629). Nothing ever queues such an event, and `Invariants.BatchKinds` proves the branch is never taken.
- **Network switched off.** With `use_network_` false, a gathered batch carries no share (`Admission.GatherNoShares`, `Admission.NextEventNoShares`). The bandwidth a repair claimed is then never returned (`Admission.NoNetworkReturnsNothing`), and waiting requests are never reissued (`Admission.NoNetworkNoReissue`).
- **Reissue.** The intra-rack value a reissue tests is the configured one. Nothing in the core lowers it.
- **Empty-queue peeks.** The peeks at simulation.cpp:552 and 562 read `top()` of a queue that may be empty. The model reads them only when the queue is non-empty, which is what the loop condition at 554 then needs.
- **Equal times.** Of two events due at the same time, the model takes the earlier-queued one first. `std::priority_queue` leaves that order unspecified, and the properties here are proved for this one order (see "## Left out").

## Model

| member | source | states |
|---|---|---|
| Disks.ClockInitialised | simulator/libc/disk.cpp:23-31 | initialising at t sets begin and last-update to t, zeroes every clock, keeps the state |
| Disks.FailedIsCrashed | simulator/libc/disk.cpp:50-57 | a failed disk is Crashed, its repair clock restarts at t, and its outage start moves to t only if it was Normal |
| Disks.RepairedIsNormal | simulator/libc/disk.cpp:59-65 | a repaired disk is Normal and its unavailable clock grows by the length of the outage |
| Disks.RepairKeepsUnavailTime | simulator/libc/disk.cpp:59-73 | repairing a crashed disk at t leaves its unavailable time at t unchanged |
| Disks.RefailKeepsUnavailTime | simulator/libc/disk.cpp:50-73 | failing an already crashed disk again does not restart its outage |
| Disks.UnavailTimeMonotone | simulator/libc/disk.cpp:67-73 | unavailable time never decreases as time advances |
| Disks.TwoOutages | simulator/libc/disk.cpp:50-73 | two outages (the second failed twice) add up to exactly their two lengths |
| Disks.Disk.constructor | simulator/libc/disk.cpp:10-21 | a new disk is Normal with every clock at 0 |
| Disks.Disk.InitClock | simulator/libc/disk.cpp:23-31 | the disk's clocks become ClockInitialised of the old ones |
| Disks.Disk.InitState | simulator/libc/disk.cpp:33-35 | only the state changes, to Normal |
| Disks.Disk.UpdateClock | simulator/libc/disk.cpp:37-44 | the clock advances by the elapsed time; the repair clock advances only while Crashed, else resets |
| Disks.Disk.GetCurrState | simulator/libc/disk.cpp:46-48 | returns the state |
| Disks.Disk.FailDisk | simulator/libc/disk.cpp:50-57 | the new clocks are Failed of the old ones, and a refail keeps the unavailable time |
| Disks.Disk.RepairDisk | simulator/libc/disk.cpp:59-65 | the new clocks are Repaired of the old ones, and unavailable time at t is kept |
| Disks.Disk.GetUnavailTime | simulator/libc/disk.cpp:67-73 | the closed clock when Normal, plus the open outage when Crashed |
| Networks.CrossUpdated | simulator/libc/network.cpp:15-21 | a value is taken exactly when it is in [0, max + tolerance], otherwise the old one is kept |
| Networks.CrossUpdatedStaysInRange | simulator/libc/network.cpp:15-21 | an in-range cross-rack value stays in range under every update |
| Networks.CrossUpdatedBounded | simulator/libc/network.cpp:15-21 | an update never yields more than the larger of the old and the offered value |
| Networks.Network.constructor | simulator/libc/network.cpp:5-13 | cross-rack value starts at the maximum, every rack's intra-rack value at its setting |
| Networks.Network.UpdateAvailCrossRackRepairBwth | simulator/libc/network.cpp:15-21 | the new value is CrossUpdated of the old, and validity is kept |
| Networks.Network.UpdateAvailIntraRackRepairBwth | simulator/libc/network.cpp:23-29 | the rack's value changes exactly when the offer is within [0, max cross-rack], others never |
| Networks.Network.GetAvailCrossRackRepairBwth | simulator/libc/network.cpp:31-33 | returns the cross-rack value |
| Networks.Network.GetAvailIntraRackRepairBwth | simulator/libc/network.cpp:35-37 | returns the rack's intra-rack value |
| SystemStates.FailedListSpec | simulator/libc/state.cpp:60-68 | the failed list is strictly ascending and holds exactly the failed ids below the disk count |
| SystemStates.HealthOf | simulator/libc/state.cpp:11-16 | the system is operational exactly when no disk is failed |
| SystemStates.BitsAfterIdempotent | simulator/libc/state.cpp:18-40 | applying the same batch twice changes the bitmap no further |
| SystemStates.FailThenRepairRestores | simulator/libc/state.cpp:18-40 | failing then repairing a healthy disk restores the bitmap |
| SystemStates.State.constructor | simulator/libc/state.cpp:8-9 | no disk failed, operational |
| SystemStates.State.UpdateSysState | simulator/libc/state.cpp:11-16 | health becomes HealthOf(failed count) |
| SystemStates.State.FailDisk | simulator/libc/state.cpp:42-49 | the id joins the failed set and leaves the available set; the count stays the failed set's size |
| SystemStates.State.RepairDisk | simulator/libc/state.cpp:51-58 | the id leaves the failed set and joins the available set |
| SystemStates.State.FailEach | simulator/libc/state.cpp:19-23 | every id of the batch is failed |
| SystemStates.State.RepairEach | simulator/libc/state.cpp:25-29 | every id of the batch is repaired |
| SystemStates.State.UpdateState | simulator/libc/state.cpp:18-40 | succeeds exactly for the known kinds; fail and repair update both bitmaps, other kinds leave them; health is refreshed only on success |
| SystemStates.State.GetFailedDisks | simulator/libc/state.cpp:60-68 | returns the failed ids below the disk count, in ascending order |
| Traces.Trunc | simulator/libc/trace.cpp:52 | conversion to int truncates toward zero |
| Traces.Copies | simulator/libc/trace.cpp:55-59 | one entry yields n-1 copies, the i-th shifted by i periods |
| Traces.ExtensionLength | simulator/libc/trace.cpp:51-65 | the extension has entries × (n-1) elements |
| Traces.ExtensionAt | simulator/libc/trace.cpp:51-65 | copy i of entry j sits at index (n-1)·j + i-1, shifted by i periods |
| Traces.ExtensionEntries | simulator/libc/trace.cpp:51-65 | every added entry is an original shifted by 1..n-1 periods |
| Traces.ShortMissionAddsNothing | simulator/libc/trace.cpp:51-65 | a mission shorter than two periods adds nothing |
| Traces.Trace.constructor | simulator/libc/trace.cpp:3-5 | the period is 17520 hours |
| Traces.Trace.Replay | simulator/libc/trace.cpp:51-65 | the list becomes itself followed by its extension |
| Traces.Trace.FinishRead | simulator/libc/trace.cpp:43-45 | the list is replayed only when the mission is longer than one period |
| Events.TopIndex | simulator/libc/simulation.hpp:20-24 | the chosen event is no later than any other, and strictly earlier than those queued before it |
| Events.RemoveAtCount | simulator/libc/simulation.hpp:20-24 | removing one event keeps every other one, with its multiplicity |
| Events.Top | simulator/libc/simulation.hpp:20-24 | the top is queued and no later than any queued event |
| Events.Pop | simulator/libc/simulation.hpp:20-24 | popping removes exactly one event |
| Events.PopCount | simulator/libc/simulation.hpp:20-24 | the queue is the popped queue plus its top, as a multiset |
| Placements.Without | simulator/libc/placement.cpp:81-100 | removing a rack id keeps exactly the other ids and shortens the list when present |
| Placements.SomeIdUnused | simulator/libc/placement.cpp:69-80 | fewer drawn racks than racks leaves some rack undrawn, so rejection sampling can go on |
| Placements.DiskInRack | simulator/libc/placement.cpp:58-62 | a disk drawn in a rack lies in the cluster and in that rack |
| Placements.StripesOnSpec | simulator/libc/placement.cpp:104-120 | a disk's stripe list holds exactly the stripes with a chunk on it, ascending, once per chunk |
| Placements.StripesOnStrict | simulator/libc/placement.cpp:104-114 | with distinct disks per stripe, each stripe is listed once |
| Placements.SpreadIsDistinct | simulator/libc/placement.cpp:45-53 | a flat placement uses distinct disks |
| Placements.MaskOf | simulator/libc/placement.cpp:150-153 | a chunk is bad exactly when its disk is in the failed list |
| Placements.LossTallySpec | simulator/libc/placement.cpp:128-218 | the loss check reports a loss exactly when some stripe exceeds its tolerance; the stripe count is at most the stripes and at most the lost chunks |
| Placements.TouchedSpec | simulator/libc/placement.cpp:130-136 | the touched stripes are exactly those on some failed disk |
| Placements.ReplicaTwoOfThreeSurvives | simulator/libc/placement.cpp:191-216 | 3-way replication with 2 replicas lost is counted as no loss |
| Placements.ReplicaAllThreeLost | simulator/libc/placement.cpp:191-216 | with all 3 replicas lost, one stripe and 3 chunks are counted |
| Placements.AsWrittenIndexVisits | simulator/libc/placement.cpp:104-114 | the index loop visits stripe ids 0..num_stripes-1 whatever was placed |
| Placements.RejectedPlacementReadsPastEnd | simulator/libc/placement.cpp:28-44 | after a rejected placement, indexing reads past the empty location list |
| Placements.OneRackRejectsSixChunks | simulator/libc/placement.cpp:43-44 | RS(6,4) on one rack is rejected and then read past the end |
| Placements.Resized | simulator/libc/placement.cpp:106 | resizing keeps the existing entries and pads with empty lists |
| Placements.Placement.constructor | simulator/libc/placement.cpp:14-30 | an accepted code gets num_stripes flat placements; a rejected one gets none; the index matches the locations |
| Placements.Placement.GetDiskRandomly | simulator/libc/placement.cpp:58-62 | the disk lies within the given rack |
| Placements.Placement.GetDiffRacks | simulator/libc/placement.cpp:64-102 | m distinct racks; drawn below the last rack when 2m < racks, otherwise including the last rack |
| Placements.Placement.DrawRacks | simulator/libc/placement.cpp:69-80 | m distinct racks, each below numRacks-1 |
| Placements.Placement.RemoveRacks | simulator/libc/placement.cpp:81-100 | m distinct racks that always include the last one |
| Placements.Placement.PlaceStripe | simulator/libc/placement.cpp:45-52 | one disk per chunk, each in a different rack of the cluster |
| Placements.Placement.GeneratePlacement | simulator/libc/placement.cpp:32-55 | fails exactly on the three invalid settings, leaving the locations; otherwise appends num_stripes flat placements |
| Placements.Placement.GenerateNumChunksPerDisk | simulator/libc/placement.cpp:104-114 | every disk's stripe list and chunk count match its chunks in the placement |
| Placements.Placement.IndexStripe | simulator/libc/placement.cpp:108-112 | one stripe is appended to the lists of its disks, once per chunk |
| Placements.Placement.GetStripesToRepair | simulator/libc/placement.cpp:116-120 | returns exactly the stripes with a chunk on the disk |
| Placements.Placement.GetStripeLocation | simulator/libc/placement.cpp:122-126 | returns the stripe's disks, all in the cluster |
| Placements.Placement.CheckDataLoss | simulator/libc/placement.cpp:128-218 | tallies the touched stripes beyond tolerance; reports loss exactly when one is |
| Placements.Placement.CheckDataLossPending | simulator/libc/placement.cpp:221-308 | the same check over each stripe's own pending bad disks |
| StripeRules.OverToleranceIsLost | simulator/libc/simulation.cpp:172-191 | the scan's tolerance test agrees with the loss rule of the loss check |
| StripeRules.ResidueAtEnd | simulator/libc/simulation.cpp:155-163 | the group count with local-parity credit is what the full scan leaves |
| StripeRules.CountBadBounds | simulator/libc/simulation.cpp:136-154 | global and group counts never exceed the bad chunks, nor these the chunks scanned |
| StripeRules.LrcSumAtMostFailed | simulator/libc/simulation.cpp:176-181 | the LRC sum never exceeds the bad chunks |
| StripeRules.ThresholdRule | simulator/libc/simulation.cpp:185-189 | a non-LRC stripe is lost exactly above n-k bad chunks, and not at n-k |
| StripeRules.LrcSingleDataChunkCovered | simulator/libc/simulation.cpp:155-163 | one lost data chunk covered by an alive local parity adds nothing to the sum |
| StripeRules.LrcSingleGlobalParitySurvived | simulator/libc/simulation.cpp:140-142 | one lost global parity counts 1 and is tolerated when n-k-l ≥ 1 |
| StripeRules.LrcBothGlobalsAndDataLost | simulator/libc/simulation.cpp:176-181 | both global parities plus a data chunk of LRC(16,12,2) is a loss |
| StripeRules.LrcSecondGroupIgnoredWhenOneGroup | simulator/libc/simulation.cpp:146-152 | with l = 1, a bad chunk of the second data group is never counted |
| StripeRules.CountFailures | simulator/libc/simulation.cpp:124-171 | the loop's counts equal CountsOf the bad mask |
| StripeRules.ScanStripe | simulator/libc/simulation.cpp:124-171 | the loop's full scan (counts, rack mates, fail index) equals ScanOf |
| StripeRules.BadDisks | simulator/libc/simulation.cpp:259-263 | the listed disks are exactly those holding a bad chunk |
| Traffic.CDivOfPositives | simulator/libc/simulation.cpp:484-486 | C division agrees with Euclidean division on non-negative operands |
| Traffic.CDivTruncates | simulator/libc/simulation.cpp:484-486 | C division truncates toward zero on negative operands |
| Traffic.FailGroup | simulator/libc/simulation.cpp:455-468 | the failed chunk's group is 0 or 1 |
| Traffic.Shortfall | simulator/libc/simulation.cpp:441-445 | the missing count is non-negative, at least need − have, and 0 or exactly that |
| Traffic.ComputeRepairTraffic | simulator/libc/simulation.cpp:437-516 | the method's branches compute RepairTraffic for every code kind |
| Traffic.ThresholdTraffic | simulator/libc/simulation.cpp:441-445 | Rep/RS and multi-chunk repairs download k minus the rack mates, within [0, k] |
| Traffic.DrcSingleChunk | simulator/libc/simulation.cpp:493-509 | a single DRC chunk costs 1 for (9,5), 2 for (9,6), else 0 |
| Traffic.TrafficNegativeOnlyForGlobalParity | simulator/libc/simulation.cpp:448-452 | only a single LRC global-parity repair can yield negative traffic, namely k minus the rack mates |
| Traffic.GlobalParityTrafficUnclamped | simulator/libc/simulation.cpp:450-452 | LRC(16,12,2) with 13 rack mates downloads −1 |
| Traffic.LrcSingleDataTraffic | simulator/libc/simulation.cpp:453-487 | a single LRC data chunk downloads k/l minus its counted group mates |
| Traffic.CountedInGroupIsAllButFirst | simulator/libc/simulation.cpp:470-480 | the group counter counts every alive index except the group's first data index |
| Traffic.GroupCounterQuirk | simulator/libc/simulation.cpp:476 | the counter counts a global parity as a group mate and skips the group's first data chunk |
| Traffic.SpreadLeavesNoRackMate | simulator/libc/simulation.cpp:164-167 | under flat placement the failed disk's rack holds no other alive chunk |
| Traffic.SingleLrcTrafficWithoutRackMates | simulator/libc/simulation.cpp:448-487 | so a single LRC repair downloads k for a global parity and k/l otherwise |
| Scheduling.PendingStatus | simulator/libc/simulation.cpp:207-213 | 1 exactly when the stripe has a pending entry, else 0 |
| Scheduling.PendingDiskStatus | simulator/libc/simulation.cpp:216-228 | 2 when the entry lists the disk, 1 when it exists without it, 0 without entry |
| Scheduling.CrashedMask | simulator/libc/simulation.cpp:128 | a chunk is bad exactly when its disk is Crashed |
| Scheduling.PendingMask | simulator/libc/simulation.cpp:259-260 | in the lazy scan a chunk is bad when its disk is Crashed or pending for the stripe |
| Scheduling.SortedKeysAscend | simulator/libc/simulation.cpp:417-432 | followers are visited in strictly ascending id order, as a std::map iterates |
| Scheduling.SortedKeys | simulator/libc/simulation.cpp:417-432 | the visited followers are exactly the map's keys |
| Scheduling.FollowerEvents | simulator/libc/simulation.cpp:422-432 | one follow-up event per follower |
| Scheduling.Gather | simulator/libc/simulation.cpp:552-563 | gathering stops at an event of another time or kind; one id per popped event |
| Scheduling.NextEvent | simulator/libc/simulation.cpp:534-538 | a returned batch is never past the mission |
| Scheduling.Pick | simulator/libc/simulation.cpp:534-538 | a returned batch is never past the mission |
| Scheduling.Take | simulator/libc/simulation.cpp:538 | a returned batch is never past the mission |
| Scheduling.FailAll | simulator/libc/simulation.cpp:567-572 | failing a batch keeps the number of disks |
| Scheduling.PristineDisks | simulator/libc/simulation.cpp:47-61 | Reset's disks are all freshly initialised |
| Admission.NoBandwidthOnlyParks | simulator/libc/simulation.cpp:103-105 | without bandwidth, eager, lazy and follow-up repair only park the request |
| Admission.EagerSchedules | simulator/libc/simulation.cpp:199-203 | a passing eager scan claims all bandwidth and queues one DiskRepair carrying it, due after download·chunk/bw/3600 |
| Admission.EagerStopsAtLostStripe | simulator/libc/simulation.cpp:172-191 | a stripe beyond tolerance with other than one bad chunk leaves the eager repair with no effect |
| Admission.EagerScanStops | simulator/libc/simulation.cpp:181-188 | the scan's outcome is None once any stripe's is |
| Admission.LazyClaimsOnlyWithDownload | simulator/libc/simulation.cpp:396-404 | lazy repair claims and queues only with a completed scan and positive download; otherwise only pending entries change |
| Admission.LazyStopsAtLostStripe | simulator/libc/simulation.cpp:309-349 | once a stripe is beyond tolerance the scan returns with what that stripe left |
| Admission.MergeNoDupSpec | simulator/libc/simulation.cpp:357-366 | merging keeps the entry as prefix, adds exactly the missing disks, never duplicates |
| Admission.RecordSpec | simulator/libc/simulation.cpp:357-369 | the stripe's entry holds old and new bad disks, old ones first; other entries unchanged |
| Admission.AddFollowersSpec | simulator/libc/simulation.cpp:379-384 | every bad disk other than the repairing one follows the repair for that stripe; the repairing disk never does |
| Admission.FollowerEventsAt | simulator/libc/simulation.cpp:422-432 | the i-th follow-up is at the common time, DiskRepair unless Normal, with share count/total × bw |
| Admission.FollowUpEvents | simulator/libc/simulation.cpp:414-433 | follow-up appends one event per follower after the queue and clears the disk's followers |
| Admission.FailAllSpec | simulator/libc/simulation.cpp:567-572 | a DiskFail batch fails each listed non-Crashed disk once and leaves all others |
| Admission.ReturnSharesAddsAll | simulator/libc/simulation.cpp:596-600 | shares that fit under the maximum are all added back |
| Admission.ChunkRepairReturnsShares | simulator/libc/simulation.cpp:611-618 | a ChunkRepair batch adds back exactly its shares and changes nothing else |
| Admission.RepairAllKeepsAvail | simulator/libc/simulation.cpp:586-593 | repairing a batch's disks never touches the bandwidth |
| Admission.GatherNoShares | simulator/libc/simulation.cpp:546-563 | without the network model gathering adds no share to the batch |
| Admission.NextEventNoShares | simulator/libc/simulation.cpp:518-563 | without the network model every batch GetNextEvent handles carries no share |
| Admission.NoNetworkNoReissue | simulator/libc/simulation.cpp:520-533 | without the network model a waiting request is never admitted again |
| Admission.NoNetworkReturnsNothing | simulator/libc/simulation.cpp:583-618 | without the network model a repair batch GetNextEvent handles leaves the available bandwidth as it was |
| Admission.GatherTakesMatching | simulator/libc/simulation.cpp:554-563 | each gathered id comes from a queued event of the batch's time and kind |
| Admission.LossMeansCountedStripe | simulator/libc/simulation.cpp:667-683 | an iteration ends in a loss only after a loss check counted a lost stripe |
| Invariants.ClaimIsZero | simulator/libc/simulation.cpp:200 | the claim's update to 0 is always accepted |
| Invariants.ParkKeeps | simulator/libc/simulation.cpp:103-105 | parking keeps the invariant and the budget bound |
| Invariants.ClaimKeeps | simulator/libc/simulation.cpp:199-203 | claiming moves the bandwidth into the queued event: budget unchanged |
| Invariants.EagerKeeps | simulator/libc/simulation.cpp:101-205 | eager repair keeps the invariant and the budget bound |
| Invariants.LazyKeeps | simulator/libc/simulation.cpp:230-406 | lazy repair keeps the invariant and the budget bound |
| Invariants.AdmitKeeps | simulator/libc/simulation.cpp:573-579 | admitting a failed disk keeps the invariant and the bound |
| Invariants.FollowerShares | simulator/libc/simulation.cpp:417-432 | the follow-up shares sum to the uploads' part of the bandwidth |
| Invariants.FollowerEventsBudget | simulator/libc/simulation.cpp:417-432 | follow-up events carry exactly the claimed bandwidth when there is an upload |
| Invariants.FollowUpBudget | simulator/libc/simulation.cpp:414-433 | follow-up leaves 0 available and a budget of queue + (bw if uploads) |
| Invariants.FollowUpKeeps | simulator/libc/simulation.cpp:408-435 | follow-up keeps the invariant and the bound |
| Invariants.DrawFailKeeps | simulator/libc/simulation.cpp:93-99 | drawing the next failure changes neither bandwidth nor budget |
| Invariants.AdmitAllKeeps | simulator/libc/simulation.cpp:573-579 | admitting a whole batch keeps the invariant |
| Invariants.RepairAllKeeps | simulator/libc/simulation.cpp:586-593 | repairing a batch keeps the invariant, the bandwidth and the budget |
| Invariants.ReturnSharesBounded | simulator/libc/simulation.cpp:596-600 | returning shares yields between 0 and old value + their sum |
| Invariants.FollowUpAllKeeps | simulator/libc/simulation.cpp:601-607 | follow-ups of a batch keep the invariant |
| Invariants.ReplaceAllKeeps | simulator/libc/simulation.cpp:620-632 | the replacement branch keeps the invariant |
| Invariants.HandleBatchKeeps | simulator/libc/simulation.cpp:564-639 | handling any batch keeps the invariant and the budget under the maximum |
| Invariants.ReissueKeeps | simulator/libc/simulation.cpp:520-533 | reissuing a waiting request keeps the invariant |
| Invariants.GatherAccounts | simulator/libc/simulation.cpp:546-563 | gathering moves shares from queue to batch without creating any |
| Invariants.NextEventKeeps | simulator/libc/simulation.cpp:518-640 | one GetNextEvent keeps the invariant |
| Invariants.BatchKinds | simulator/libc/simulation.cpp:534-640 | batches are DiskFail, DiskRepair or ChunkRepair; none exactly when the queue is empty or its top is past the mission |
| Invariants.ReissueAtMostOne | simulator/libc/simulation.cpp:520-533 | a reissue takes at most the top waiting request |
| Invariants.IterateKeeps | simulator/libc/simulation.cpp:647-684 | the invariant holds throughout an iteration |
| Invariants.SeededInv | simulator/libc/simulation.cpp:62-87 | Reset's state satisfies the invariant with full bandwidth |
| Invariants.EagerConserves | simulator/libc/simulation.cpp:101-205 | eager repair conserves the budget, and a passing scan leaves 0 available |
| Invariants.FollowUpConserves | simulator/libc/simulation.cpp:408-435 | follow-up with followers conserves the budget and leaves 0 available |
| Invariants.FollowUpLosesBandwidth | simulator/libc/simulation.cpp:414-433 | follow-up without followers queues nothing yet claims the bandwidth: the budget drops by it |
| Simulations.Simulation.constructor | simulator/libc/simulation.cpp:3-43 | settings stored, queues and maps empty |
| Simulations.Simulation.Reset | simulator/libc/simulation.cpp:45-91 | new placement, network and state; the abstract state is Seeded over Normal disks; no disk failed |
| Simulations.Simulation.Reseed | simulator/libc/simulation.cpp:62-83 | queues and maps cleared, disks pristine, events seeded |
| Simulations.Simulation.Rebuild | simulator/libc/simulation.cpp:84-87 | fresh placement and network with full cross-rack bandwidth |
| Simulations.Simulation.BuildDisks | simulator/libc/simulation.cpp:47-61 | one pristine disk per id (the corrected loop) |
| Simulations.Simulation.SeedFromTrace | simulator/libc/simulation.cpp:67-75 | a DiskFail for each trace entry within the mission |
| Simulations.Simulation.SeedLifetimes | simulator/libc/simulation.cpp:76-83 | one drawn lifetime per disk, queued when within the mission |
| Simulations.Simulation.SetDiskFail | simulator/libc/simulation.cpp:93-99 | the abstract state moves by DrawFail |
| Simulations.Simulation.CheckStripeDisksToRepair | simulator/libc/simulation.cpp:207-213 | 1 exactly when the stripe is pending |
| Simulations.Simulation.CheckStripeDiskToRepair | simulator/libc/simulation.cpp:216-228 | 2 exactly when the stripe's entry lists the disk |
| Simulations.Simulation.EagerScan | simulator/libc/simulation.cpp:111-196 | the loop computes the eager scan's download or None |
| Simulations.Simulation.SetDiskRepair | simulator/libc/simulation.cpp:101-205 | the abstract state moves by EagerRepair |
| Simulations.Simulation.LazyScan | simulator/libc/simulation.cpp:242-393 | the loop computes the lazy scan and its pending updates |
| Simulations.Simulation.SetDiskLazyRepair | simulator/libc/simulation.cpp:230-406 | the abstract state moves by LazyRepair |
| Simulations.Simulation.SetDiskRepairFollowed | simulator/libc/simulation.cpp:408-435 | the abstract state moves by FollowUp |
| Simulations.Simulation.FailBatch | simulator/libc/simulation.cpp:564-580 | disks failed by FailAll, then every id admitted |
| Simulations.Simulation.RepairBatch | simulator/libc/simulation.cpp:583-609 | the state moves as HandleBatch of a DiskRepair batch |
| Simulations.Simulation.ChunkBatch | simulator/libc/simulation.cpp:611-618 | only the bandwidth changes, by ReturnShares |
| Simulations.Simulation.ReplaceBatch | simulator/libc/simulation.cpp:620-632 | the state moves by ReplaceAll |
| Simulations.Simulation.Dispatch | simulator/libc/simulation.cpp:564-639 | state and result as HandleBatch |
| Simulations.Simulation.GatherBatch | simulator/libc/simulation.cpp:540-563 | queue and batch as Gather |
| Simulations.Simulation.ReissueWaiting | simulator/libc/simulation.cpp:520-533 | the state moves by Reissue |
| Simulations.Simulation.GetNextEvent | simulator/libc/simulation.cpp:518-640 | state, found flag and batch as NextEvent, ids in range |
| Simulations.Simulation.CheckLoss | simulator/libc/simulation.cpp:667-682 | the tally of the configured loss check; loss exactly when it counts a stripe |
| Simulations.Simulation.Turn | simulator/libc/simulation.cpp:651-683 | one turn: NextEvent, bitmap update, loss check after failures |
| Simulations.Simulation.RunIteration | simulator/libc/simulation.cpp:642-687 | the outcome is Iterate from the current state; returns 1 exactly on a loss |
| Simulations.Simulation.Iteration | simulator/libc/simulation.cpp:697-698 | Reset then RunIteration yields a seeded run |
| Simulations.Simulation.Run | simulator/libc/simulation.cpp:689-702 | num_iterations seeded runs whose totals are RunTotals |
| Simulations.SeededRunIs | simulator/libc/simulation.cpp:697-698 | an iteration from Reset's state is a seeded run |
| Simulations.IterateTurn | simulator/libc/simulation.cpp:647-684 | one turn of the loop matches one unfolding of Iterate |
| Simulations.UploadOf | simulator/libc/simulation.cpp:417-420 | the loop sums the followers' stripe counts |
| Simulations.AddFollowersOf | simulator/libc/simulation.cpp:379-384 | the loop builds AddFollowers |
| Simulations.LazyAbortSticks | simulator/libc/simulation.cpp:347 | after an abort the later stripes change nothing |
| Simulations.EagerNoneSticks | simulator/libc/simulation.cpp:183 | after a None the later stripes change nothing |
| Runs.RunTotals | simulator/libc/simulation.cpp:689-702 | the loss total never exceeds the iterations |
| Runs.LossesCounted | simulator/libc/simulation.cpp:698 | no loss reported iff no iteration lost; all reported iff all lost |
| Runs.SumPush | simulator/libc/simulation.cpp:698-700 | one more iteration adds its loss flag and its counters |
| Runs.SeededRunAt | simulator/libc/simulation.cpp:695-701 | every iteration of Run starts from Reset's state |
| Runs.AsWrittenSum | simulator/libc/simulation.cpp:696-700 | the as-written totals agree with RunTotals on the loss count |
| Runs.AsWrittenSumExcess | simulator/libc/simulation.cpp:696-700 | as written, totals exceed the counted ones by the counters left by iterations without a loss check |
| Runs.NothingQueuedNoTally | simulator/libc/simulation.cpp:651-652 | with nothing queued, an iteration ends at once with no loss check |
| Runs.QuietIterationCountsLeftover | simulator/libc/simulation.cpp:696-700 | such an iteration reports leftover counters as failed stripes |
| Runs.AsWrittenResetDisks | simulator/libc/simulation.cpp:47-61 | as written, Reset appends new disks after the old ones |
| Runs.SecondResetKeepsStaleDisks | simulator/libc/simulation.cpp:47-61 | from the second Reset on, disk d is the previous iteration's disk d |
| Runs.CrashedDiskSurvivesReset | simulator/libc/simulation.cpp:47-61 | a crashed disk stays Crashed across the as-written Reset, Normal under the corrected one |
| Runs.ResetDisksNormal | simulator/libc/simulation.cpp:47-61 | the corrected Reset starts every disk Normal |

## Left out

- Randomness: `rand()`, `shuffle` and the Weibull generator are not modelled as generators. Placement draws are nondeterministic choices constrained by what the source guarantees. Lifetimes come from an oracle `lifetime: nat -> real`, indexed by the number of draws so far.
- Floating point: times and bandwidths are `real`. IEEE rounding is not modelled.
- Console output (`cout`) and the `num_stripes_repaired_*` counters are left out. Nothing in the core reads them.
- Trace file input: opening and parsing the trace file (trace.cpp:7-42) is I/O. The model takes the parsed entries as a list, and covers the replay guard and the replay.
- `State::Copy` and the `GetBm*`/`GetNum*` getters are left out. They only copy or read fields, and the core never calls them.
- `Disk`'s Weibull member is left out, for the same reason as the lifetimes above.
- simedc.cpp (the command-line driver) and parser.cpp are not part of this model.
- Simulations.Simulation.RunIteration: the loop runs for at most `fuel` turns and reports `Exhausted` when the fuel runs out. The source loop runs until the queue empties, which the model does not prove happens.
- Runs.RunTotals: the totals are unbounded naturals. The source's `unsigned int`/`unsigned long` wrap-around is not modelled.
- SystemStates.State.FailDisk: requires the id to lie below the bitset capacity (400000). The source prints a message for ids outside the disk count and then sets the bit anyway, which throws beyond the capacity.
- SystemStates.State.RepairDisk: the same capacity requirement as FailDisk.
- Networks.Network.UpdateAvailIntraRackRepairBwth: modelled as written, checking against the cross-rack maximum. The simulation never calls it, so the intra-rack values stay at their setting.
- Placements.Placement.GetDiffRacks: the drawn rack ids lie in `[0, numRacks-1)`, as the source's draw gives them. The contract states the ranges and distinctness, not the distribution.
- Events.TopIndex: of events due at the same time, the earliest-queued is taken first. `std::priority_queue` leaves that order unspecified, and Scheduling.Gather, Scheduling.NextEvent and every lemma built on them are proved for this one order only.
- Scheduling.ConfigOk: through StripeRules.LayoutFits it excludes LRC codes with more than two local groups. The source accepts them, because placement.cpp:38 rejects only `code_l_ == 0`. Its `gid < code_l_` loops (placement.cpp:162-182, simulation.cpp:146-163) then read past the two rows of `kLrcDataGroup` and `kLrcLocalParity` (placement.cpp:8-9). The model does not capture that out-of-range read.
- Scheduling.Gather: the empty-queue `top()` reads (simulation.cpp:552, 562) are undefined behaviour in the source. The model reads the queue only when it is non-empty.

## Findings

| source | as written | input that shows it | evidently intended | confidence | as-written member | corrected member |
|---|---|---|---|---|---|---|
| simulator/libc/simulation.cpp:47-61 | Reset pushes a new disk per id onto `disks_` without clearing it, so from the second iteration on `disks_[d]` is still the previous iteration's disk | two iterations, disk 0 Crashed when the first ends: the second starts with disk 0 Crashed | every iteration starts with all disks Normal | not executed | Runs.SecondResetKeepsStaleDisks | Runs.ResetDisksNormal |
| simulator/libc/placement.cpp:104-114 | after GeneratePlacement rejects the code, GenerateNumChunksPerDisk still indexes `stripes_location_` for every stripe id below `num_stripes_` | RS(6,4) on 1 rack with 1 stripe: the placement is rejected, then `stripes_location_[0]` is read in an empty vector | index only the stripes actually placed | not executed | Placements.RejectedPlacementReadsPastEnd | Placements.Placement.GenerateNumChunksPerDisk |
| simulator/libc/simulation.cpp:696-700 | `num_failed_stripes` and `num_lost_chunks` are declared without a value and added to the totals even when no loss check wrote them | an iteration with an empty queue (no trace entry within the mission): no check runs and the counters' leftover values are added | add 0 for an iteration without a loss check | not executed | Runs.QuietIterationCountsLeftover | Runs.RunTotals |
