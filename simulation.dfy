// The Simulation class of simulator/libc/simulation.cpp. Its members change
// the queues, the lazy-repair maps, the disks and the network in place; each
// is proved to leave exactly the state the matching function of Scheduling
// computes from the state before, so the invariant and the properties proved
// there (Invariants) hold of the class.
//
// The disks are held as a sequence of Clocks values, the vector<Disk> of the
// source, updated through the same transition functions the Disk class is
// proved against.
module Simulations {
  import opened Events
  import opened Disks
  import opened StripeRules
  import opened Traffic
  import opened Networks
  import opened SystemStates
  import Placements
  import opened Scheduling
  import opened Invariants
  import opened Traces
  import opened Runs

  class Simulation {
    const cfg: Config
    const numIterations: int
    const numStripes: int
    /** The failure trace, read before the simulation starts. */
    const trace: seq<FailedDisk>

    var events: seq<Event>                        // events_queue_
    var waiting: seq<Event>                       // wait_repair_queue_
    var pending: map<int, seq<int>>               // stripe_disks_to_repair_
    var inRepair: map<int, map<int, seq<int>>>    // disk_stripes_in_repair_
    var disks: seq<Clocks>                        // disks_
    var draws: nat                                // lifetimes drawn so far
    var placement: Placements.Placement
    var network: Network
    var state: State

    /** The scheduler's state as a value. */
    function Abs(): Sched
      reads this, network
    {
      Sched(events, waiting, pending, inRepair, disks, network.availCross, draws)
    }

    /** The layout the placement holds. */
    function Lay(): Layout
      reads this`placement, placement
    {
      Layout(placement.locs, placement.perDisk)
    }

    /** The settings the source needs: see ConfigOk; the cross-rack maximum
        is a bandwidth, and every trace entry names a disk of the cluster. */
    predicate Configured() {
      ConfigOk(cfg) && 0.0 <= cfg.maxCross
      && (cfg.useTrace ==> forall i :: 0 <= i < |trace| ==> 0 <= trace[i].diskId < NumDisks(cfg))
    }

    /** The placement, the network's per-rack values and the state as Reset
        builds them; the scheduler's members leave all of them alone. */
    ghost predicate Fixed()
      reads this`placement, this`network, this`state, placement, network`availIntra, state
    {
      placement.Valid() && placement.numDisks == NumDisks(cfg) && placement.code == cfg.code
      && LayoutOk(cfg, Layout(placement.locs, placement.perDisk))
      && network.maxCross == cfg.maxCross && |network.availIntra| == cfg.numRacks
      && (forall r :: 0 <= r < |network.availIntra| ==> network.availIntra[r] == cfg.intra)
      && state.Valid() && state.numDisks == NumDisks(cfg)
    }

    /** What Reset establishes and every member keeps. */
    ghost predicate Valid()
      reads this, network, placement, state
    {
      Configured() && Fixed() && Inv(cfg, Lay(), Abs())
    }

    /** The members the source default-constructs start empty; Reset fills
        them before every iteration. */
    constructor (cfg: Config, numIterations: int, numStripes: int, trace: seq<FailedDisk>)
      requires ConfigOk(cfg)
      ensures this.cfg == cfg && this.numIterations == numIterations
      ensures this.numStripes == numStripes && this.trace == trace
      ensures events == [] && waiting == [] && pending == map[] && inRepair == map[]
      ensures disks == [] && draws == 0
    {
      this.cfg := cfg;
      this.numIterations := numIterations;
      this.numStripes := numStripes;
      this.trace := trace;
      events, waiting := [], [];
      pending, inRepair := map[], map[];
      disks, draws := [], 0;
      placement := new Placements.Placement(0, 0, 0, 0, cfg.code);
      network := new Network(0, 0, 0.0, 0.0);
      state := new State(0);
    }

    // -------------------------------------------------------------------
    // Reset.

    /** Reset: a new state, one disk per id as the Disk constructor,
        InitClock(0) and InitState leave it, empty queues and lazy-repair
        maps, the failure events seeded from the trace or from one lifetime
        per disk, a new placement and a new network. The disks are built
        anew; AsWrittenResetDisks is the source's appending to the old ones. */
    method Reset()
      requires Configured()
      modifies this
      ensures Valid() && fresh(placement) && fresh(network) && fresh(state)
      ensures Abs() == Seeded(cfg, trace, PristineDisks(NumDisks(cfg)), old(draws))
      ensures state.failedBits == {}
    {
      state := new State(NumDisks(cfg));
      Reseed();
      Rebuild();
      SeededInv(cfg, Lay(), trace, disks, old(draws));
    }

    /** Reset's disks, queues, lazy-repair maps and seeded failures. */
    method Reseed()
      requires ConfigOk(cfg)
      modifies this`disks, this`events, this`waiting, this`inRepair, this`pending, this`draws
      ensures disks == PristineDisks(NumDisks(cfg))
      ensures waiting == [] && inRepair == map[] && pending == map[]
      ensures events == Seeded(cfg, trace, disks, old(draws)).events
      ensures draws == Seeded(cfg, trace, disks, old(draws)).draws
    {
      BuildDisks();
      events, waiting := [], [];
      inRepair, pending := map[], map[];
      if cfg.useTrace {
        events := SeedFromTrace();
      } else {
        SeedLifetimes();
      }
    }

    /** Reset's new placement and network, on the state it has built. */
    method Rebuild()
      requires ConfigOk(cfg) && state.Valid() && state.numDisks == NumDisks(cfg)
      modifies this`placement, this`network
      ensures Fixed() && fresh(placement) && fresh(network)
      ensures network.availCross == cfg.maxCross
    {
      placement := new Placements.Placement(cfg.numRacks, cfg.nodesPerRack, cfg.disksPerNode, numStripes, cfg.code);
      network := new Network(cfg.numRacks, cfg.nodesPerRack, cfg.maxCross, cfg.intra);
      PlacementLayoutOk(cfg, placement.locs, placement.perDisk);
    }

    /** Reset's disk loop: disk i is a constructed disk whose clock starts at
        0 and whose state is Normal. */
    method BuildDisks()
      requires ConfigOk(cfg)
      modifies this`disks
      ensures disks == PristineDisks(NumDisks(cfg))
    {
      disks := [];
      for i := 0 to NumDisks(cfg)
        invariant disks == PristineDisks(i)
      {
        var d := new Disk();
        d.InitClock(0.0);
        d.InitState();
        disks := disks + [d.Snapshot()];
        assert disks == PristineDisks(i + 1);
      }
    }

    /** Reset's trace loop: every entry within the mission becomes a
        DiskFail event, in trace order. */
    method SeedFromTrace() returns (q: seq<Event>)
      ensures q == SeedTrace(trace, cfg.missionTime)
    {
      q := [];
      for j := 0 to |trace|
        invariant q == SeedTrace(trace[..j], cfg.missionTime)
      {
        assert trace[..j + 1][..j] == trace[..j];
        if trace[j].failTime <= cfg.missionTime {
          q := q + [Event(trace[j].failTime, DiskFail, trace[j].diskId, 0.0)];
        }
      }
      assert trace[..|trace|] == trace;
    }

    /** Reset's lifetime loop: disk i draws the next lifetime, queued as its
        failure when it falls within the mission. */
    method SeedLifetimes()
      requires ConfigOk(cfg) && events == []
      modifies this`events, this`draws
      ensures events == SeedDraws(cfg.lifetime, old(draws), NumDisks(cfg), cfg.missionTime)
      ensures draws == old(draws) + NumDisks(cfg)
    {
      for i := 0 to NumDisks(cfg)
        invariant events == SeedDraws(cfg.lifetime, old(draws), i, cfg.missionTime)
        invariant draws == old(draws) + i
      {
        var when := cfg.lifetime(draws);
        draws := draws + 1;
        if when <= cfg.missionTime {
          events := events + [Event(when, DiskFail, i, 0.0)];
        }
      }
    }

    // -------------------------------------------------------------------
    // SetDiskFail.

    /** The disk's next failure is drawn from now; it is queued only when it
        falls within the mission. */
    method SetDiskFail(disk: int, t: real)
      requires Valid() && 0 <= disk < NumDisks(cfg)
      modifies this`events, this`draws
      ensures Valid()
      ensures Abs() == DrawFail(cfg, old(Abs()), disk, t)
    {
      ghost var st := Abs();
      DrawFailKeeps(cfg, Lay(), st, disk, t, cfg.maxCross);
      DrawNext(disk, t, st);
    }

    /** SetDiskFail on the scheduler's members alone. */
    method DrawNext(disk: int, t: real, ghost st: Sched)
      requires Abs() == st
      modifies this`events, this`draws
      ensures Abs() == DrawFail(cfg, st, disk, t)
    {
      var when := cfg.lifetime(draws) + t;
      draws := draws + 1;
      if when <= cfg.missionTime {
        events := events + [Event(when, DiskFail, disk, 0.0)];
      }
    }

    // -------------------------------------------------------------------
    // CheckStripeDisksToRepair, both overloads.

    method CheckStripeDisksToRepair(s: int) returns (r: int)
      ensures r == PendingStatus(pending, s)
      ensures r == 1 <==> s in pending
    {
      if s in pending {
        return 1;
      }
      return 0;
    }

    method CheckStripeDiskToRepair(s: int, d: int) returns (r: int)
      ensures r == PendingDiskStatus(pending, s, d)
      ensures r == 2 <==> s in pending && d in pending[s]
    {
      if s in pending {
        if d in pending[s] {
          return 2;
        }
        return 1;
      }
      return 0;
    }

    // -------------------------------------------------------------------
    // SetDiskRepair.

    /** The positions of a stripe whose disk is crashed. */
    method CrashedMaskOf(loc: seq<int>) returns (bad: seq<bool>)
      requires forall p :: 0 <= p < |loc| ==> 0 <= loc[p] < |disks|
      ensures bad == CrashedMask(disks, loc)
    {
      bad := [];
      for p := 0 to |loc|
        invariant |bad| == p
        invariant forall q :: 0 <= q < p ==> bad[q] == (StateOf(disks, loc[q]) == Crashed)
      {
        bad := bad + [disks[loc[p]].state == Crashed];
      }
    }

    /** One stripe of the eager scan: its download, or None when it is
        beyond its tolerance with other than one bad chunk. */
    method EagerStripeOf(disk: int, s: int) returns (r: Option<int>)
      requires ConfigOk(cfg) && placement.Valid() && placement.numDisks == |disks|
      requires 0 <= s < |placement.locs|
      ensures r == EagerStripe(cfg, Lay(), disks, disk, s)
    {
      var loc := placement.GetStripeLocation(s);
      var bad := CrashedMaskOf(loc);
      var sc := ScanStripe(loc, bad, cfg.code.l, disk, disk / DisksPerRack(cfg), DisksPerRack(cfg));
      EagerStripeIs(cfg, Lay(), disks, disk, s, loc, sc);
      if sc.counts.failed != 1 && OverTolerance(cfg.code, sc.counts) {
        return None;
      }
      var traffic := ComputeRepairTraffic(cfg.code, sc.counts.failed, sc.aliveSameRack, sc.aliveIdx, sc.failIdx);
      return Some(traffic);
    }

    /** The eager scan: the download summed over the stripes, or None at the
        first stripe beyond its tolerance. */
    method EagerDownloadOf(disk: int, stripes: seq<int>) returns (r: Option<int>)
      requires ConfigOk(cfg) && placement.Valid() && placement.numDisks == |disks|
      requires forall i :: 0 <= i < |stripes| ==> 0 <= stripes[i] < |placement.locs|
      ensures r == EagerDownload(cfg, Lay(), disks, disk, stripes)
    {
      ghost var lay := Lay();
      r := Some(0);
      var i := 0;
      while i < |stripes| && r.Some?
        invariant 0 <= i <= |stripes|
        invariant r == EagerDownload(cfg, lay, disks, disk, stripes[..i])
      {
        var one := EagerStripeOf(disk, stripes[i]);
        EagerDownloadStep(cfg, lay, disks, disk, stripes, i, r.value, one);
        if one.None? {
          r := None;
        } else {
          r := Some(r.value + one.value);
        }
        i := i + 1;
      }
      if r.None? {
        EagerNoneSticks(cfg, lay, disks, disk, stripes, i);
      } else {
        assert stripes[..i] == stripes;
      }
    }

    /** The eager scan over the stripes with a chunk on the disk. */
    method EagerScan(disk: int) returns (r: Option<int>)
      requires ConfigOk(cfg) && Fixed() && |disks| == NumDisks(cfg) && 0 <= disk < NumDisks(cfg)
      ensures r == EagerDownload(cfg, Lay(), disks, disk, StripesOf(Lay(), disk))
    {
      var stripes := placement.GetStripesToRepair(disk);
      r := EagerDownloadOf(disk, stripes);
    }

    /** Eager repair of a disk: parked when no bandwidth is available; given
        up on a stripe beyond its tolerance; otherwise the whole available
        bandwidth is claimed and carried by one DiskRepair event. */
    method SetDiskRepair(disk: int, t: real)
      requires Valid() && 0 <= disk < NumDisks(cfg)
      modifies this`events, this`waiting, network`availCross
      ensures Valid()
      ensures Abs() == EagerRepair(cfg, Lay(), old(Abs()), disk, t)
    {
      ghost var st := Abs();
      EagerKeeps(cfg, Lay(), st, disk, t, cfg.maxCross);
      var avail := network.GetAvailCrossRackRepairBwth();
      if avail == 0.0 {
        Park(disk, t);
        assert EagerRepair(cfg, Lay(), st, disk, t) == Scheduling.Park(st, disk, t);
      } else {
        EagerClaim(disk, t);
      }
    }

    /** The request waits, unlabelled, on the wait queue. */
    method Park(disk: int, t: real)
      modifies this`waiting
      ensures waiting == old(waiting) + [Event(t, Unlabelled, disk, 0.0)]
    {
      waiting := waiting + [Event(t, Unlabelled, disk, 0.0)];
    }

    /** SetDiskRepair once bandwidth is available. */
    method EagerClaim(disk: int, t: real)
      requires ConfigOk(cfg) && Fixed() && |disks| == NumDisks(cfg)
      requires 0 <= disk < NumDisks(cfg) && network.availCross != 0.0
      modifies this`events, network`availCross
      ensures Abs() == EagerRepair(cfg, Lay(), old(Abs()), disk, t)
    {
      ghost var st := Abs();
      var r := EagerScan(disk);
      EagerEnd(disk, t, r, st);
    }

    /** The end of an eager repair, given the outcome of the scan. */
    method EagerEnd(disk: int, t: real, r: Option<int>, ghost st: Sched)
      requires ConfigOk(cfg) && network.availCross == st.avail && st.avail != 0.0 && network.maxCross == cfg.maxCross
      requires Abs() == st && r == EagerDownload(cfg, Lay(), st.disks, disk, StripesOf(Lay(), disk))
      modifies this`events, network`availCross
      ensures Abs() == EagerRepair(cfg, Lay(), st, disk, t)
    {
      EagerRepairIs(cfg, Lay(), st, disk, t, r);
      if r.Some? {
        EagerCommit(disk, t, r.value, st);
      }
    }

    /** The whole available bandwidth is claimed and carried by one
        DiskRepair event. */
    method EagerCommit(disk: int, t: real, download: int, ghost st: Sched)
      requires network.availCross == st.avail && st.avail != 0.0 && network.maxCross == cfg.maxCross
      requires Abs() == st
      modifies this`events, network`availCross
      ensures Abs() == EagerFinish(cfg, st, disk, t, Some(download))
    {
      var bw := network.GetAvailCrossRackRepairBwth();
      network.UpdateAvailCrossRackRepairBwth(0.0);
      var repairTime := RepairTime(cfg, download, bw);
      events := events + [Event(repairTime + t, DiskRepair, disk, bw)];
    }

    // -------------------------------------------------------------------
    // SetDiskLazyRepair.

    /** The positions of a stripe whose disk is crashed or already listed
        as pending for the stripe. */
    method PendingMaskOf(s: int, loc: seq<int>) returns (bad: seq<bool>)
      requires forall p :: 0 <= p < |loc| ==> 0 <= loc[p] < |disks|
      ensures bad == PendingMask(disks, pending, s, loc)
    {
      bad := [];
      for p := 0 to |loc|
        invariant |bad| == p
        invariant forall q :: 0 <= q < p ==>
                    bad[q] == (StateOf(disks, loc[q]) == Crashed || PendingDiskStatus(pending, s, loc[q]) == 2)
      {
        var status := CheckStripeDiskToRepair(s, loc[p]);
        bad := bad + [disks[loc[p]].state == Crashed || status == 2];
      }
    }

    /** The stripe's pending entry records the bad disks: each one not yet
        listed is appended to an existing entry; without an entry, the list
        becomes the entry. */
    method RecordBad(s: int, ds: seq<int>)
      modifies this`pending
      ensures pending == Record(old(pending), s, ds)
    {
      var status := CheckStripeDisksToRepair(s);
      if status == 1 {
        for i := 0 to |ds|
          invariant pending == old(pending)[s := MergeNoDup(old(pending)[s], ds[..i])]
        {
          assert ds[..i + 1][..i] == ds[..i];
          if ds[i] !in pending[s] {
            pending := pending[s := pending[s] + [ds[i]]];
          }
        }
        assert ds[..|ds|] == ds;
      } else {
        pending := pending[s := ds];
      }
    }

    /** One stripe of the lazy scan, with the running follower map and
        download; `aborted` when the stripe is beyond its tolerance. */
    method LazyStripeOf(disk: int, s: int, followers: map<int, seq<int>>, download: int)
      returns (followers': map<int, seq<int>>, download': int, aborted: bool)
      requires ConfigOk(cfg) && placement.Valid() && placement.numDisks == |disks|
      requires 0 <= s < |placement.locs|
      modifies this`pending
      ensures LazyAcc(pending, followers', download', aborted)
              == LazyStripe(cfg, Lay(), disks, disk, LazyAcc(old(pending), followers, download, false), s)
    {
      var loc := placement.GetStripeLocation(s);
      var bad := PendingMaskOf(s, loc);
      var sc := ScanStripe(loc, bad, cfg.code.l, disk, disk / DisksPerRack(cfg), DisksPerRack(cfg));
      var ds := BadDisks(loc, bad);
      LazyStripeIs(cfg, Lay(), disks, disk, LazyAcc(pending, followers, download, false), s, loc, bad, sc);
      followers', download', aborted := followers, download, false;
      if OverTolerance(cfg.code, sc.counts) {
        RecordBad(s, ds);
        aborted := true;
      } else if sc.counts.failed < cfg.lazyThreshold {
        if sc.counts.failed == 0 {
          var status := CheckStripeDisksToRepair(s);
          if status == 1 {
            pending := pending - {s};
          }
        } else {
          RecordBad(s, ds);
        }
      } else {
        followers' := AddFollowersOf(followers, ds, disk, s);
        pending := pending - {s};
        var traffic := ComputeRepairTraffic(cfg.code, sc.counts.failed, sc.aliveSameRack, sc.aliveIdx, sc.failIdx);
        download' := download + traffic;
      }
    }

    /** The lazy scan over the disk's stripes, stopping at the first stripe
        beyond its tolerance. */
    method LazyScan(disk: int) returns (followers: map<int, seq<int>>, download: int, aborted: bool)
      requires ConfigOk(cfg) && Fixed() && |disks| == NumDisks(cfg) && 0 <= disk < NumDisks(cfg)
      modifies this`pending
      ensures LazyAcc(pending, followers, download, aborted) == LazyScanOf(cfg, Lay(), old(Abs()), disk)
    {
      var stripes := placement.GetStripesToRepair(disk);
      ghost var acc0 := LazyAcc(pending, map[], 0, false);
      followers, download, aborted := map[], 0, false;
      for i := 0 to |stripes|
        invariant LazyFold(cfg, Lay(), disks, disk, acc0, stripes[..i]) == LazyAcc(pending, followers, download, false)
      {
        LazyFoldStep(cfg, Lay(), disks, disk, acc0, stripes, i);
        followers, download, aborted := LazyStripeOf(disk, stripes[i], followers, download);
        if aborted {
          LazyAbortSticks(cfg, Lay(), disks, disk, acc0, stripes, i + 1);
          return;
        }
      }
      assert stripes[..|stripes|] == stripes;
    }

    /** Lazy repair of a disk: parked when no bandwidth is available. Each
        stripe with fewer bad chunks than the threshold is recorded as
        pending (or dropped from pending when it has none); the others are
        repaired now, their other bad disks following this repair. A stripe
        beyond its tolerance is recorded and ends the scan. When anything is
        to be downloaded, the whole available bandwidth is claimed and the
        followers are remembered. */
    method SetDiskLazyRepair(disk: int, t: real)
      requires Valid() && 0 <= disk < NumDisks(cfg)
      modifies this`events, this`waiting, this`pending, this`inRepair, network`availCross
      ensures Valid()
      ensures Abs() == LazyRepair(cfg, Lay(), old(Abs()), disk, t)
    {
      ghost var st := Abs();
      LazyKeeps(cfg, Lay(), st, disk, t, cfg.maxCross);
      var avail := network.GetAvailCrossRackRepairBwth();
      if avail == 0.0 {
        Park(disk, t);
        assert LazyRepair(cfg, Lay(), st, disk, t) == Scheduling.Park(st, disk, t);
      } else {
        LazyClaim(disk, t);
      }
    }

    /** SetDiskLazyRepair once bandwidth is available. */
    method LazyClaim(disk: int, t: real)
      requires ConfigOk(cfg) && Fixed() && |disks| == NumDisks(cfg)
      requires 0 <= disk < NumDisks(cfg) && network.availCross != 0.0
      modifies this`events, this`pending, this`inRepair, network`availCross
      ensures Abs() == LazyRepair(cfg, Lay(), old(Abs()), disk, t)
    {
      ghost var st := Abs();
      var followers, download, aborted := LazyScan(disk);
      LazyEnd(disk, t, followers, download, aborted, st);
    }

    /** The end of a lazy repair, given the outcome of the scan. */
    method LazyEnd(disk: int, t: real, followers: map<int, seq<int>>, download: int, aborted: bool, ghost st: Sched)
      requires ConfigOk(cfg) && network.availCross == st.avail && st.avail != 0.0 && network.maxCross == cfg.maxCross
      requires Abs() == st.(pending := pending)
      requires LazyAcc(pending, followers, download, aborted) == LazyScanOf(cfg, Lay(), st, disk)
      modifies this`events, this`inRepair, network`availCross
      ensures Abs() == LazyRepair(cfg, Lay(), st, disk, t)
    {
      ghost var a := LazyAcc(pending, followers, download, aborted);
      LazyRepairIs(cfg, Lay(), st, disk, t, a);
      if !aborted && download > 0 {
        LazyCommit(disk, t, followers, download, st);
      }
      assert Abs() == LazyFinish(cfg, st, disk, t, a);
    }

    /** The claim that ends a lazy repair with something to download. */
    method LazyCommit(disk: int, t: real, followers: map<int, seq<int>>, download: int, ghost st: Sched)
      requires network.availCross == st.avail && st.avail != 0.0 && network.maxCross == cfg.maxCross
      requires Abs() == st.(pending := pending)
      modifies this`events, this`inRepair, network`availCross
      ensures Abs() == st.(pending := pending,
                           avail := Claimed(cfg, st),
                           events := st.events + [Event(t + RepairTime(cfg, download, st.avail), DiskRepair, disk, st.avail)],
                           inRepair := st.inRepair[disk := followers])
    {
      var bw := network.GetAvailCrossRackRepairBwth();
      network.UpdateAvailCrossRackRepairBwth(0.0);
      var repairTime := RepairTime(cfg, download, bw);
      events := events + [Event(repairTime + t, DiskRepair, disk, bw)];
      inRepair := inRepair[disk := followers];
    }

    // -------------------------------------------------------------------
    // SetDiskRepairFollowed.

    /** The follow-up repair when a lazy repair completes: parked when no
        bandwidth is available; otherwise the whole available bandwidth is
        claimed, and every follower of the disk, in ascending id order, gets
        an event at the end of the upload of all their chunks, with its part
        of the bandwidth. A follower that is not Normal gets a DiskRepair,
        a Normal one a ChunkRepair. The disk then has no followers left. */
    method SetDiskRepairFollowed(disk: int, t: real)
      requires Valid() && 0 <= disk < NumDisks(cfg)
      modifies this`events, this`waiting, this`inRepair, network`availCross
      ensures Valid()
      ensures Abs() == FollowUp(cfg, old(Abs()), disk, t)
    {
      ghost var st := Abs();
      FollowUpKeeps(cfg, Lay(), st, disk, t, cfg.maxCross);
      var avail := network.GetAvailCrossRackRepairBwth();
      if avail == 0.0 {
        Park(disk, t);
        assert FollowUp(cfg, st, disk, t) == Scheduling.Park(st, disk, t);
      } else {
        FollowClaim(disk, t);
      }
    }

    /** SetDiskRepairFollowed once bandwidth is available. */
    method FollowClaim(disk: int, t: real)
      requires network.availCross != 0.0 && network.maxCross == cfg.maxCross
      modifies this`events, this`inRepair, network`availCross
      ensures Abs() == FollowUp(cfg, old(Abs()), disk, t)
    {
      ghost var st := Abs();
      var bw := network.GetAvailCrossRackRepairBwth();
      network.UpdateAvailCrossRackRepairBwth(0.0);
      var fs := if disk in inRepair then inRepair[disk] else map[];
      var keys := SortedKeys(fs.Keys);
      var upload := UploadOf(fs, keys);
      var repairTime := RepairTime(cfg, upload, bw);
      PushFollowers(fs, keys, upload, bw, repairTime, t);
      inRepair := inRepair - {disk};
      FollowClaimIs(cfg, st, disk, t, fs, keys, upload, bw, repairTime, Abs());
    }

    /** The follower events, one per follower in the order of `keys`, all
        at the end of the repair. */
    method PushFollowers(fs: map<int, seq<int>>, keys: seq<int>, upload: nat, bw: real, repairTime: real, t: real)
      requires forall i :: 0 <= i < |keys| ==> keys[i] in fs
      modifies this`events
      ensures events == old(events) + FollowerEvents(disks, fs, keys, upload, bw, t + repairTime)
    {
      for i := 0 to |keys|
        invariant events == old(events) + FollowerEvents(disks, fs, keys[..i], upload, bw, t + repairTime)
      {
        assert keys[..i + 1][..i] == keys[..i];
        var k := keys[i];
        var share := Share(|fs[k]|, upload, bw);
        // Follower ids are disk ids of the cluster (Invariants.Structured);
        // out of range they read as Normal, as StateOf does.
        var normal := if 0 <= k < |disks| then disks[k].state == Normal else true;
        if !normal {
          events := events + [Event(repairTime + t, DiskRepair, k, share)];
        } else {
          events := events + [Event(repairTime + t, ChunkRepair, k, share)];
        }
      }
      assert keys[..|keys|] == keys;
    }

    // -------------------------------------------------------------------
    // The batch handlers of GetNextEvent.

    /** A failure batch: every disk of the batch that is not Crashed fails,
        then every disk is admitted for repair, lazily or eagerly. */
    method FailBatch(ids: seq<int>, t: real)
      requires Valid() && IdsOk(cfg, ids)
      modifies this`disks, this`events, this`waiting, this`pending, this`inRepair, network`availCross
      ensures Valid()
      ensures Abs() == AdmitAll(cfg, Lay(), old(Abs()).(disks := FailAll(old(disks), ids, t)), ids, t)
    {
      FailDisks(ids, t);
      ghost var s0 := Abs();
      for i := 0 to |ids|
        invariant Valid()
        invariant Abs() == AdmitAll(cfg, Lay(), s0, ids[..i], t)
      {
        AdmitAllStep(cfg, Lay(), s0, ids, i, t);
        Admit(ids[i], t);
      }
      assert ids[..|ids|] == ids;
    }

    /** Every disk of a failure batch that is not Crashed fails. */
    method FailDisks(ids: seq<int>, t: real)
      requires forall i :: 0 <= i < |ids| ==> 0 <= ids[i] < |disks|
      modifies this`disks
      ensures disks == FailAll(old(disks), ids, t)
    {
      for i := 0 to |ids|
        invariant disks == FailAll(old(disks), ids[..i], t)
      {
        assert ids[..i + 1][..i] == ids[..i];
        var d := ids[i];
        if disks[d].state != Crashed {
          disks := disks[d := Failed(disks[d], t)];
        }
      }
      assert ids[..|ids|] == ids;
    }

    /** A disk admitted for repair: lazily in lazy mode, eagerly otherwise. */
    method Admit(disk: int, t: real)
      requires Valid() && 0 <= disk < NumDisks(cfg)
      modifies this`events, this`waiting, this`pending, this`inRepair, network`availCross
      ensures Valid()
      ensures Abs() == Scheduling.Admit(cfg, Lay(), old(Abs()), disk, t)
    {
      if !cfg.lazy {
        SetDiskRepair(disk, t);
      } else {
        SetDiskLazyRepair(disk, t);
      }
    }

    /** The repair half of a DiskRepair batch: every Crashed disk of the
        batch is repaired and, without a trace, gets its next failure. */
    method RepairDisks(ids: seq<int>, t: real)
      requires Valid() && IdsOk(cfg, ids)
      modifies this`disks, this`events, this`draws
      ensures Valid()
      ensures Abs() == RepairAll(cfg, old(Abs()), ids, t)
    {
      ghost var s0 := Abs();
      for i := 0 to |ids|
        invariant Valid()
        invariant Abs() == RepairAll(cfg, s0, ids[..i], t)
      {
        assert ids[..i + 1][..i] == ids[..i];
        RepairDisk(ids[i], t);
      }
      assert ids[..|ids|] == ids;
    }

    /** One disk of a DiskRepair batch. */
    method RepairDisk(d: int, t: real)
      requires Valid() && 0 <= d < NumDisks(cfg)
      modifies this`disks, this`events, this`draws
      ensures Valid()
      ensures Abs() == RepairOne(cfg, old(Abs()), d, t)
    {
      if disks[d].state == Crashed {
        disks := disks[d := Repaired(disks[d], t)];
        if !cfg.useTrace {
          SetDiskFail(d, t);
        }
      }
    }

    /** The shares of a batch go back to the cross-rack bandwidth, one at a
        time through the range-checked setter. */
    method ReturnAll(shares: seq<real>)
      requires network.maxCross == cfg.maxCross
      modifies network`availCross
      ensures network.availCross == ReturnShares(cfg.maxCross, old(network.availCross), shares)
    {
      for i := 0 to |shares|
        invariant network.availCross == ReturnShares(cfg.maxCross, old(network.availCross), shares[..i])
      {
        assert shares[..i + 1][..i] == shares[..i];
        var avail := network.GetAvailCrossRackRepairBwth();
        network.UpdateAvailCrossRackRepairBwth(avail + shares[i]);
      }
      assert shares[..|shares|] == shares;
    }

    /** The follow-up half of a lazy DiskRepair batch: each disk of the
        batch with followers starts their repair. */
    method FollowUpDisks(ids: seq<int>, t: real)
      requires Valid() && IdsOk(cfg, ids)
      modifies this`events, this`waiting, this`inRepair, network`availCross
      ensures Valid()
      ensures Abs() == FollowUpAll(cfg, old(Abs()), ids, t)
    {
      ghost var s0 := Abs();
      for i := 0 to |ids|
        invariant Valid()
        invariant Abs() == FollowUpAll(cfg, s0, ids[..i], t)
      {
        assert ids[..i + 1][..i] == ids[..i];
        if ids[i] in inRepair {
          SetDiskRepairFollowed(ids[i], t);
        }
      }
      assert ids[..|ids|] == ids;
    }

    /** One disk of a DiskReplacement batch, admitted the other way round. */
    method Replace(disk: int, t: real)
      requires Valid() && 0 <= disk < NumDisks(cfg)
      modifies this`events, this`waiting, this`pending, this`inRepair, network`availCross
      ensures Valid()
      ensures Abs() == Replaced(cfg, Lay(), old(Abs()), disk, t)
    {
      if cfg.lazy {
        SetDiskRepair(disk, t);
      } else {
        SetDiskLazyRepair(disk, t);
      }
    }

    /** The DiskReplacement branch as written: a disk that is not Normal is
        admitted eagerly in lazy mode and lazily in eager mode. */
    method ReplaceBatch(ids: seq<int>, t: real)
      requires Valid() && IdsOk(cfg, ids)
      modifies this`events, this`waiting, this`pending, this`inRepair, network`availCross
      ensures Valid()
      ensures Abs() == ReplaceAll(cfg, Lay(), old(Abs()), ids, t)
    {
      ghost var s0 := Abs();
      for i := 0 to |ids|
        invariant Valid()
        invariant Abs() == ReplaceAll(cfg, Lay(), s0, ids[..i], t)
      {
        ReplaceAllStep(cfg, Lay(), s0, ids, i, t);
        var d := ids[i];
        if disks[d].state != Normal {
          Replace(d, t);
        }
      }
      assert ids[..|ids|] == ids;
    }

    /** The rest of a DiskRepair batch: with the network modelled, the
        batch's shares come back and, in lazy mode, the followers of each
        disk of the batch start their repair. */
    method RepairBatch(ids: seq<int>, shares: seq<real>, t: real)
      requires Valid() && IdsOk(cfg, ids) && NonNeg(shares) && Budget(Abs()) + Sum(shares) <= cfg.maxCross
      modifies this`disks, this`events, this`draws, this`waiting, this`inRepair, network`availCross
      ensures Valid()
      ensures Abs() == HandleBatch(cfg, Lay(), old(Abs()), Batch(t, DiskRepair, ids, shares)).0
    {
      ghost var st := Abs();
      RepairDisks(ids, t);
      RepairAllKeeps(cfg, Lay(), st, ids, t, cfg.maxCross);
      if cfg.useNetwork {
        ghost var s1 := Abs();
        ReturnAll(shares);
        ReturnSharesBounded(cfg.maxCross, s1.avail, shares);
        assert Abs() == s1.(avail := ReturnShares(cfg.maxCross, s1.avail, shares));
        if cfg.lazy {
          FollowUpDisks(ids, t);
        }
      }
    }

    /** A ChunkRepair batch: its shares come back. */
    method ChunkBatch(shares: seq<real>)
      requires Valid() && NonNeg(shares) && Budget(Abs()) + Sum(shares) <= cfg.maxCross
      modifies network`availCross
      ensures Valid()
      ensures Abs() == old(Abs()).(avail := ReturnShares(cfg.maxCross, old(network.availCross), shares))
    {
      ghost var st := Abs();
      ReturnAll(shares);
      ReturnSharesBounded(cfg.maxCross, st.avail, shares);
    }

    /** The dispatch on the batch's kind; `handled` is false for a kind
        GetNextEvent does not know. */
    method Dispatch(b: Batch) returns (handled: bool)
      requires Valid() && IdsOk(cfg, b.ids) && NonNeg(b.shares) && Budget(Abs()) + Sum(b.shares) <= cfg.maxCross
      modifies this`disks, this`events, this`draws, this`waiting, this`pending, this`inRepair, network`availCross
      ensures Valid()
      ensures Abs() == HandleBatch(cfg, Lay(), old(Abs()), b).0
      ensures handled == HandleBatch(cfg, Lay(), old(Abs()), b).1
    {
      handled := true;
      match b.kind
      case DiskFail =>
        FailBatch(b.ids, b.time);
      case DiskRepair =>
        RepairBatch(b.ids, b.shares, b.time);
      case ChunkRepair =>
        ChunkBatch(b.shares);
      case DiskReplacement =>
        ReplaceBatch(b.ids, b.time);
      case Unlabelled =>
        handled := false;
    }

    // -------------------------------------------------------------------
    // GetNextEvent.

    /** The batch of `e`, just popped: the events at the top of the queue
        with its time and kind are popped too, their disks appended to the
        batch, and with the network modelled their repair shares as well. */
    method GatherBatch(e: Event) returns (b: Batch)
      modifies this`events
      ensures var g := Gather(cfg, old(events), Batch(e.time, e.kind, [e.disk], ShareOf(cfg, e)));
              events == g.0 && b == g.1
    {
      var ids := [e.disk];
      var shares := if cfg.useNetwork && IsRepairKind(e.kind) then [e.share] else [];
      ghost var g := Gather(cfg, events, Batch(e.time, e.kind, ids, shares));
      while |events| > 0 && Top(events).time == e.time && Top(events).kind == e.kind
        invariant Gather(cfg, events, Batch(e.time, e.kind, ids, shares)) == g
        decreases |events|
      {
        var next := Top(events);
        var more := if cfg.useNetwork && IsRepairKind(next.kind) then [next.share] else [];
        GatherStep(cfg, events, e.time, e.kind, ids, shares, more);
        events := Pop(events);
        ids, shares := ids + [next.disk], shares + more;
      }
      GatherStop(cfg, events, Batch(e.time, e.kind, ids, shares));
      b := Batch(e.time, e.kind, ids, shares);
    }

    /** The top waiting request is admitted again, at the current time, when
        the network is modelled and both the cross-rack bandwidth and the
        intra-rack bandwidth of its rack are nonzero. */
    method ReissueWaiting(curr: real)
      requires Valid()
      modifies this`events, this`waiting, this`pending, this`inRepair, network`availCross
      ensures Valid()
      ensures Abs() == Reissue(cfg, Lay(), old(Abs()), curr)
    {
      if |waiting| > 0 {
        var e := Top(waiting);
        RackInRange(cfg, e.disk);
        var rack := e.disk / cfg.nodesPerRack / cfg.disksPerNode;
        var cross := network.GetAvailCrossRackRepairBwth();
        var intra := network.GetAvailIntraRackRepairBwth(rack);
        if cfg.useNetwork && cross != 0.0 && intra != 0.0 {
          PopSubset(waiting);
          waiting := Pop(waiting);
          Admit(e.disk, curr);
        }
      }
    }

    /** GetNextEvent: after the reissue, the earliest event is popped; none,
        or one past the mission, ends the iteration (`found` false).
        Otherwise the events at the top with the same time and kind join it
        in one batch, which is then handled. */
    method GetNextEvent(curr: real) returns (found: bool, time: real, kind: EventKind, ids: seq<int>)
      requires Valid()
      modifies this`disks, this`events, this`draws, this`waiting, this`pending, this`inRepair, network`availCross
      ensures Valid()
      ensures Abs() == NextEvent(cfg, Lay(), old(Abs()), curr).st
      ensures found == NextEvent(cfg, Lay(), old(Abs()), curr).batch.Some?
      ensures found ==> var b := NextEvent(cfg, Lay(), old(Abs()), curr).batch.value;
                        time == b.time && kind == b.kind && ids == b.ids && IdsOk(cfg, ids)
    {
      ReissueWaiting(curr);
      found, time, kind, ids := PickNext();
    }

    /** GetNextEvent after the reissue. */
    method PickNext() returns (found: bool, time: real, kind: EventKind, ids: seq<int>)
      requires Valid()
      modifies this`disks, this`events, this`draws, this`waiting, this`pending, this`inRepair, network`availCross
      ensures Valid()
      ensures Abs() == Pick(cfg, Lay(), old(Abs())).st
      ensures found == Pick(cfg, Lay(), old(Abs())).batch.Some?
      ensures found ==> var b := Pick(cfg, Lay(), old(Abs())).batch.value;
                        time == b.time && kind == b.kind && ids == b.ids && IdsOk(cfg, ids)
    {
      ghost var s1 := Abs();
      found, time, kind, ids := false, 0.0, Unlabelled, [];
      if |events| == 0 {
        return;
      }
      var e := Top(events);
      PopKeeps(cfg, Lay(), s1);
      events := Pop(events);
      if e.time > cfg.missionTime {
        return;
      }
      ghost var s3, b;
      found, time, kind, ids, s3, b := HandleNext(e, s1);
      TakeIs(cfg, Lay(), s1.(events := Pop(s1.events)), e, s3, b, Abs(), found);
    }

    /** GetNextEvent once the earliest event `e`, within the mission, has
        been popped: the batch is gathered and handled. `s3` is the state
        after the gather. */
    method HandleNext(e: Event, ghost s1: Sched)
      returns (found: bool, time: real, kind: EventKind, ids: seq<int>, ghost s3: Sched, ghost b: Batch)
      requires Configured() && Fixed() && Inv(cfg, Lay(), s1)
      requires |s1.events| > 0 && e == Top(s1.events) && e.time <= cfg.missionTime
      requires Abs() == s1.(events := Pop(s1.events))
      modifies this`disks, this`events, this`draws, this`waiting, this`pending, this`inRepair, network`availCross
      ensures Valid()
      ensures Gather(cfg, Pop(s1.events), Batch(e.time, e.kind, [e.disk], ShareOf(cfg, e))) == (s3.events, b)
      ensures s3 == s1.(events := s3.events)
      ensures Abs() == HandleBatch(cfg, Lay(), s3, b).0 && found == HandleBatch(cfg, Lay(), s3, b).1
      ensures time == b.time && kind == b.kind && ids == b.ids && IdsOk(cfg, ids)
    {
      var batch := GatherBatch(e);
      GatherReady(cfg, Lay(), s1);
      s3, b := Abs(), batch;
      found := Dispatch(batch);
      time, kind, ids := batch.time, batch.kind, batch.ids;
    }

    // -------------------------------------------------------------------
    // RunIteration.

    /** The loss check after a failure batch: the pending map in lazy mode,
        the state's failed list in eager mode. */
    method CheckLoss() returns (loss: bool, tally: Placements.Tally)
      requires Valid()
      ensures tally == LossCheck(cfg, Lay(), pending, state.failedBits)
      ensures loss <==> tally.stripes > 0
    {
      if cfg.lazy {
        loss, tally := placement.CheckDataLossPending(pending);
      } else {
        var failed := state.GetFailedDisks();
        assert forall i :: 0 <= i < |failed| ==> failed[i] in failed;
        loss, tally := placement.CheckDataLoss(failed);
      }
    }

    /** One turn of RunIteration's loop up to the loss check: the next
        batch, the state's bitmap updated with it and, after a failure
        batch, the loss check. */
    method Turn(curr: real, counts: Option<Placements.Tally>)
      returns (found: bool, time: real, kind: EventKind, counts': Option<Placements.Tally>, lost: bool)
      requires Valid()
      modifies this`disks, this`events, this`draws, this`waiting, this`pending, this`inRepair, network`availCross
      modifies state`failedBits, state`availBits, state`numFailed, state`health
      ensures Valid()
      ensures var step := NextEvent(cfg, Lay(), old(Abs()), curr);
              Abs() == step.st && found == step.batch.Some?
              && (!found ==> state.failedBits == old(state.failedBits) && counts' == counts)
              && (found ==> var b := step.batch.value;
                            time == b.time && kind == b.kind && time <= cfg.missionTime
                            && state.failedBits == BitsAfter(old(state.failedBits), b.kind, b.ids)
                            && counts' == (if b.kind == DiskFail then Some(LossCheck(cfg, Lay(), Abs().pending, state.failedBits)) else counts)
                            && lost == (b.kind == DiskFail && counts'.value.stripes > 0))
    {
      var ids;
      found, time, kind, ids := GetNextEvent(curr);
      counts', lost := counts, false;
      if !found {
        return;
      }
      counts', lost := Account(kind, ids, counts);
    }

    /** The rest of the turn: the state's bitmap takes the batch and, after
        a failure batch, the loss check runs and its tally is kept. */
    method Account(kind: EventKind, ids: seq<int>, counts: Option<Placements.Tally>)
      returns (counts': Option<Placements.Tally>, lost: bool)
      requires Valid() && IdsOk(cfg, ids)
      modifies state`failedBits, state`availBits, state`numFailed, state`health
      ensures Valid()
      ensures state.failedBits == BitsAfter(old(state.failedBits), kind, ids)
      ensures counts' == (if kind == DiskFail then Some(LossCheck(cfg, Lay(), pending, state.failedBits)) else counts)
      ensures lost == (kind == DiskFail && counts'.value.stripes > 0)
    {
      counts', lost := counts, false;
      Mark(kind, ids);
      if kind == DiskFail {
        var tally;
        lost, tally := CheckLoss();
        counts' := Some(tally);
      }
    }

    /** UpdateState with the batch; its report of an unknown kind is not
        modelled (no batch has one: see BatchKinds). */
    method Mark(kind: EventKind, ids: seq<int>)
      requires Valid() && IdsOk(cfg, ids)
      modifies state`failedBits, state`availBits, state`numFailed, state`health
      ensures Valid()
      ensures state.failedBits == BitsAfter(old(state.failedBits), kind, ids)
    {
      assert forall i :: 0 <= i < |ids| ==> 0 <= ids[i] < MaxDisks;
      ghost var st, lay := Abs(), Lay();
      var ok := state.UpdateState(kind, ids);
      assert Abs() == st && Lay() == lay;
    }

    /** A turn of RunIteration's loop stated on the iteration function: with
        `n` turns left from the progress `p` before the turn, the turn either
        ends the iteration (nothing found or past the mission: Quiet; a loss:
        Loss) or leaves n-1 turns from the progress after it. */
    method Round(curr: real, counts: Option<Placements.Tally>, ghost lay: Layout, ghost n: nat, ghost r: (Progress, Ending))
      returns (found: bool, time: real, counts': Option<Placements.Tally>, lost: bool)
      requires Valid() && n > 0 && Lay() == lay
      requires Iterate(cfg, lay, Progress(Abs(), state.failedBits, counts, curr), n) == r
      modifies this`disks, this`events, this`draws, this`waiting, this`pending, this`inRepair, network`availCross
      modifies state`failedBits, state`availBits, state`numFailed, state`health
      ensures Valid() && Lay() == lay
      ensures !found ==> r == (Progress(Abs(), state.failedBits, counts', curr), Quiet)
      ensures found && lost ==> r == (Progress(Abs(), state.failedBits, counts', time), Loss)
      ensures found && !lost ==> Iterate(cfg, lay, Progress(Abs(), state.failedBits, counts', time), n - 1) == r
    {
      ghost var p := Progress(Abs(), state.failedBits, counts, curr);
      var kind;
      found, time, kind, counts', lost := Turn(curr, counts);
      IterateTurn(cfg, Lay(), p, n, Abs(), found, time, state.failedBits, counts', lost);
    }

    /** RunIteration: GetNextEvent until it finds nothing, updating the
        state's bitmap with each batch and, after a failure batch, checking
        for data loss; a loss ends the iteration with 1. The loop runs at
        most `fuel` turns. `counts` is what the loss checks last wrote:
        None when no failure batch ran. */
    method RunIteration(fuel: nat) returns (loss: nat, counts: Option<Placements.Tally>, ending: Ending)
      requires Valid()
      modifies this`disks, this`events, this`draws, this`waiting, this`pending, this`inRepair, network`availCross
      modifies state`failedBits, state`availBits, state`numFailed, state`health
      ensures Valid()
      ensures var r := Iterate(cfg, Lay(), Progress(old(Abs()), old(state.failedBits), None, 0.0), fuel);
              Abs() == r.0.sched && state.failedBits == r.0.failed && counts == r.0.tally && ending == r.1
      ensures loss == (if ending == Loss then 1 else 0)
    {
      ghost var lay := Lay();
      ghost var r := Iterate(cfg, lay, Progress(Abs(), state.failedBits, None, 0.0), fuel);
      var curr := 0.0;
      var n := fuel;
      var stop := false;
      counts, loss, ending := None, 0, Exhausted;
      while n > 0 && !stop
        invariant Valid() && Lay() == lay
        invariant !stop ==> Iterate(cfg, lay, Progress(Abs(), state.failedBits, counts, curr), n) == r
        invariant !stop ==> ending == Exhausted && loss == 0
        invariant stop ==> r == (Progress(Abs(), state.failedBits, counts, curr), ending)
                           && loss == (if ending == Loss then 1 else 0)
        decreases n, !stop
      {
        var found, time, lost;
        found, time, counts, lost := Round(curr, counts, lay, n, r);
        if !found {
          ending, stop := Quiet, true;
        } else {
          curr := time;
          if lost {
            ending, loss, stop := Loss, 1, true;
          } else {
            n := n - 1;
          }
        }
      }
      if !stop {
        assert r == (Progress(Abs(), state.failedBits, counts, curr), Exhausted);
      }
    }

    /** Run: numIterations times Reset then RunIteration (at most `fuel`
        turns each), adding up the iterations that lost data and the
        counters of their last loss checks. `runs` are the iterations'
        outcomes, each one of the iteration function from a state as Reset
        seeds it; an iteration in which no loss check ran adds nothing to
        the counters (AsWrittenSum is the source's accumulation). */
    method Run(fuel: nat) returns (dataLoss: nat, failedStripes: nat, lostChunks: nat, ghost runs: seq<(Progress, Ending)>)
      requires Configured()
      modifies this
      ensures |runs| == Iterations(numIterations)
      ensures Totals(dataLoss, failedStripes, lostChunks) == RunTotals(runs)
      ensures SeededRuns(cfg, trace, fuel, runs)
    {
      dataLoss, failedStripes, lostChunks, runs := 0, 0, 0, [];
      for iter := 0 to Iterations(numIterations)
        invariant |runs| == iter
        invariant Totals(dataLoss, failedStripes, lostChunks) == RunTotals(runs)
        invariant SeededRuns(cfg, trace, fuel, runs)
      {
        var loss, counts, r := Iteration(fuel);
        SumPush(runs, r);
        SeededRunsPush(cfg, trace, fuel, runs, r);
        var c := Counted(counts);
        dataLoss, failedStripes, lostChunks := dataLoss + loss, failedStripes + c.stripes, lostChunks + c.chunks;
        runs := runs + [r];
      }
    }

    /** One iteration of Run: Reset, then RunIteration. */
    method Iteration(fuel: nat) returns (loss: nat, counts: Option<Placements.Tally>, ghost r: (Progress, Ending))
      requires Configured()
      modifies this
      ensures SeededRun(cfg, trace, fuel, r)
      ensures loss == (if r.1 == Loss then 1 else 0) && counts == r.0.tally
    {
      ghost var draws0 := draws;
      Reset();
      ghost var lay := Lay();
      ghost var st := Abs();
      r := Iterate(cfg, lay, Progress(st, {}, None, 0.0), fuel);
      SeededRunIs(cfg, trace, fuel, lay, draws0, st, r);
      var ending;
      loss, counts, ending := RunIteration(fuel);
    }
  }

  /** The outcome of the iteration function from a state Reset seeds is
      one SeededRun speaks of. */
  lemma SeededRunIs(cfg: Config, trace: seq<FailedDisk>, fuel: nat, lay: Layout, draws: nat, st: Sched, r: (Progress, Ending))
    requires ConfigOk(cfg) && LayoutOk(cfg, lay)
    requires st == Seeded(cfg, trace, PristineDisks(NumDisks(cfg)), draws)
    requires r == Iterate(cfg, lay, Progress(st, {}, None, 0.0), fuel)
    ensures SeededRun(cfg, trace, fuel, r)
  {
    assert r == Iterate(cfg, lay, SeededStart(cfg, trace, draws), fuel);
  }

  /** One turn of the iteration, stated on the outcome of a turn: the
      scheduler state `st1`, whether a batch was found and, when one was,
      its time and the bitmap and tally after it (`failed1`, `tally1`) and
      whether the loss check found a loss. */
  lemma IterateTurn(cfg: Config, lay: Layout, p: Progress, n: nat, st1: Sched, found: bool, time: real,
                    failed1: set<int>, tally1: Option<Placements.Tally>, lost: bool)
    requires ConfigOk(cfg) && LayoutOk(cfg, lay) && n > 0
    requires var step := NextEvent(cfg, lay, p.sched, p.curr);
             st1 == step.st && found == step.batch.Some?
             && (found ==> var b := step.batch.value;
                           time == b.time && failed1 == BitsAfter(p.failed, b.kind, b.ids)
                           && tally1 == (if b.kind == DiskFail then Some(LossCheck(cfg, lay, st1.pending, failed1)) else p.tally)
                           && lost == (b.kind == DiskFail && tally1.value.stripes > 0))
    ensures !found ==> Iterate(cfg, lay, p, n) == (p.(sched := st1), Quiet)
    ensures found && lost ==> Iterate(cfg, lay, p, n) == (Progress(st1, failed1, tally1, time), Loss)
    ensures found && !lost ==> Iterate(cfg, lay, p, n) == Iterate(cfg, lay, Progress(st1, failed1, tally1, time), n - 1)
  {
    assert Iterate(cfg, lay, p, n) == Proceed(cfg, lay, p, n - 1);
  }

  /** The layout a valid placement holds is one the scheduler can read:
      every listed stripe of a disk exists. */
  lemma PlacementLayoutOk(cfg: Config, locs: seq<seq<int>>, perDisk: seq<seq<int>>)
    requires |perDisk| == NumDisks(cfg) + 1
    requires forall s, p :: 0 <= s < |locs| && 0 <= p < |locs[s]| ==> 0 <= locs[s][p] < NumDisks(cfg)
    requires forall d :: 0 <= d < |perDisk| ==> perDisk[d] == Placements.StripesOn(locs, d)
    ensures LayoutOk(cfg, Layout(locs, perDisk))
  {
    forall d, i | 0 <= d < |perDisk| && 0 <= i < |perDisk[d]|
      ensures 0 <= perDisk[d][i] < |locs|
    {
      Placements.StripesOnSpec(locs, d);
      assert perDisk[d][i] in Placements.StripesOn(locs, d);
    }
  }

  lemma GatherStep(cfg: Config, q: seq<Event>, time: real, kind: EventKind, ids: seq<int>, shares: seq<real>, more: seq<real>)
    requires |q| > 0 && Top(q).time == time && Top(q).kind == kind && more == ShareOf(cfg, Top(q))
    ensures Gather(cfg, q, Batch(time, kind, ids, shares)) == Gather(cfg, Pop(q), Batch(time, kind, ids + [Top(q).disk], shares + more))
  {
  }

  lemma GatherStop(cfg: Config, q: seq<Event>, b: Batch)
    requires !(|q| > 0 && Top(q).time == b.time && Top(q).kind == b.kind)
    ensures Gather(cfg, q, b) == (q, b)
  {
  }

  /** GetNextEvent with a batch, given the state after the pop, the
      earliest event, the state after the gather and the outcome of the
      dispatch. */
  lemma TakeIs(cfg: Config, lay: Layout, s2: Sched, e: Event, s3: Sched, b: Batch, st': Sched, handled: bool)
    requires ConfigOk(cfg) && e.time <= cfg.missionTime
    requires Gather(cfg, s2.events, Batch(e.time, e.kind, [e.disk], ShareOf(cfg, e))) == (s3.events, b)
    requires s3 == s2.(events := s3.events)
    requires st' == HandleBatch(cfg, lay, s3, b).0 && handled == HandleBatch(cfg, lay, s3, b).1
    ensures st' == Take(cfg, lay, s2, e).st
    ensures handled == Take(cfg, lay, s2, e).batch.Some?
    ensures handled ==> Take(cfg, lay, s2, e).batch.value == b
  {
  }

  /** A rack id computed from a disk id of the cluster is a rack of it. */
  lemma RackInRange(cfg: Config, d: int)
    requires ConfigOk(cfg) && 0 <= d < NumDisks(cfg)
    ensures 0 <= d / cfg.nodesPerRack / cfg.disksPerNode < cfg.numRacks
  {
    var n, m := cfg.nodesPerRack, cfg.disksPerNode;
    var q1 := d / n;
    var q := q1 / m;
    DivMul(d, n);
    DivMul(q1, m);
    MulMono(q * m, q1, n);
    MulAssoc(q, m, n);
    assert NumDisks(cfg) == cfg.numRacks * (m * n);
    MulLess(q, cfg.numRacks, m * n);
  }

  lemma DivMul(x: int, k: int)
    requires 0 <= x && 0 < k
    ensures 0 <= x / k && (x / k) * k <= x
  {
  }

  lemma MulAssoc(a: int, b: int, c: int)
    ensures a * (b * c) == a * b * c
  {
  }

  lemma MulMono(a: int, b: int, c: int)
    requires a <= b && 0 <= c
    ensures a * c <= b * c
  {
  }

  lemma MulLess(a: int, b: int, c: int)
    requires a * c < b * c && 0 < c
    ensures a < b
  {
    if a >= b {
      MulMono(b, a, c);
    }
  }

  lemma AdmitAllStep(cfg: Config, lay: Layout, st: Sched, ids: seq<int>, i: nat, t: real)
    requires ConfigOk(cfg) && i < |ids|
    ensures AdmitAll(cfg, lay, st, ids[..i + 1], t) == Scheduling.Admit(cfg, lay, AdmitAll(cfg, lay, st, ids[..i], t), ids[i], t)
  {
    assert ids[..i + 1][..i] == ids[..i];
  }

  lemma ReplaceAllStep(cfg: Config, lay: Layout, st: Sched, ids: seq<int>, i: nat, t: real)
    requires ConfigOk(cfg) && i < |ids|
    ensures var s := ReplaceAll(cfg, lay, st, ids[..i], t);
            ReplaceAll(cfg, lay, st, ids[..i + 1], t)
            == if StateOf(s.disks, ids[i]) != Normal then Replaced(cfg, lay, s, ids[i], t) else s
  {
    assert ids[..i + 1][..i] == ids[..i];
  }

  /** The chunks the followers upload, summed over `keys`. */
  method UploadOf(fs: map<int, seq<int>>, keys: seq<int>) returns (upload: nat)
    requires forall i :: 0 <= i < |keys| ==> keys[i] in fs
    ensures upload == Uploads(fs, keys)
  {
    upload := 0;
    for i := 0 to |keys|
      invariant upload == Uploads(fs, keys[..i])
    {
      assert keys[..i + 1][..i] == keys[..i];
      upload := upload + |fs[keys[i]]|;
    }
    assert keys[..|keys|] == keys;
  }

  /** AddFollowers as the source's loop computes it. */
  method AddFollowersOf(followers: map<int, seq<int>>, ds: seq<int>, leader: int, s: int) returns (f: map<int, seq<int>>)
    ensures f == AddFollowers(followers, ds, leader, s)
  {
    f := followers;
    for i := 0 to |ds|
      invariant f == AddFollowers(followers, ds[..i], leader, s)
    {
      assert ds[..i + 1][..i] == ds[..i];
      if ds[i] != leader {
        f := f[ds[i] := (if ds[i] in f then f[ds[i]] else []) + [s]];
      }
    }
    assert ds[..|ds|] == ds;
  }

  /** EagerRepair once bandwidth is available is EagerFinish of the scan. */
  lemma EagerRepairIs(cfg: Config, lay: Layout, st: Sched, disk: int, t: real, r: Option<int>)
    requires ConfigOk(cfg) && st.avail != 0.0 && r == EagerDownload(cfg, lay, st.disks, disk, StripesOf(lay, disk))
    ensures EagerRepair(cfg, lay, st, disk, t) == EagerFinish(cfg, st, disk, t, r)
  {
  }

  // ---------------------------------------------------------------------
  // The scans one stripe at a time; they stop at the first stripe beyond
  // its tolerance.

  lemma EagerDownloadStep(cfg: Config, lay: Layout, disks: seq<Clocks>, disk: int, stripes: seq<int>, i: nat, acc: int, one: Option<int>)
    requires ConfigOk(cfg) && i < |stripes|
    requires EagerDownload(cfg, lay, disks, disk, stripes[..i]) == Some(acc)
    requires one == EagerStripe(cfg, lay, disks, disk, stripes[i])
    ensures EagerDownload(cfg, lay, disks, disk, stripes[..i + 1]) == if one.None? then None else Some(acc + one.value)
  {
    var pre := stripes[..i + 1];
    assert pre[..i] == stripes[..i] && pre[i] == stripes[i];
    assert EagerDownload(cfg, lay, disks, disk, pre) == EagerAdd(Some(acc), one);
  }

  lemma EagerStripeIs(cfg: Config, lay: Layout, disks: seq<Clocks>, disk: int, s: int, loc: seq<int>, sc: Scan)
    requires ConfigOk(cfg) && loc == StripeLoc(lay, s)
    requires sc == StripeScan(cfg, loc, CrashedMask(disks, loc), disk)
    ensures EagerStripe(cfg, lay, disks, disk, s)
            == if sc.counts.failed != 1 && OverTolerance(cfg.code, sc.counts) then None else Some(StripeTraffic(cfg, sc))
  {
  }

  lemma LazyStripeIs(cfg: Config, lay: Layout, disks: seq<Clocks>, disk: int, acc: LazyAcc, s: int,
                     loc: seq<int>, bad: seq<bool>, sc: Scan)
    requires ConfigOk(cfg) && loc == StripeLoc(lay, s) && bad == PendingMask(disks, acc.pending, s, loc)
    requires sc == StripeScan(cfg, loc, bad, disk)
    ensures var ds := BadDisks(loc, bad);
            LazyStripe(cfg, lay, disks, disk, acc, s)
            == if OverTolerance(cfg.code, sc.counts) then acc.(pending := Record(acc.pending, s, ds), aborted := true)
               else if sc.counts.failed < cfg.lazyThreshold then
                 if sc.counts.failed == 0 then acc.(pending := acc.pending - {s})
                 else acc.(pending := Record(acc.pending, s, ds))
               else
                 acc.(followers := AddFollowers(acc.followers, ds, disk, s),
                      pending := acc.pending - {s},
                      download := acc.download + StripeTraffic(cfg, sc))
  {
  }

  lemma LazyFoldStep(cfg: Config, lay: Layout, disks: seq<Clocks>, disk: int, acc: LazyAcc, stripes: seq<int>, i: nat)
    requires ConfigOk(cfg) && i < |stripes|
    ensures var a := LazyFold(cfg, lay, disks, disk, acc, stripes[..i]);
            LazyFold(cfg, lay, disks, disk, acc, stripes[..i + 1])
            == if a.aborted then a else LazyStripe(cfg, lay, disks, disk, a, stripes[i])
  {
    assert stripes[..i + 1][..i] == stripes[..i];
  }

  lemma {:induction false} LazyAbortSticks(cfg: Config, lay: Layout, disks: seq<Clocks>, disk: int, acc: LazyAcc, stripes: seq<int>, j: nat)
    requires ConfigOk(cfg) && j <= |stripes|
    requires LazyFold(cfg, lay, disks, disk, acc, stripes[..j]).aborted
    ensures LazyFold(cfg, lay, disks, disk, acc, stripes) == LazyFold(cfg, lay, disks, disk, acc, stripes[..j])
    decreases |stripes| - j
  {
    if j < |stripes| {
      LazyFoldStep(cfg, lay, disks, disk, acc, stripes, j);
      LazyAbortSticks(cfg, lay, disks, disk, acc, stripes, j + 1);
    } else {
      assert stripes[..j] == stripes;
    }
  }

  /** FollowUp once bandwidth is available, given the followers in
      ascending order, their upload, the bandwidth claimed and the repair
      time. */
  lemma FollowClaimIs(cfg: Config, st: Sched, disk: int, t: real, fs: map<int, seq<int>>, keys: seq<int>, upload: nat,
                      bw: real, repairTime: real, st': Sched)
    requires st.avail != 0.0 && bw == st.avail
    requires fs == FollowersOf(st, disk) && keys == SortedKeys(fs.Keys) && upload == UploadTotal(fs)
    requires repairTime == RepairTime(cfg, upload, bw)
    requires st' == st.(avail := Claimed(cfg, st),
                        events := st.events + FollowerEvents(st.disks, fs, keys, upload, bw, t + repairTime),
                        inRepair := st.inRepair - {disk})
    ensures st' == FollowUp(cfg, st, disk, t)
  {
    FollowUpIs(cfg, st, disk, t);
    assert t + repairTime == t + RepairTime(cfg, UploadTotal(FollowersOf(st, disk)), st.avail);
    assert st'.events == st.events + FollowerEvents(st.disks, fs, SortedKeys(fs.Keys), UploadTotal(fs), st.avail, t + repairTime);
  }

  /** LazyRepair once bandwidth is available is LazyFinish of the scan. */
  lemma LazyRepairIs(cfg: Config, lay: Layout, st: Sched, disk: int, t: real, a: LazyAcc)
    requires ConfigOk(cfg) && st.avail != 0.0 && a == LazyScanOf(cfg, lay, st, disk)
    ensures LazyRepair(cfg, lay, st, disk, t) == LazyFinish(cfg, st, disk, t, a)
  {
  }

  lemma {:induction false} EagerNoneSticks(cfg: Config, lay: Layout, disks: seq<Clocks>, disk: int, stripes: seq<int>, j: nat)
    requires ConfigOk(cfg) && j <= |stripes|
    requires EagerDownload(cfg, lay, disks, disk, stripes[..j]).None?
    ensures EagerDownload(cfg, lay, disks, disk, stripes).None?
    decreases |stripes| - j
  {
    if j < |stripes| {
      assert stripes[..j + 1][..j] == stripes[..j];
      EagerNoneSticks(cfg, lay, disks, disk, stripes, j + 1);
    } else {
      assert stripes[..j] == stripes;
    }
  }
}
