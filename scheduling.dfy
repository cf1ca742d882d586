// The repair scheduler of simulator/libc/simulation.cpp as functions on a
// value: the two queues, the two lazy-repair maps, the disks and the
// available cross-rack bandwidth. Each function computes the state the
// corresponding member of the simulation leaves behind; the Simulation class
// (simulation.dfy) is proved to produce exactly these values.
module Scheduling {
  import opened Events
  import opened Disks
  import opened StripeRules
  import opened Traffic
  import opened Networks
  import opened SystemStates
  import Placements
  import opened Traces

  datatype Option<T> = None | Some(value: T)

  /** The simulation's settings. The Weibull sampler is the function
      `lifetime`: the i-th lifetime drawn in an iteration is lifetime(i). */
  datatype Config = Config(
    code: Code,
    missionTime: real,
    numRacks: int,
    nodesPerRack: int,
    disksPerNode: int,
    chunkSize: int,
    useNetwork: bool,
    useTrace: bool,
    lazy: bool,
    lazyThreshold: int,
    maxCross: real,           // network_setting[0]
    intra: real,              // network_setting[1]
    lifetime: nat -> real)

  function DisksPerRack(cfg: Config): int {
    cfg.nodesPerRack * cfg.disksPerNode
  }

  function NumDisks(cfg: Config): int {
    cfg.numRacks * DisksPerRack(cfg)
  }

  /** What the source needs of its settings: a rack holds at least one disk
      (every rack id is a division by the rack size), the LRC layout has at
      most two groups, and the disk ids fit the state's bitsets. */
  predicate ConfigOk(cfg: Config) {
    0 <= cfg.numRacks && 0 < cfg.nodesPerRack && 0 < cfg.disksPerNode
    && 0 < DisksPerRack(cfg) && 0 <= NumDisks(cfg) <= MaxDisks
    && LayoutFits(cfg.code)
  }

  /** The layout the simulation reads: stripes_location_ and stripes_per_disk_. */
  datatype Layout = Layout(locs: seq<seq<int>>, perDisk: seq<seq<int>>)

  /** A layout as Placement builds it: every chunk on a disk of the cluster,
      the index one entry longer than the disk count, every indexed stripe
      an existing one. */
  predicate LayoutOk(cfg: Config, lay: Layout) {
    |lay.perDisk| == NumDisks(cfg) + 1
    && (forall s, p :: 0 <= s < |lay.locs| && 0 <= p < |lay.locs[s]| ==> 0 <= lay.locs[s][p] < NumDisks(cfg))
    && (forall d, i :: 0 <= d < |lay.perDisk| && 0 <= i < |lay.perDisk[d]| ==> 0 <= lay.perDisk[d][i] < |lay.locs|)
  }

  /** The scheduler's state.
      pending: stripe_disks_to_repair_, stripe id -> disks it waits on;
      inRepair: disk_stripes_in_repair_, leader disk -> follower -> stripes;
      avail: the network's available cross-rack bandwidth;
      draws: how many lifetimes have been drawn. */
  datatype Sched = Sched(
    events: seq<Event>,
    waiting: seq<Event>,
    pending: map<int, seq<int>>,
    inRepair: map<int, map<int, seq<int>>>,
    disks: seq<Clocks>,
    avail: real,
    draws: nat)

  // ---------------------------------------------------------------------
  // Reads that the source performs by index. Every id the scheduler reads
  // is in range (Invariants.Inv); out of range they read as Normal or empty.

  function StateOf(disks: seq<Clocks>, d: int): DiskState {
    if 0 <= d < |disks| then disks[d].state else Normal
  }

  function StripesOf(lay: Layout, d: int): seq<int> {
    if 0 <= d < |lay.perDisk| then lay.perDisk[d] else []
  }

  function StripeLoc(lay: Layout, s: int): seq<int> {
    if 0 <= s < |lay.locs| then lay.locs[s] else []
  }

  // ---------------------------------------------------------------------
  // CheckStripeDisksToRepair, both overloads.

  /** 1 when the stripe has a pending entry, else 0. */
  function PendingStatus(pending: map<int, seq<int>>, s: int): (r: int)
    ensures r == 1 <==> s in pending
    ensures r == 0 <==> s !in pending
  {
    if s in pending then 1 else 0
  }

  /** 2 when the stripe's pending entry lists the disk, 1 when the entry
      exists without it, 0 when there is no entry. */
  function PendingDiskStatus(pending: map<int, seq<int>>, s: int, d: int): (r: int)
    ensures r == 2 <==> s in pending && d in pending[s]
    ensures r == 1 <==> s in pending && d !in pending[s]
    ensures r == 0 <==> s !in pending
  {
    if s in pending then (if d in pending[s] then 2 else 1) else 0
  }

  // ---------------------------------------------------------------------
  // Masks and the per-stripe scan.

  /** The eager scan's bad positions: the chunks on crashed disks. */
  function CrashedMask(disks: seq<Clocks>, loc: seq<int>): (bad: seq<bool>)
    ensures |bad| == |loc|
    ensures forall p :: 0 <= p < |loc| ==> bad[p] == (StateOf(disks, loc[p]) == Crashed)
  {
    seq(|loc|, p requires 0 <= p < |loc| => StateOf(disks, loc[p]) == Crashed)
  }

  /** The lazy scan's bad positions: crashed, or listed as pending for the stripe. */
  function PendingMask(disks: seq<Clocks>, pending: map<int, seq<int>>, s: int, loc: seq<int>): (bad: seq<bool>)
    ensures |bad| == |loc|
    ensures forall p :: 0 <= p < |loc| ==>
              bad[p] == (StateOf(disks, loc[p]) == Crashed || PendingDiskStatus(pending, s, loc[p]) == 2)
  {
    seq(|loc|, p requires 0 <= p < |loc| =>
      StateOf(disks, loc[p]) == Crashed || PendingDiskStatus(pending, s, loc[p]) == 2)
  }

  /** The scan of one stripe on behalf of the repairing disk. */
  function StripeScan(cfg: Config, loc: seq<int>, bad: seq<bool>, disk: int): Scan
    requires ConfigOk(cfg) && |bad| == |loc|
  {
    ScanOf(loc, bad, cfg.code.l, disk, disk / DisksPerRack(cfg), DisksPerRack(cfg))
  }

  function StripeTraffic(cfg: Config, sc: Scan): int {
    RepairTraffic(cfg.code, sc.counts.failed, sc.aliveSameRack, sc.aliveIdx, sc.failIdx)
  }

  /** Hours to move `amount` chunks at bandwidth bw. */
  function RepairTime(cfg: Config, amount: int, bw: real): real
    requires bw != 0.0
  {
    (amount as real) * (cfg.chunkSize as real) / bw / 3600.0
  }

  /** A request that finds no bandwidth waits, unlabelled, on the wait queue. */
  function Park(st: Sched, disk: int, t: real): Sched {
    st.(waiting := st.waiting + [Event(t, Unlabelled, disk, 0.0)])
  }

  /** The bandwidth claim: the whole available value, leaving 0 behind. */
  function Claimed(cfg: Config, st: Sched): real {
    CrossUpdated(cfg.maxCross, st.avail, 0.0)
  }

  // ---------------------------------------------------------------------
  // Eager repair (SetDiskRepair).

  /** The eager scan over the disk's stripes: the total download, or None
      when a stripe with other than exactly one bad chunk is beyond its
      tolerance. */
  function EagerDownload(cfg: Config, lay: Layout, disks: seq<Clocks>, disk: int, stripes: seq<int>): Option<int>
    requires ConfigOk(cfg)
  {
    if |stripes| == 0 then Some(0)
    else EagerAdd(EagerDownload(cfg, lay, disks, disk, stripes[..|stripes| - 1]),
                  EagerStripe(cfg, lay, disks, disk, stripes[|stripes| - 1]))
  }

  /** The running download plus one stripe's, None once either is None. */
  function EagerAdd(acc: Option<int>, one: Option<int>): Option<int> {
    match acc
    case None => None
    case Some(a) =>
      match one
      case None => None
      case Some(traffic) => Some(a + traffic)
  }

  /** One stripe of the eager scan: its download, or None when it has other
      than exactly one bad chunk and is beyond its tolerance. */
  function EagerStripe(cfg: Config, lay: Layout, disks: seq<Clocks>, disk: int, s: int): Option<int>
    requires ConfigOk(cfg)
  {
    var loc := StripeLoc(lay, s);
    var sc := StripeScan(cfg, loc, CrashedMask(disks, loc), disk);
    if sc.counts.failed != 1 && OverTolerance(cfg.code, sc.counts) then None
    else Some(StripeTraffic(cfg, sc))
  }

  /** What an eager repair leaves once the scan's outcome is known: nothing
      changes when a stripe was beyond its tolerance; otherwise the whole
      bandwidth is claimed and the repair event is queued. */
  function EagerFinish(cfg: Config, st: Sched, disk: int, t: real, r: Option<int>): Sched
    requires st.avail != 0.0
  {
    match r
    case None => st
    case Some(download) =>
      st.(avail := Claimed(cfg, st),
          events := st.events + [Event(t + RepairTime(cfg, download, st.avail), DiskRepair, disk, st.avail)])
  }

  function EagerRepair(cfg: Config, lay: Layout, st: Sched, disk: int, t: real): Sched
    requires ConfigOk(cfg)
  {
    if st.avail == 0.0 then Park(st, disk, t)
    else EagerFinish(cfg, st, disk, t, EagerDownload(cfg, lay, st.disks, disk, StripesOf(lay, disk)))
  }

  // ---------------------------------------------------------------------
  // Lazy repair (SetDiskLazyRepair).

  /** xs followed by the elements of ds not already present, each once. */
  function MergeNoDup(xs: seq<int>, ds: seq<int>): seq<int> {
    if |ds| == 0 then xs
    else
      var m := MergeNoDup(xs, ds[..|ds| - 1]);
      if ds[|ds| - 1] in m then m else m + [ds[|ds| - 1]]
  }

  /** The stripe's pending entry records the bad disks: merged into an
      existing entry, or the entry is created from them. */
  function Record(pending: map<int, seq<int>>, s: int, ds: seq<int>): map<int, seq<int>> {
    if PendingStatus(pending, s) == 1 then pending[s := MergeNoDup(pending[s], ds)] else pending[s := ds]
  }

  /** Every bad disk other than the leader records the stripe as one it
      follows the leader's repair in. */
  function AddFollowers(followers: map<int, seq<int>>, ds: seq<int>, leader: int, s: int): map<int, seq<int>> {
    if |ds| == 0 then followers
    else
      var f := AddFollowers(followers, ds[..|ds| - 1], leader, s);
      var d := ds[|ds| - 1];
      if d == leader then f
      else f[d := (if d in f then f[d] else []) + [s]]
  }

  /** The lazy scan's running values; `aborted` once a stripe was beyond its tolerance. */
  datatype LazyAcc = LazyAcc(pending: map<int, seq<int>>, followers: map<int, seq<int>>, download: int, aborted: bool)

  /** One stripe of the lazy scan. */
  function LazyStripe(cfg: Config, lay: Layout, disks: seq<Clocks>, disk: int, acc: LazyAcc, s: int): LazyAcc
    requires ConfigOk(cfg)
  {
    var loc := StripeLoc(lay, s);
    var bad := PendingMask(disks, acc.pending, s, loc);
    var sc := StripeScan(cfg, loc, bad, disk);
    var ds := BadDisks(loc, bad);
    if OverTolerance(cfg.code, sc.counts) then
      acc.(pending := Record(acc.pending, s, ds), aborted := true)
    else if sc.counts.failed < cfg.lazyThreshold then
      if sc.counts.failed == 0 then acc.(pending := acc.pending - {s})
      else acc.(pending := Record(acc.pending, s, ds))
    else
      acc.(followers := AddFollowers(acc.followers, ds, disk, s),
           pending := acc.pending - {s},
           download := acc.download + StripeTraffic(cfg, sc))
  }

  /** The lazy scan over a list of stripes, stopping at the first abort. */
  function LazyFold(cfg: Config, lay: Layout, disks: seq<Clocks>, disk: int, acc: LazyAcc, stripes: seq<int>): LazyAcc
    requires ConfigOk(cfg)
  {
    if |stripes| == 0 then acc
    else
      var a := LazyFold(cfg, lay, disks, disk, acc, stripes[..|stripes| - 1]);
      if a.aborted then a else LazyStripe(cfg, lay, disks, disk, a, stripes[|stripes| - 1])
  }

  /** The lazy scan of a disk's stripes, from the state's pending map. */
  function LazyScanOf(cfg: Config, lay: Layout, st: Sched, disk: int): LazyAcc
    requires ConfigOk(cfg)
  {
    LazyFold(cfg, lay, st.disks, disk, LazyAcc(st.pending, map[], 0, false), StripesOf(lay, disk))
  }

  /** What a lazy repair leaves once the scan's outcome `a` is known: the
      pending map it built, and, when anything is to be downloaded, the
      whole bandwidth claimed, the repair event and the followers. */
  function LazyFinish(cfg: Config, st: Sched, disk: int, t: real, a: LazyAcc): Sched
    requires st.avail != 0.0
  {
    if a.aborted || a.download <= 0 then st.(pending := a.pending)
    else
      st.(pending := a.pending,
          avail := Claimed(cfg, st),
          events := st.events + [Event(t + RepairTime(cfg, a.download, st.avail), DiskRepair, disk, st.avail)],
          inRepair := st.inRepair[disk := a.followers])
  }

  function LazyRepair(cfg: Config, lay: Layout, st: Sched, disk: int, t: real): Sched
    requires ConfigOk(cfg)
  {
    if st.avail == 0.0 then Park(st, disk, t)
    else LazyFinish(cfg, st, disk, t, LazyScanOf(cfg, lay, st, disk))
  }

  // ---------------------------------------------------------------------
  // Follow-up repair (SetDiskRepairFollowed).

  lemma {:induction false} MinExists(s: set<int>)
    requires s != {}
    ensures exists m :: m in s && forall x :: x in s ==> m <= x
    decreases |s|
  {
    assert exists y :: y in s by {
      if forall y :: y !in s {
        assert false;
      }
    }
    var y :| y in s;
    var rest := s - {y};
    assert forall x :: x in s ==> x == y || x in rest;
    if rest == {} {
      assert y in s && forall x :: x in s ==> y <= x;
    } else {
      MinExists(rest);
      var m :| m in rest && forall x :: x in rest ==> m <= x;
      var low := if y < m then y else m;
      assert low in s && forall x :: x in s ==> low <= x;
    }
  }

  /** The keys of a map in ascending order, as a std::map iterates them. */
  function SortedKeys(s: set<int>): (r: seq<int>)
    ensures forall x :: x in r <==> x in s
    decreases |s|
  {
    if s == {} then []
    else
      MinExists(s);
      var m :| m in s && forall x :: x in s ==> m <= x;
      [m] + SortedKeys(s - {m})
  }

  /** The first key is below all the others, which are the keys of the rest. */
  lemma SortedKeysFirst(s: set<int>)
    requires s != {}
    ensures var r := SortedKeys(s);
            |r| > 0 && r == [r[0]] + SortedKeys(s - {r[0]})
            && forall x :: x in SortedKeys(s - {r[0]}) ==> r[0] < x
  {
    var r := SortedKeys(s);
    var m := r[0];
    assert r == [m] + SortedKeys(s - {m}) && forall x :: x in s ==> m <= x;
    forall x | x in SortedKeys(s - {m})
      ensures m < x
    {
      assert x in s - {m};
    }
  }

  /** The keys come out in strictly ascending order. */
  lemma {:induction false} SortedKeysAscend(s: set<int>)
    ensures forall i, j :: 0 <= i < j < |SortedKeys(s)| ==> SortedKeys(s)[i] < SortedKeys(s)[j]
    decreases |s|
  {
    if s != {} {
      var r := SortedKeys(s);
      SortedKeysFirst(s);
      var m := r[0];
      var rest := SortedKeys(s - {m});
      SortedKeysAscend(s - {m});
      forall i, j | 0 <= i < j < |r|
        ensures r[i] < r[j]
      {
        assert r[j] == rest[j - 1] && r[j] in rest;
        if i > 0 {
          assert r[i] == rest[i - 1];
        }
      }
    }
  }

  /** The chunks the followers upload: the total length of their stripe lists. */
  function Uploads(fs: map<int, seq<int>>, keys: seq<int>): nat {
    if |keys| == 0 then 0
    else
      var k := keys[|keys| - 1];
      Uploads(fs, keys[..|keys| - 1]) + (if k in fs then |fs[k]| else 0)
  }

  /** A follower's share of the claimed bandwidth: its part of the upload. */
  function Share(count: nat, total: nat, bw: real): real {
    if total == 0 then 0.0 else (count as real) / (total as real) * bw
  }

  /** One event per follower, all at `when`: DiskRepair for a follower
      that is not Normal, ChunkRepair for one that is. */
  function FollowerEvents(disks: seq<Clocks>, fs: map<int, seq<int>>, keys: seq<int>, total: nat, bw: real, when: real): (r: seq<Event>)
    ensures |r| == |keys|
  {
    if |keys| == 0 then []
    else
      var k := keys[|keys| - 1];
      var count := if k in fs then |fs[k]| else 0;
      FollowerEvents(disks, fs, keys[..|keys| - 1], total, bw, when)
      + [Event(when, if StateOf(disks, k) != Normal then DiskRepair else ChunkRepair, k, Share(count, total, bw))]
  }

  function UploadTotal(fs: map<int, seq<int>>): nat {
    Uploads(fs, SortedKeys(fs.Keys))
  }

  function FollowersOf(st: Sched, disk: int): map<int, seq<int>> {
    if disk in st.inRepair then st.inRepair[disk] else map[]
  }

  /** A follow-up once bandwidth is claimed: `avail` is what the claim
      leaves behind, every follower gets an event at `when` with its share
      of the old available value, and the disk has no followers left. */
  function FollowFinish(st: Sched, disk: int, avail: real, when: real): Sched {
    var fs := FollowersOf(st, disk);
    st.(avail := avail,
        events := st.events + FollowerEvents(st.disks, fs, SortedKeys(fs.Keys), UploadTotal(fs), st.avail, when),
        inRepair := st.inRepair - {disk})
  }

  function FollowUp(cfg: Config, st: Sched, disk: int, t: real): Sched {
    if st.avail == 0.0 then Park(st, disk, t)
    else FollowFinish(st, disk, Claimed(cfg, st), t + RepairTime(cfg, UploadTotal(FollowersOf(st, disk)), st.avail))
  }

  // ---------------------------------------------------------------------
  // SetDiskFail and the admission dispatch.

  /** The disk's next failure: one lifetime is drawn, and the event is
      queued only when it falls within the mission. */
  function DrawFail(cfg: Config, st: Sched, disk: int, t: real): Sched {
    var when := cfg.lifetime(st.draws) + t;
    var st1 := st.(draws := st.draws + 1);
    if when <= cfg.missionTime then st1.(events := st1.events + [Event(when, DiskFail, disk, 0.0)]) else st1
  }

  function Admit(cfg: Config, lay: Layout, st: Sched, disk: int, t: real): Sched
    requires ConfigOk(cfg)
  {
    if cfg.lazy then LazyRepair(cfg, lay, st, disk, t) else EagerRepair(cfg, lay, st, disk, t)
  }

  // ---------------------------------------------------------------------
  // Batches (GetNextEvent after the gather).

  /** The batch: time and kind of the earliest event, the disks of all the
      gathered events, and their shares when the network is modelled. */
  datatype Batch = Batch(time: real, kind: EventKind, ids: seq<int>, shares: seq<real>)

  function ShareOf(cfg: Config, e: Event): seq<real> {
    if cfg.useNetwork && IsRepairKind(e.kind) then [e.share] else []
  }

  /** Pops the events at the top that have the batch's time and kind. */
  function Gather(cfg: Config, q: seq<Event>, b: Batch): (r: (seq<Event>, Batch))
    ensures |r.0| == 0 || Top(r.0).time != b.time || Top(r.0).kind != b.kind
    ensures r.1.time == b.time && r.1.kind == b.kind
    ensures |r.1.ids| == |b.ids| + |q| - |r.0| && |r.0| <= |q|
    decreases |q|
  {
    if |q| > 0 && Top(q).time == b.time && Top(q).kind == b.kind then
      var e := Top(q);
      Gather(cfg, Pop(q), b.(ids := b.ids + [e.disk], shares := b.shares + ShareOf(cfg, e)))
    else (q, b)
  }

  function FailAll(disks: seq<Clocks>, ids: seq<int>, t: real): (r: seq<Clocks>)
    ensures |r| == |disks|
  {
    if |ids| == 0 then disks
    else
      var ds := FailAll(disks, ids[..|ids| - 1], t);
      var d := ids[|ids| - 1];
      if 0 <= d < |ds| && ds[d].state != Crashed then ds[d := Failed(ds[d], t)] else ds
  }

  function AdmitAll(cfg: Config, lay: Layout, st: Sched, ids: seq<int>, t: real): Sched
    requires ConfigOk(cfg)
  {
    if |ids| == 0 then st
    else Admit(cfg, lay, AdmitAll(cfg, lay, st, ids[..|ids| - 1], t), ids[|ids| - 1], t)
  }

  /** Each crashed disk of the batch is repaired and, without a trace, gets
      its next failure drawn. */
  function RepairAll(cfg: Config, st: Sched, ids: seq<int>, t: real): Sched {
    if |ids| == 0 then st
    else RepairOne(cfg, RepairAll(cfg, st, ids[..|ids| - 1], t), ids[|ids| - 1], t)
  }

  /** One disk of the batch: repaired and, without a trace, given its next
      failure when it is Crashed; left alone otherwise. */
  function RepairOne(cfg: Config, s: Sched, d: int, t: real): Sched {
    if StateOf(s.disks, d) == Crashed then
      var s1 := s.(disks := s.disks[d := Repaired(s.disks[d], t)]);
      if cfg.useTrace then s1 else DrawFail(cfg, s1, d, t)
    else s
  }

  /** The shares are handed back one at a time through the range-checked setter. */
  function ReturnShares(maxCross: real, avail: real, shares: seq<real>): real {
    if |shares| == 0 then avail
    else
      var a := ReturnShares(maxCross, avail, shares[..|shares| - 1]);
      CrossUpdated(maxCross, a, a + shares[|shares| - 1])
  }

  function FollowUpAll(cfg: Config, st: Sched, ids: seq<int>, t: real): Sched {
    if |ids| == 0 then st
    else
      var s := FollowUpAll(cfg, st, ids[..|ids| - 1], t);
      if ids[|ids| - 1] in s.inRepair then FollowUp(cfg, s, ids[|ids| - 1], t) else s
  }

  /** The DiskReplacement branch as written: a disk that is not Normal is
      admitted eagerly in lazy mode and lazily in eager mode. */
  function ReplaceAll(cfg: Config, lay: Layout, st: Sched, ids: seq<int>, t: real): Sched
    requires ConfigOk(cfg)
  {
    if |ids| == 0 then st
    else
      var s := ReplaceAll(cfg, lay, st, ids[..|ids| - 1], t);
      var d := ids[|ids| - 1];
      if StateOf(s.disks, d) != Normal then Replaced(cfg, lay, s, d, t) else s
  }

  /** One disk of a DiskReplacement batch: eager in lazy mode, lazy in eager mode. */
  function Replaced(cfg: Config, lay: Layout, st: Sched, disk: int, t: real): Sched
    requires ConfigOk(cfg)
  {
    if cfg.lazy then EagerRepair(cfg, lay, st, disk, t) else LazyRepair(cfg, lay, st, disk, t)
  }

  /** The state after a batch, and whether its kind is one GetNextEvent handles. */
  function HandleBatch(cfg: Config, lay: Layout, st: Sched, b: Batch): (Sched, bool)
    requires ConfigOk(cfg)
  {
    match b.kind
    case DiskFail =>
      (AdmitAll(cfg, lay, st.(disks := FailAll(st.disks, b.ids, b.time)), b.ids, b.time), true)
    case DiskRepair =>
      var s1 := RepairAll(cfg, st, b.ids, b.time);
      if !cfg.useNetwork then (s1, true)
      else
        var s2 := s1.(avail := ReturnShares(cfg.maxCross, s1.avail, b.shares));
        (if cfg.lazy then FollowUpAll(cfg, s2, b.ids, b.time) else s2, true)
    case ChunkRepair => (st.(avail := ReturnShares(cfg.maxCross, st.avail, b.shares)), true)
    case DiskReplacement => (ReplaceAll(cfg, lay, st, b.ids, b.time), true)
    case Unlabelled => (st, false)
  }

  // ---------------------------------------------------------------------
  // GetNextEvent.

  function RackOfWaiting(cfg: Config, d: int): int
    requires ConfigOk(cfg)
  {
    d / cfg.nodesPerRack / cfg.disksPerNode
  }

  /** The top waiting request is admitted again when the network is modelled
      and both the cross-rack and its rack's intra-rack bandwidth are nonzero. */
  function Reissue(cfg: Config, lay: Layout, st: Sched, curr: real): Sched
    requires ConfigOk(cfg)
  {
    if |st.waiting| == 0 then st
    else
      var e := Top(st.waiting);
      if cfg.useNetwork && st.avail != 0.0 && cfg.intra != 0.0 then
        Admit(cfg, lay, st.(waiting := Pop(st.waiting)), e.disk, curr)
      else st
  }

  /** The outcome of GetNextEvent: the new state and the handled batch, or
      None where the source returns false. */
  datatype Step = Step(st: Sched, batch: Option<Batch>)

  function NextEvent(cfg: Config, lay: Layout, st: Sched, curr: real): (r: Step)
    requires ConfigOk(cfg)
    ensures r.batch.Some? ==> r.batch.value.time <= cfg.missionTime
  {
    Pick(cfg, lay, Reissue(cfg, lay, st, curr))
  }

  /** GetNextEvent after the reissue: the earliest event is popped, and
      nothing is found when the queue is empty. */
  function Pick(cfg: Config, lay: Layout, s1: Sched): (r: Step)
    requires ConfigOk(cfg)
    ensures r.batch.Some? ==> r.batch.value.time <= cfg.missionTime
  {
    if |s1.events| == 0 then Step(s1, None)
    else Take(cfg, lay, s1.(events := Pop(s1.events)), Top(s1.events))
  }

  /** GetNextEvent once the earliest event `e` is popped, leaving `s2`:
      nothing is found when it is past the mission; otherwise the batch is
      gathered and handled. */
  function Take(cfg: Config, lay: Layout, s2: Sched, e: Event): (r: Step)
    requires ConfigOk(cfg)
    ensures r.batch.Some? ==> r.batch.value.time <= cfg.missionTime
  {
    if e.time > cfg.missionTime then Step(s2, None)
    else
      var g := Gather(cfg, s2.events, Batch(e.time, e.kind, [e.disk], ShareOf(cfg, e)));
      var h := HandleBatch(cfg, lay, s2.(events := g.0), g.1);
      Step(h.0, if h.1 then Some(g.1) else None)
  }

  // ---------------------------------------------------------------------
  // RunIteration.

  /** The loss check after a DiskFail batch: the pending map in lazy mode,
      the failed list in eager mode. */
  function LossCheck(cfg: Config, lay: Layout, pending: map<int, seq<int>>, failed: set<int>): Placements.Tally
    requires LayoutOk(cfg, lay)
  {
    if cfg.lazy then Placements.LossTally(cfg.code, lay.locs, pending, |lay.locs|)
    else
      var fl := FailedList(failed, NumDisks(cfg));
      FailedListSpec(failed, NumDisks(cfg));
      assert forall i :: 0 <= i < |fl| ==> fl[i] in fl;
      Placements.LossTally(cfg.code, lay.locs, Placements.UniformFailed(Placements.Touched(lay.perDisk, fl), fl), |lay.locs|)
  }

  /** An iteration in progress: the scheduler, the state's failed bitmap,
      the last counts the loss check wrote, and the current time. */
  datatype Progress = Progress(sched: Sched, failed: set<int>, tally: Option<Placements.Tally>, curr: real)

  /** How an iteration ends: the event loop stops (Quiet), a loss check
      fires (Loss), or the step budget runs out (Exhausted). */
  datatype Ending = Quiet | Loss | Exhausted

  /** The event loop of RunIteration, at most `fuel` turns of it. */
  function Iterate(cfg: Config, lay: Layout, p: Progress, fuel: nat): (Progress, Ending)
    requires ConfigOk(cfg) && LayoutOk(cfg, lay)
    decreases fuel, 1
  {
    if fuel == 0 then (p, Exhausted)
    else Advance(cfg, lay, p, fuel - 1)
  }

  /** One turn of the loop, `fuel` turns left after it. Kept apart from
      Proceed, which does the turn, so that unfolding Iterate twice (as the
      verifier does for an asserted fact) stops short of NextEvent; proofs
      about the loop then stay small. */
  function Advance(cfg: Config, lay: Layout, p: Progress, fuel: nat): (Progress, Ending)
    requires ConfigOk(cfg) && LayoutOk(cfg, lay)
    decreases fuel, 3
  {
    Proceed(cfg, lay, p, fuel)
  }

  /** The turn: GetNextEvent, then stop when it found nothing or the batch
      is past the mission, otherwise update the failed bitmap, run the loss
      check after a failure batch, and stop on a loss. */
  function Proceed(cfg: Config, lay: Layout, p: Progress, fuel: nat): (Progress, Ending)
    requires ConfigOk(cfg) && LayoutOk(cfg, lay)
    decreases fuel, 2
  {
    var step := NextEvent(cfg, lay, p.sched, p.curr);
    match step.batch
    case None => (p.(sched := step.st), Quiet)
    case Some(b) =>
      if b.time > cfg.missionTime then (p.(sched := step.st), Quiet)
      else
        var failed := BitsAfter(p.failed, b.kind, b.ids);
        var p1 := Progress(step.st, failed,
                           if b.kind == DiskFail then Some(LossCheck(cfg, lay, step.st.pending, failed)) else p.tally,
                           b.time);
        if b.kind == DiskFail && p1.tally.value.stripes > 0 then (p1, Loss)
        else Iterate(cfg, lay, p1, fuel)
  }

  // ---------------------------------------------------------------------
  // Reset (the seeding).

  /** A disk as Reset builds it: constructed, clock initialised at 0, Normal. */
  function Pristine(): Clocks {
    ClockInitialised(Fresh(), 0.0).(state := Normal)
  }

  /** Reset's disks: one Pristine disk per id. */
  function PristineDisks(n: nat): (r: seq<Clocks>)
    ensures |r| == n && forall d :: 0 <= d < n ==> r[d] == Pristine()
  {
    seq(n, _ => Pristine())
  }

  /** The trace entries within the mission, as DiskFail events in trace order. */
  function SeedTrace(trace: seq<FailedDisk>, mission: real): seq<Event> {
    if |trace| == 0 then []
    else
      var x := trace[|trace| - 1];
      SeedTrace(trace[..|trace| - 1], mission)
      + (if x.failTime <= mission then [Event(x.failTime, DiskFail, x.diskId, 0.0)] else [])
  }

  /** One lifetime per disk, drawn in disk order from position `from`; the
      draws within the mission become DiskFail events. */
  function SeedDraws(lifetime: nat -> real, from: nat, n: nat, mission: real): seq<Event> {
    if n == 0 then []
    else
      SeedDraws(lifetime, from, n - 1, mission)
      + (if lifetime(from + n - 1) <= mission then [Event(lifetime(from + n - 1), DiskFail, n - 1, 0.0)] else [])
  }

  /** The scheduler as Reset leaves it, given the disks it builds. */
  function Seeded(cfg: Config, trace: seq<FailedDisk>, disks: seq<Clocks>, draws: nat): Sched
    requires ConfigOk(cfg)
  {
    var n := NumDisks(cfg);
    Sched(if cfg.useTrace then SeedTrace(trace, cfg.missionTime) else SeedDraws(cfg.lifetime, draws, n, cfg.missionTime),
          [], map[], map[], disks, cfg.maxCross,
          if cfg.useTrace then draws else draws + n)
  }
}
