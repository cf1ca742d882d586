// Properties of repair admission and batch handling in
// simulator/libc/simulation.cpp, stated over the functions of Scheduling:
// what a repair request claims and queues, how the lazy bookkeeping records
// bad disks and followers, what a batch does to the disks and the bandwidth,
// and when an iteration ends in a loss.
module Admission {
  import opened Events
  import opened Disks
  import opened StripeRules
  import opened Networks
  import opened Scheduling
  import opened Invariants
  import Placements
  import Simulations
  import SystemStates

  // ---------------------------------------------------------------------
  // Claiming bandwidth.

  /** With no cross-rack bandwidth available, each of the three repair
      paths only parks the request on the wait queue. */
  lemma NoBandwidthOnlyParks(cfg: Config, lay: Layout, st: Sched, disk: int, t: real)
    requires ConfigOk(cfg) && st.avail == 0.0
    ensures var parked := st.(waiting := st.waiting + [Event(t, Unlabelled, disk, 0.0)]);
            EagerRepair(cfg, lay, st, disk, t) == parked
            && LazyRepair(cfg, lay, st, disk, t) == parked
            && FollowUp(cfg, st, disk, t) == parked
  {
  }

  /** An eager repair whose scan passes every stripe claims the whole
      available bandwidth and queues one DiskRepair event carrying it, due
      once the download has crossed racks at that bandwidth. */
  lemma EagerSchedules(cfg: Config, lay: Layout, st: Sched, disk: int, t: real, download: int)
    requires ConfigOk(cfg) && 0.0 <= cfg.maxCross && st.avail != 0.0
    requires EagerDownload(cfg, lay, st.disks, disk, StripesOf(lay, disk)) == Some(download)
    ensures var r := EagerRepair(cfg, lay, st, disk, t);
            r.avail == 0.0
            && r.events == st.events + [Event(t + RepairTime(cfg, download, st.avail), DiskRepair, disk, st.avail)]
            && r.waiting == st.waiting && r.pending == st.pending && r.inRepair == st.inRepair
            && r.disks == st.disks && r.draws == st.draws
  {
    ClaimTakesAll(cfg, st);
  }

  /** The claim leaves no bandwidth behind. */
  lemma ClaimTakesAll(cfg: Config, st: Sched)
    requires 0.0 <= cfg.maxCross
    ensures Claimed(cfg, st) == 0.0
  {
  }

  /** A stripe of the disk beyond its tolerance with other than one bad
      chunk makes the eager repair return at once: nothing is claimed and
      nothing queued, whatever the other stripes hold. */
  lemma EagerStopsAtLostStripe(cfg: Config, lay: Layout, st: Sched, disk: int, t: real, i: int)
    requires ConfigOk(cfg) && st.avail != 0.0
    requires 0 <= i < |StripesOf(lay, disk)|
    requires EagerStripe(cfg, lay, st.disks, disk, StripesOf(lay, disk)[i]).None?
    ensures EagerRepair(cfg, lay, st, disk, t) == st
  {
    EagerScanStops(cfg, lay, st.disks, disk, StripesOf(lay, disk), i);
  }

  /** The eager scan yields None as soon as one stripe does. */
  lemma EagerScanStops(cfg: Config, lay: Layout, disks: seq<Clocks>, disk: int, stripes: seq<int>, i: int)
    requires ConfigOk(cfg) && 0 <= i < |stripes|
    requires EagerStripe(cfg, lay, disks, disk, stripes[i]).None?
    ensures EagerDownload(cfg, lay, disks, disk, stripes).None?
  {
    var pre := stripes[..i + 1];
    assert pre[..i] == stripes[..i] && pre[i] == stripes[i];
    assert EagerDownload(cfg, lay, disks, disk, pre)
           == EagerAdd(EagerDownload(cfg, lay, disks, disk, stripes[..i]), None);
    Simulations.EagerNoneSticks(cfg, lay, disks, disk, stripes, i + 1);
  }

  /** A lazy repair claims bandwidth only when its scan completes with
      something to download; otherwise only the pending map changes. */
  lemma LazyClaimsOnlyWithDownload(cfg: Config, lay: Layout, st: Sched, disk: int, t: real)
    requires ConfigOk(cfg) && 0.0 <= cfg.maxCross && st.avail != 0.0
    ensures var a := LazyScanOf(cfg, lay, st, disk);
            var r := LazyRepair(cfg, lay, st, disk, t);
            if a.aborted || a.download <= 0 then r == st.(pending := a.pending)
            else r.avail == 0.0 && r.pending == a.pending && r.inRepair == st.inRepair[disk := a.followers]
                 && r.events == st.events + [Event(t + RepairTime(cfg, a.download, st.avail), DiskRepair, disk, st.avail)]
                 && r.waiting == st.waiting && r.disks == st.disks
  {
  }

  /** Once a stripe is beyond its tolerance the lazy scan returns: the
      outcome is what that stripe left, the later stripes are not looked at. */
  lemma LazyStopsAtLostStripe(cfg: Config, lay: Layout, disks: seq<Clocks>, disk: int, acc: LazyAcc, stripes: seq<int>, i: nat)
    requires ConfigOk(cfg) && i < |stripes|
    requires !LazyFold(cfg, lay, disks, disk, acc, stripes[..i]).aborted
    requires LazyStripe(cfg, lay, disks, disk, LazyFold(cfg, lay, disks, disk, acc, stripes[..i]), stripes[i]).aborted
    ensures LazyFold(cfg, lay, disks, disk, acc, stripes)
            == LazyStripe(cfg, lay, disks, disk, LazyFold(cfg, lay, disks, disk, acc, stripes[..i]), stripes[i])
  {
    Simulations.LazyFoldStep(cfg, lay, disks, disk, acc, stripes, i);
    Simulations.LazyAbortSticks(cfg, lay, disks, disk, acc, stripes, i + 1);
  }

  // ---------------------------------------------------------------------
  // The lazy bookkeeping.

  /** Merging keeps the entry as a prefix, adds exactly the missing disks,
      and never creates a duplicate. */
  lemma {:induction false} MergeNoDupSpec(xs: seq<int>, ds: seq<int>)
    ensures |MergeNoDup(xs, ds)| >= |xs| && MergeNoDup(xs, ds)[..|xs|] == xs
    ensures forall x :: x in MergeNoDup(xs, ds) <==> x in xs || x in ds
    ensures Placements.Distinct(xs) ==> Placements.Distinct(MergeNoDup(xs, ds))
  {
    if |ds| > 0 {
      var front := ds[..|ds| - 1];
      var last := ds[|ds| - 1];
      MergeNoDupSpec(xs, front);
      var m := MergeNoDup(xs, front);
      assert ds == front + [last];
      if last !in m {
        assert (m + [last])[..|xs|] == m[..|xs|];
      }
    }
  }

  /** Recording bad disks for stripe s: afterwards s has an entry holding
      its old disks (first, in order) and the new ones; every other entry is
      as it was. */
  lemma RecordSpec(pending: map<int, seq<int>>, s: int, ds: seq<int>)
    ensures Record(pending, s, ds).Keys == pending.Keys + {s}
    ensures forall x :: x in Record(pending, s, ds)[s] <==> (s in pending && x in pending[s]) || x in ds
    ensures s in pending ==> |Record(pending, s, ds)[s]| >= |pending[s]| && Record(pending, s, ds)[s][..|pending[s]|] == pending[s]
    ensures forall s' :: s' in pending && s' != s ==> Record(pending, s, ds)[s'] == pending[s']
  {
    if s in pending {
      MergeNoDupSpec(pending[s], ds);
    }
  }

  /** Every bad disk other than the repairing one records the stripe among
      those it follows the repair in; the repairing disk is never a follower
      of its own repair. */
  lemma {:induction false} AddFollowersSpec(fs: map<int, seq<int>>, ds: seq<int>, leader: int, s: int)
    ensures AddFollowers(fs, ds, leader, s).Keys == fs.Keys + (set d | d in ds && d != leader)
    ensures forall d :: d in ds && d != leader ==> s in AddFollowers(fs, ds, leader, s)[d]
    ensures leader !in fs ==> leader !in AddFollowers(fs, ds, leader, s)
  {
    if |ds| > 0 {
      var front := ds[..|ds| - 1];
      var last := ds[|ds| - 1];
      AddFollowersSpec(fs, front, leader, s);
      assert ds == front + [last];
      assert forall d :: d in ds <==> d in front || d == last;
    }
  }

  // ---------------------------------------------------------------------
  // Follow-up repair.

  /** The follow-up event of the i-th follower in ascending id order: at the
      common time, DiskRepair unless the follower is Normal, carrying its
      part of the upload. */
  lemma {:induction false} FollowerEventsAt(disks: seq<Clocks>, fs: map<int, seq<int>>, keys: seq<int>, total: nat,
                                            bw: real, when: real, i: int)
    requires 0 <= i < |keys|
    ensures FollowerEvents(disks, fs, keys, total, bw, when)[i]
            == Event(when, if StateOf(disks, keys[i]) != Normal then DiskRepair else ChunkRepair, keys[i],
                     Share(if keys[i] in fs then |fs[keys[i]]| else 0, total, bw))
  {
    if i < |keys| - 1 {
      FollowerEventsAt(disks, fs, keys[..|keys| - 1], total, bw, when, i);
      assert keys[..|keys| - 1][i] == keys[i];
    }
  }

  /** A follow-up repair with bandwidth available appends one event per
      follower after the queued events and clears the disk's followers. */
  lemma FollowUpEvents(cfg: Config, st: Sched, disk: int, t: real, i: int)
    requires st.avail != 0.0
    requires 0 <= i < |SortedKeys(FollowersOf(st, disk).Keys)|
    ensures var fs := FollowersOf(st, disk);
            var keys := SortedKeys(fs.Keys);
            var r := FollowUp(cfg, st, disk, t);
            |r.events| == |st.events| + |keys| && r.events[..|st.events|] == st.events
            && disk !in r.inRepair
            && r.events[|st.events| + i]
               == Event(t + RepairTime(cfg, UploadTotal(fs), st.avail),
                        if StateOf(st.disks, keys[i]) != Normal then DiskRepair else ChunkRepair, keys[i],
                        Share(|fs[keys[i]]|, UploadTotal(fs), st.avail))
  {
    var fs := FollowersOf(st, disk);
    var keys := SortedKeys(fs.Keys);
    var evs := FollowerEvents(st.disks, fs, keys, UploadTotal(fs), st.avail, t + RepairTime(cfg, UploadTotal(fs), st.avail));
    FollowUpIs(cfg, st, disk, t);
    FollowerEventsAt(st.disks, fs, keys, UploadTotal(fs), st.avail, t + RepairTime(cfg, UploadTotal(fs), st.avail), i);
    assert keys[i] in keys;
    assert (st.events + evs)[|st.events| + i] == evs[i];
  }

  // ---------------------------------------------------------------------
  // Batches.

  /** A DiskFail batch fails each listed disk that is not yet Crashed, once,
      and leaves every other disk as it was. */
  lemma {:induction false} FailAllSpec(disks: seq<Clocks>, ids: seq<int>, t: real, d: int)
    requires 0 <= d < |disks|
    ensures d in ids ==> FailAll(disks, ids, t)[d].state == Crashed
    ensures d in ids && disks[d].state != Crashed ==> FailAll(disks, ids, t)[d] == Failed(disks[d], t)
    ensures d !in ids || disks[d].state == Crashed ==> FailAll(disks, ids, t)[d] == disks[d]
  {
    if |ids| > 0 {
      var front := ids[..|ids| - 1];
      FailAllSpec(disks, front, t, d);
      assert ids == front + [ids[|ids| - 1]];
    }
  }

  /** Handing back shares that fit under the maximum adds every one of them. */
  lemma {:induction false} ReturnSharesAddsAll(maxCross: real, avail: real, shares: seq<real>)
    requires 0.0 <= avail && NonNeg(shares) && avail + Sum(shares) <= maxCross
    ensures ReturnShares(maxCross, avail, shares) == avail + Sum(shares)
  {
    if |shares| > 0 {
      var front := shares[..|shares| - 1];
      assert NonNeg(front);
      SumNonNeg(front);
      ReturnSharesAddsAll(maxCross, avail, front);
    }
  }

  /** A ChunkRepair batch hands back exactly the shares it carries and
      changes nothing else. */
  lemma ChunkRepairReturnsShares(cfg: Config, lay: Layout, st: Sched, b: Batch)
    requires ConfigOk(cfg) && b.kind == ChunkRepair
    requires 0.0 <= st.avail && NonNeg(b.shares) && st.avail + Sum(b.shares) <= cfg.maxCross
    ensures HandleBatch(cfg, lay, st, b) == (st.(avail := st.avail + Sum(b.shares)), true)
  {
    ReturnSharesAddsAll(cfg.maxCross, st.avail, b.shares);
  }

  /** Repairing the disks of a batch never touches the bandwidth. */
  lemma {:induction false} RepairAllKeepsAvail(cfg: Config, st: Sched, ids: seq<int>, t: real)
    ensures RepairAll(cfg, st, ids, t).avail == st.avail
  {
    if |ids| > 0 {
      RepairAllKeepsAvail(cfg, st, ids[..|ids| - 1], t);
    }
  }

  /** Without the network model gathering adds no share to the batch. */
  lemma {:induction false} GatherNoShares(cfg: Config, q: seq<Event>, b: Batch)
    requires !cfg.useNetwork
    ensures Gather(cfg, q, b).1.shares == b.shares
    decreases |q|
  {
    if |q| > 0 && Top(q).time == b.time && Top(q).kind == b.kind {
      var b' := b.(ids := b.ids + [Top(q).disk], shares := b.shares + ShareOf(cfg, Top(q)));
      assert b'.shares == b.shares;
      GatherNoShares(cfg, Pop(q), b');
    }
  }

  /** Without the network model a waiting request is never admitted again. */
  lemma NoNetworkNoReissue(cfg: Config, lay: Layout, st: Sched, curr: real)
    requires ConfigOk(cfg) && !cfg.useNetwork
    ensures Reissue(cfg, lay, st, curr) == st
  {
  }

  /** Without the network model every batch GetNextEvent handles carries no
      share. */
  lemma NextEventNoShares(cfg: Config, lay: Layout, st: Sched, curr: real)
    requires ConfigOk(cfg) && !cfg.useNetwork
    ensures var r := NextEvent(cfg, lay, st, curr);
            r.batch.Some? ==> r.batch.value.shares == []
  {
    NoNetworkNoReissue(cfg, lay, st, curr);
    if |st.events| > 0 {
      var e := Top(st.events);
      GatherNoShares(cfg, Pop(st.events), Batch(e.time, e.kind, [e.disk], ShareOf(cfg, e)));
    }
  }

  /** Without the network model a repair batch hands nothing back: the
      bandwidth a repair claimed stays claimed. */
  lemma NoNetworkReturnsNothing(cfg: Config, lay: Layout, st: Sched, curr: real)
    requires ConfigOk(cfg) && !cfg.useNetwork
    ensures var r := NextEvent(cfg, lay, st, curr);
            r.batch.Some? && IsRepairKind(r.batch.value.kind) ==> r.st.avail == st.avail
  {
    NoNetworkNoReissue(cfg, lay, st, curr);
    NextEventNoShares(cfg, lay, st, curr);
    var r := NextEvent(cfg, lay, st, curr);
    if r.batch.Some? && IsRepairKind(r.batch.value.kind) {
      var e := Top(st.events);
      var s2 := st.(events := Pop(st.events));
      var g := Gather(cfg, s2.events, Batch(e.time, e.kind, [e.disk], ShareOf(cfg, e)));
      assert r == Take(cfg, lay, s2, e);
      assert g.1 == r.batch.value;
      RepairAllKeepsAvail(cfg, s2.(events := g.0), g.1.ids, g.1.time);
    }
  }

  /** Some event of q is for disk d, at the given time and of the given kind. */
  ghost predicate Queued(q: seq<Event>, time: real, kind: EventKind, d: int) {
    exists e :: e in q && e.disk == d && e.time == time && e.kind == kind
  }

  lemma QueuedAfterPop(q: seq<Event>, time: real, kind: EventKind, d: int)
    requires |q| > 0 && Queued(Pop(q), time, kind, d)
    ensures Queued(q, time, kind, d)
  {
    PopSubset(q);
  }

  /** Gathering keeps the ids already taken and adds, one per popped event,
      the disks of events with the batch's time and kind. */
  lemma {:induction false} GatherTakesMatching(cfg: Config, q: seq<Event>, b: Batch)
    ensures var r := Gather(cfg, q, b);
            |r.1.ids| >= |b.ids| && r.1.ids[..|b.ids|] == b.ids
            && forall i :: |b.ids| <= i < |r.1.ids| ==> Queued(q, b.time, b.kind, r.1.ids[i])
    decreases |q|
  {
    if |q| > 0 && Top(q).time == b.time && Top(q).kind == b.kind {
      var e := Top(q);
      var b' := b.(ids := b.ids + [e.disk], shares := b.shares + ShareOf(cfg, e));
      var r := Gather(cfg, Pop(q), b');
      assert Gather(cfg, q, b) == r;
      GatherTakesMatching(cfg, Pop(q), b');
      assert r.1.ids[..|b.ids|] == b'.ids[..|b.ids|] == b.ids;
      forall i | |b.ids| <= i < |r.1.ids|
        ensures Queued(q, b.time, b.kind, r.1.ids[i])
      {
        if i == |b.ids| {
          assert r.1.ids[i] == b'.ids[i] == e.disk;
        } else {
          QueuedAfterPop(q, b.time, b.kind, r.1.ids[i]);
        }
      }
    }
  }

  // ---------------------------------------------------------------------
  // The end of an iteration.

  /** An iteration ends in a loss only right after a DiskFail batch whose
      loss check counted a lost stripe. */
  lemma {:induction false} LossMeansCountedStripe(cfg: Config, lay: Layout, p: Progress, fuel: nat)
    requires ConfigOk(cfg) && LayoutOk(cfg, lay)
    ensures var r := Iterate(cfg, lay, p, fuel);
            r.1 == Loss ==> r.0.tally.Some? && r.0.tally.value.stripes > 0
    decreases fuel
  {
    if fuel > 0 {
      var step := NextEvent(cfg, lay, p.sched, p.curr);
      assert Iterate(cfg, lay, p, fuel) == Proceed(cfg, lay, p, fuel - 1);
      if step.batch.Some? && step.batch.value.time <= cfg.missionTime {
        var b := step.batch.value;
        var failed := SystemStates.BitsAfter(p.failed, b.kind, b.ids);
        var p1 := Progress(step.st, failed,
                           if b.kind == DiskFail then Some(LossCheck(cfg, lay, step.st.pending, failed)) else p.tally,
                           b.time);
        LossMeansCountedStripe(cfg, lay, p1, fuel - 1);
      }
    }
  }
}
