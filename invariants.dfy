// What the scheduler of simulator/libc/simulation.cpp keeps true from one
// event to the next. The central one is the bandwidth budget: the available
// cross-rack bandwidth plus the shares carried by the queued repair events
// never exceeds the configured maximum, because every claim is carried by the
// event it schedules and a batch hands back at most what its events carried.
// Beside it: every queued or waiting event names a disk of the cluster, no
// DiskReplacement or unlabelled event is ever queued, every pending stripe
// exists, and every follower list is non-empty.
module Invariants {
  import opened Events
  import opened Disks
  import opened StripeRules
  import opened Networks
  import opened SystemStates
  import opened Scheduling
  import Placements
  import opened Traces

  /** The bandwidth an event carries back when it fires. */
  function Claim(e: Event): real {
    if IsRepairKind(e.kind) then e.share else 0.0
  }

  function InFlight(q: seq<Event>): real {
    if |q| == 0 then 0.0 else InFlight(q[..|q| - 1]) + Claim(q[|q| - 1])
  }

  function Sum(xs: seq<real>): real {
    if |xs| == 0 then 0.0 else Sum(xs[..|xs| - 1]) + xs[|xs| - 1]
  }

  predicate NonNeg(xs: seq<real>) {
    forall i :: 0 <= i < |xs| ==> 0.0 <= xs[i]
  }

  /** The available bandwidth plus what the queued events carry. */
  function Budget(st: Sched): real {
    st.avail + InFlight(st.events)
  }

  // ---------------------------------------------------------------------
  // The invariant.

  predicate EventOk(cfg: Config, e: Event) {
    0 <= e.disk < NumDisks(cfg)
    && e.kind != DiskReplacement && e.kind != Unlabelled
    && (IsRepairKind(e.kind) ==> 0.0 <= e.share)
  }

  predicate QueueOk(cfg: Config, q: seq<Event>) {
    forall e :: e in q ==> EventOk(cfg, e)
  }

  predicate WaitOk(cfg: Config, q: seq<Event>) {
    forall e :: e in q ==> 0 <= e.disk < NumDisks(cfg)
  }

  predicate PendingOk(lay: Layout, pending: map<int, seq<int>>) {
    forall s :: s in pending ==> 0 <= s < |lay.locs|
  }

  predicate FollowersOk(cfg: Config, fs: map<int, seq<int>>) {
    forall f :: f in fs ==> 0 <= f < NumDisks(cfg) && |fs[f]| > 0
  }

  predicate RepairOk(cfg: Config, m: map<int, map<int, seq<int>>>) {
    forall d :: d in m ==> 0 <= d < NumDisks(cfg) && FollowersOk(cfg, m[d])
  }

  /** Everything but the budget. */
  predicate Structured(cfg: Config, lay: Layout, st: Sched) {
    |st.disks| == NumDisks(cfg)
    && QueueOk(cfg, st.events) && WaitOk(cfg, st.waiting)
    && PendingOk(lay, st.pending) && RepairOk(cfg, st.inRepair)
  }

  /** The budget is at most `budget`, itself at most the maximum. */
  predicate Within(cfg: Config, st: Sched, budget: real) {
    0.0 <= st.avail && Budget(st) <= budget <= cfg.maxCross
  }

  predicate Inv(cfg: Config, lay: Layout, st: Sched) {
    Structured(cfg, lay, st) && Within(cfg, st, cfg.maxCross)
  }

  // ---------------------------------------------------------------------
  // Sums.

  lemma {:induction false} InFlightAppend(a: seq<Event>, b: seq<Event>)
    ensures InFlight(a + b) == InFlight(a) + InFlight(b)
    decreases |b|
  {
    if |b| == 0 {
      assert a + b == a;
    } else {
      InFlightAppend(a, b[..|b| - 1]);
      assert (a + b)[..|a + b| - 1] == a + b[..|b| - 1];
    }
  }

  lemma InFlightPush(q: seq<Event>, e: Event)
    ensures InFlight(q + [e]) == InFlight(q) + Claim(e)
  {
    assert (q + [e])[..|q|] == q;
  }

  lemma InFlightRemove(q: seq<Event>, i: nat)
    requires i < |q|
    ensures InFlight(q) == InFlight(RemoveAt(q, i)) + Claim(q[i])
  {
    var front, back := q[..i], q[i + 1..];
    assert q == (front + [q[i]]) + back;
    assert RemoveAt(q, i) == front + back;
    InFlightAppend(front + [q[i]], back);
    InFlightPush(front, q[i]);
    InFlightAppend(front, back);
  }

  lemma InFlightPop(q: seq<Event>)
    requires |q| > 0
    ensures InFlight(q) == InFlight(Pop(q)) + Claim(Top(q))
  {
    InFlightRemove(q, TopIndex(q));
  }

  lemma PopSubset(q: seq<Event>)
    requires |q| > 0
    ensures forall x :: x in Pop(q) ==> x in q
  {
    PopCount(q);
    forall x | x in Pop(q)
      ensures x in q
    {
      assert x in multiset(Pop(q));
      assert x in multiset(q);
    }
  }

  lemma {:induction false} InFlightNonNeg(cfg: Config, q: seq<Event>)
    requires QueueOk(cfg, q)
    ensures 0.0 <= InFlight(q)
    decreases |q|
  {
    if |q| > 0 {
      assert q[|q| - 1] in q;
      assert forall x :: x in q[..|q| - 1] ==> x in q;
      InFlightNonNeg(cfg, q[..|q| - 1]);
    }
  }

  lemma {:induction false} SumAppend(a: seq<real>, b: seq<real>)
    ensures Sum(a + b) == Sum(a) + Sum(b)
    decreases |b|
  {
    if |b| == 0 {
      assert a + b == a;
    } else {
      SumAppend(a, b[..|b| - 1]);
      assert (a + b)[..|a + b| - 1] == a + b[..|b| - 1];
    }
  }

  lemma {:induction false} SumNonNeg(xs: seq<real>)
    requires NonNeg(xs)
    ensures 0.0 <= Sum(xs)
  {
    if |xs| > 0 {
      SumNonNeg(xs[..|xs| - 1]);
    }
  }

  /** Under the invariant the claim leaves exactly 0 behind. */
  lemma ClaimIsZero(cfg: Config, lay: Layout, st: Sched, budget: real)
    requires Structured(cfg, lay, st) && Within(cfg, st, budget)
    ensures Claimed(cfg, st) == 0.0
    ensures st.avail <= cfg.maxCross
  {
    InFlightNonNeg(cfg, st.events);
  }

  // ---------------------------------------------------------------------
  // Each operation keeps the structure and does not raise the budget.

  lemma ParkKeeps(cfg: Config, lay: Layout, st: Sched, disk: int, t: real, budget: real)
    requires Structured(cfg, lay, st) && Within(cfg, st, budget) && 0 <= disk < NumDisks(cfg)
    ensures Structured(cfg, lay, Park(st, disk, t)) && Within(cfg, Park(st, disk, t), budget)
  {
  }

  /** Scheduling a repair of `disk` carrying the whole available bandwidth. */
  lemma ClaimKeeps(cfg: Config, lay: Layout, st: Sched, disk: int, when: real, budget: real)
    requires Structured(cfg, lay, st) && Within(cfg, st, budget) && 0 <= disk < NumDisks(cfg)
    ensures var s := st.(avail := Claimed(cfg, st), events := st.events + [Event(when, DiskRepair, disk, st.avail)]);
            Structured(cfg, lay, s) && Within(cfg, s, budget) && Budget(s) == Budget(st)
  {
    ClaimIsZero(cfg, lay, st, budget);
    InFlightPush(st.events, Event(when, DiskRepair, disk, st.avail));
  }

  lemma EagerFinishKeeps(cfg: Config, lay: Layout, st: Sched, disk: int, t: real, r: Option<int>, budget: real)
    requires Structured(cfg, lay, st) && Within(cfg, st, budget) && 0 <= disk < NumDisks(cfg) && st.avail != 0.0
    ensures Structured(cfg, lay, EagerFinish(cfg, st, disk, t, r)) && Within(cfg, EagerFinish(cfg, st, disk, t, r), budget)
  {
    if r.Some? {
      ClaimKeeps(cfg, lay, st, disk, t + RepairTime(cfg, r.value, st.avail), budget);
    }
  }

  lemma EagerKeeps(cfg: Config, lay: Layout, st: Sched, disk: int, t: real, budget: real)
    requires ConfigOk(cfg)
    requires Structured(cfg, lay, st) && Within(cfg, st, budget) && 0 <= disk < NumDisks(cfg)
    ensures Structured(cfg, lay, EagerRepair(cfg, lay, st, disk, t)) && Within(cfg, EagerRepair(cfg, lay, st, disk, t), budget)
  {
    if st.avail != 0.0 {
      EagerFinishKeeps(cfg, lay, st, disk, t, EagerDownload(cfg, lay, st.disks, disk, StripesOf(lay, disk)), budget);
    }
  }

  lemma {:induction false} AddFollowersOk(cfg: Config, fs: map<int, seq<int>>, ds: seq<int>, leader: int, s: int)
    requires FollowersOk(cfg, fs) && IdsOk(cfg, ds)
    ensures FollowersOk(cfg, AddFollowers(fs, ds, leader, s))
  {
    if |ds| > 0 {
      AddFollowersOk(cfg, fs, ds[..|ds| - 1], leader, s);
    }
  }

  /** The bad disks of a stripe of the layout are disks of the cluster. */
  lemma BadDisksInRange(cfg: Config, lay: Layout, s: int, bad: seq<bool>)
    requires LayoutOk(cfg, lay) && |bad| == |StripeLoc(lay, s)|
    ensures IdsOk(cfg, BadDisks(StripeLoc(lay, s), bad))
  {
    var loc := StripeLoc(lay, s);
    var ds := BadDisks(loc, bad);
    forall i | 0 <= i < |ds|
      ensures 0 <= ds[i] < NumDisks(cfg)
    {
      assert ds[i] in ds;
      var p :| 0 <= p < |loc| && bad[p] && loc[p] == ds[i];
    }
  }

  lemma LazyStripeOk(cfg: Config, lay: Layout, disks: seq<Clocks>, disk: int, acc: LazyAcc, s: int)
    requires ConfigOk(cfg) && LayoutOk(cfg, lay) && 0 <= s < |lay.locs|
    requires PendingOk(lay, acc.pending) && FollowersOk(cfg, acc.followers)
    ensures PendingOk(lay, LazyStripe(cfg, lay, disks, disk, acc, s).pending)
    ensures FollowersOk(cfg, LazyStripe(cfg, lay, disks, disk, acc, s).followers)
  {
    var loc := StripeLoc(lay, s);
    var bad := PendingMask(disks, acc.pending, s, loc);
    BadDisksInRange(cfg, lay, s, bad);
    AddFollowersOk(cfg, acc.followers, BadDisks(loc, bad), disk, s);
  }

  lemma {:induction false} LazyFoldOk(cfg: Config, lay: Layout, disks: seq<Clocks>, disk: int, acc: LazyAcc, stripes: seq<int>)
    requires ConfigOk(cfg) && LayoutOk(cfg, lay)
    requires forall i :: 0 <= i < |stripes| ==> 0 <= stripes[i] < |lay.locs|
    requires PendingOk(lay, acc.pending) && FollowersOk(cfg, acc.followers)
    ensures PendingOk(lay, LazyFold(cfg, lay, disks, disk, acc, stripes).pending)
    ensures FollowersOk(cfg, LazyFold(cfg, lay, disks, disk, acc, stripes).followers)
  {
    if |stripes| > 0 {
      LazyFoldOk(cfg, lay, disks, disk, acc, stripes[..|stripes| - 1]);
      var a := LazyFold(cfg, lay, disks, disk, acc, stripes[..|stripes| - 1]);
      if !a.aborted {
        LazyStripeOk(cfg, lay, disks, disk, a, stripes[|stripes| - 1]);
      }
    }
  }

  lemma StripesOfInRange(cfg: Config, lay: Layout, d: int)
    requires LayoutOk(cfg, lay)
    ensures forall i :: 0 <= i < |StripesOf(lay, d)| ==> 0 <= StripesOf(lay, d)[i] < |lay.locs|
  {
  }

  /** The end of a lazy repair keeps the structure when the scan's pending
      map and followers do. */
  lemma LazyFinishKeeps(cfg: Config, lay: Layout, st: Sched, disk: int, t: real, a: LazyAcc, budget: real)
    requires Structured(cfg, lay, st) && Within(cfg, st, budget) && 0 <= disk < NumDisks(cfg) && st.avail != 0.0
    requires PendingOk(lay, a.pending) && FollowersOk(cfg, a.followers)
    ensures Structured(cfg, lay, LazyFinish(cfg, st, disk, t, a)) && Within(cfg, LazyFinish(cfg, st, disk, t, a), budget)
  {
    if !(a.aborted || a.download <= 0) {
      ClaimKeeps(cfg, lay, st, disk, t + RepairTime(cfg, a.download, st.avail), budget);
    }
  }

  lemma LazyKeeps(cfg: Config, lay: Layout, st: Sched, disk: int, t: real, budget: real)
    requires ConfigOk(cfg) && LayoutOk(cfg, lay)
    requires Structured(cfg, lay, st) && Within(cfg, st, budget) && 0 <= disk < NumDisks(cfg)
    ensures Structured(cfg, lay, LazyRepair(cfg, lay, st, disk, t)) && Within(cfg, LazyRepair(cfg, lay, st, disk, t), budget)
  {
    if st.avail != 0.0 {
      StripesOfInRange(cfg, lay, disk);
      LazyFoldOk(cfg, lay, st.disks, disk, LazyAcc(st.pending, map[], 0, false), StripesOf(lay, disk));
      LazyFinishKeeps(cfg, lay, st, disk, t, LazyScanOf(cfg, lay, st, disk), budget);
    }
  }

  lemma AdmitKeeps(cfg: Config, lay: Layout, st: Sched, disk: int, t: real, budget: real)
    requires ConfigOk(cfg) && LayoutOk(cfg, lay)
    requires Structured(cfg, lay, st) && Within(cfg, st, budget) && 0 <= disk < NumDisks(cfg)
    ensures Structured(cfg, lay, Admit(cfg, lay, st, disk, t)) && Within(cfg, Admit(cfg, lay, st, disk, t), budget)
  {
    if cfg.lazy {
      LazyKeeps(cfg, lay, st, disk, t, budget);
    } else {
      EagerKeeps(cfg, lay, st, disk, t, budget);
    }
  }

  // ---------------------------------------------------------------------
  // Follow-up repair: the shares add up to the claim.

  lemma ShareNonNeg(count: nat, total: nat, bw: real)
    requires 0.0 <= bw
    ensures 0.0 <= Share(count, total, bw)
  {
    if total != 0 {
      assert 0.0 <= (count as real) / (total as real);
    }
  }

  lemma {:induction false} FollowerEventsOk(cfg: Config, disks: seq<Clocks>, fs: map<int, seq<int>>, keys: seq<int>, total: nat, bw: real, when: real)
    requires 0.0 <= bw && IdsOk(cfg, keys)
    ensures QueueOk(cfg, FollowerEvents(disks, fs, keys, total, bw, when))
  {
    if |keys| > 0 {
      FollowerEventsOk(cfg, disks, fs, keys[..|keys| - 1], total, bw, when);
      var k := keys[|keys| - 1];
      ShareNonNeg(if k in fs then |fs[k]| else 0, total, bw);
    }
  }

  /** Shares add up: the share of two uploads is the sum of their shares. */
  lemma ShareAdd(a: nat, b: nat, total: nat, bw: real)
    ensures Share(a, total, bw) + Share(b, total, bw) == Share(a + b, total, bw)
  {
    if total != 0 {
      var u, c, n := a as real, b as real, total as real;
      calc {
        (u + c) / n * bw;
        (u / n + c / n) * bw;
      }
    }
  }

  /** The whole upload's share is the whole bandwidth. */
  lemma ShareWhole(total: nat, bw: real)
    requires total > 0
    ensures Share(total, total, bw) == bw
  {
  }

  lemma FollowerEventsLast(disks: seq<Clocks>, fs: map<int, seq<int>>, keys: seq<int>, total: nat, bw: real, when: real)
    requires |keys| > 0
    ensures var k := keys[|keys| - 1];
            InFlight(FollowerEvents(disks, fs, keys, total, bw, when))
            == InFlight(FollowerEvents(disks, fs, keys[..|keys| - 1], total, bw, when))
               + Share(if k in fs then |fs[k]| else 0, total, bw)
  {
    var k := keys[|keys| - 1];
    var count := if k in fs then |fs[k]| else 0;
    var front := FollowerEvents(disks, fs, keys[..|keys| - 1], total, bw, when);
    var e := Event(when, if StateOf(disks, k) != Normal then DiskRepair else ChunkRepair, k, Share(count, total, bw));
    assert FollowerEvents(disks, fs, keys, total, bw, when) == front + [e];
    InFlightPush(front, e);
  }

  /** The sum of the followers' shares, without the events around them. */
  function ShareTotal(fs: map<int, seq<int>>, keys: seq<int>, total: nat, bw: real): real {
    if |keys| == 0 then 0.0
    else
      var k := keys[|keys| - 1];
      ShareTotal(fs, keys[..|keys| - 1], total, bw) + Share(if k in fs then |fs[k]| else 0, total, bw)
  }

  lemma {:induction false} FollowerEventsCarry(disks: seq<Clocks>, fs: map<int, seq<int>>, keys: seq<int>, total: nat, bw: real, when: real)
    ensures InFlight(FollowerEvents(disks, fs, keys, total, bw, when)) == ShareTotal(fs, keys, total, bw)
  {
    if |keys| > 0 {
      FollowerEventsCarry(disks, fs, keys[..|keys| - 1], total, bw, when);
      FollowerEventsLast(disks, fs, keys, total, bw, when);
    }
  }

  lemma {:induction false} ShareTotalIs(fs: map<int, seq<int>>, keys: seq<int>, total: nat, bw: real)
    ensures ShareTotal(fs, keys, total, bw) == Share(Uploads(fs, keys), total, bw)
  {
    if |keys| > 0 {
      var front := keys[..|keys| - 1];
      var k := keys[|keys| - 1];
      var count := if k in fs then |fs[k]| else 0;
      ShareTotalIs(fs, front, total, bw);
      ShareAdd(Uploads(fs, front), count, total, bw);
    }
  }

  /** The shares of the listed followers are their part of the total. */
  lemma FollowerShares(disks: seq<Clocks>, fs: map<int, seq<int>>, keys: seq<int>, total: nat, bw: real, when: real)
    ensures InFlight(FollowerEvents(disks, fs, keys, total, bw, when)) == Share(Uploads(fs, keys), total, bw)
  {
    FollowerEventsCarry(disks, fs, keys, total, bw, when);
    ShareTotalIs(fs, keys, total, bw);
  }

  lemma {:induction false} UploadsPositive(fs: map<int, seq<int>>, keys: seq<int>, k: int)
    requires k in keys && k in fs && |fs[k]| > 0
    ensures Uploads(fs, keys) > 0
  {
    if keys[|keys| - 1] != k {
      UploadsPositive(fs, keys[..|keys| - 1], k);
    }
  }

  lemma SortedKeysOfEmpty()
    ensures SortedKeys({}) == []
  {
  }

  lemma QueueOkAppend(cfg: Config, a: seq<Event>, b: seq<Event>)
    requires QueueOk(cfg, a) && QueueOk(cfg, b)
    ensures QueueOk(cfg, a + b)
  {
  }

  /** The events scheduled for the followers of one repair are well formed
      and carry the whole of `bw` when the followers upload anything, nothing
      otherwise. */
  lemma FollowerEventsBudget(cfg: Config, disks: seq<Clocks>, fs: map<int, seq<int>>, bw: real, when: real)
    requires FollowersOk(cfg, fs) && 0.0 <= bw
    ensures var evs := FollowerEvents(disks, fs, SortedKeys(fs.Keys), UploadTotal(fs), bw, when);
            QueueOk(cfg, evs) && InFlight(evs) == (if UploadTotal(fs) > 0 then bw else 0.0)
  {
    var keys := SortedKeys(fs.Keys);
    var total := UploadTotal(fs);
    assert IdsOk(cfg, keys) by {
      forall i | 0 <= i < |keys|
        ensures 0 <= keys[i] < NumDisks(cfg)
      {
        assert keys[i] in keys;
      }
    }
    FollowerEventsOk(cfg, disks, fs, keys, total, bw, when);
    var evs := FollowerEvents(disks, fs, keys, total, bw, when);
    if |keys| > 0 {
      assert keys[0] in keys;
      UploadsPositive(fs, keys, keys[0]);
    }
    if total > 0 {
      FollowerShares(disks, fs, keys, total, bw, when);
      ShareWhole(total, bw);
    }
  }

  /** A claimed follow-up keeps the structure; its events carry the whole
      old available value when the followers upload anything, nothing
      otherwise. */
  lemma FollowFinishBudget(cfg: Config, lay: Layout, st: Sched, disk: int, avail: real, when: real)
    requires Structured(cfg, lay, st) && 0.0 <= st.avail && 0.0 <= avail
    ensures Structured(cfg, lay, FollowFinish(st, disk, avail, when))
    ensures Budget(FollowFinish(st, disk, avail, when))
            == avail + InFlight(st.events) + (if UploadTotal(FollowersOf(st, disk)) > 0 then st.avail else 0.0)
  {
    var fs := FollowersOf(st, disk);
    var evs := FollowerEvents(st.disks, fs, SortedKeys(fs.Keys), UploadTotal(fs), st.avail, when);
    FollowerEventsBudget(cfg, st.disks, fs, st.avail, when);
    QueueOkAppend(cfg, st.events, evs);
    InFlightAppend(st.events, evs);
  }

  lemma FollowUpIs(cfg: Config, st: Sched, disk: int, t: real)
    requires st.avail != 0.0
    ensures FollowUp(cfg, st, disk, t)
            == FollowFinish(st, disk, Claimed(cfg, st), t + RepairTime(cfg, UploadTotal(FollowersOf(st, disk)), st.avail))
  {
  }

  /** A follow-up admission with bandwidth: available becomes 0, and the
      events it schedules carry the whole claim when the followers upload
      anything, nothing otherwise. */
  lemma FollowUpBudget(cfg: Config, lay: Layout, st: Sched, disk: int, t: real, budget: real)
    requires Structured(cfg, lay, st) && Within(cfg, st, budget) && st.avail != 0.0
    ensures Structured(cfg, lay, FollowUp(cfg, st, disk, t))
    ensures FollowUp(cfg, st, disk, t).avail == 0.0
    ensures Budget(FollowUp(cfg, st, disk, t))
            == InFlight(st.events) + (if UploadTotal(FollowersOf(st, disk)) > 0 then st.avail else 0.0)
  {
    ClaimIsZero(cfg, lay, st, budget);
    FollowUpIs(cfg, st, disk, t);
    FollowFinishBudget(cfg, lay, st, disk, 0.0, t + RepairTime(cfg, UploadTotal(FollowersOf(st, disk)), st.avail));
  }

  lemma FollowUpKeeps(cfg: Config, lay: Layout, st: Sched, disk: int, t: real, budget: real)
    requires Structured(cfg, lay, st) && Within(cfg, st, budget) && 0 <= disk < NumDisks(cfg)
    ensures Structured(cfg, lay, FollowUp(cfg, st, disk, t)) && Within(cfg, FollowUp(cfg, st, disk, t), budget)
  {
    if st.avail != 0.0 {
      FollowUpBudget(cfg, lay, st, disk, t, budget);
    }
  }

  lemma DrawFailKeeps(cfg: Config, lay: Layout, st: Sched, disk: int, t: real, budget: real)
    requires Structured(cfg, lay, st) && Within(cfg, st, budget) && 0 <= disk < NumDisks(cfg)
    ensures Structured(cfg, lay, DrawFail(cfg, st, disk, t)) && Within(cfg, DrawFail(cfg, st, disk, t), budget)
    ensures DrawFail(cfg, st, disk, t).avail == st.avail
    ensures Budget(DrawFail(cfg, st, disk, t)) == Budget(st)
  {
    var e := Event(cfg.lifetime(st.draws) + t, DiskFail, disk, 0.0);
    if e.time <= cfg.missionTime {
      assert DrawFail(cfg, st, disk, t) == st.(draws := st.draws + 1, events := st.events + [e]);
      InFlightPush(st.events, e);
      QueueOkAppend(cfg, st.events, [e]);
    } else {
      assert DrawFail(cfg, st, disk, t) == st.(draws := st.draws + 1);
    }
  }

  // ---------------------------------------------------------------------
  // Batches.

  predicate IdsOk(cfg: Config, ids: seq<int>) {
    forall i :: 0 <= i < |ids| ==> 0 <= ids[i] < NumDisks(cfg)
  }

  lemma {:induction false} AdmitAllKeeps(cfg: Config, lay: Layout, st: Sched, ids: seq<int>, t: real, budget: real)
    requires ConfigOk(cfg) && LayoutOk(cfg, lay) && IdsOk(cfg, ids)
    requires Structured(cfg, lay, st) && Within(cfg, st, budget)
    ensures Structured(cfg, lay, AdmitAll(cfg, lay, st, ids, t)) && Within(cfg, AdmitAll(cfg, lay, st, ids, t), budget)
  {
    if |ids| > 0 {
      AdmitAllKeeps(cfg, lay, st, ids[..|ids| - 1], t, budget);
      AdmitKeeps(cfg, lay, AdmitAll(cfg, lay, st, ids[..|ids| - 1], t), ids[|ids| - 1], t, budget);
    }
  }

  lemma {:induction false} RepairAllKeeps(cfg: Config, lay: Layout, st: Sched, ids: seq<int>, t: real, budget: real)
    requires IdsOk(cfg, ids) && Structured(cfg, lay, st) && Within(cfg, st, budget)
    ensures Structured(cfg, lay, RepairAll(cfg, st, ids, t)) && Within(cfg, RepairAll(cfg, st, ids, t), budget)
    ensures RepairAll(cfg, st, ids, t).avail == st.avail
    ensures Budget(RepairAll(cfg, st, ids, t)) == Budget(st)
  {
    if |ids| > 0 {
      RepairAllKeeps(cfg, lay, st, ids[..|ids| - 1], t, budget);
      RepairOneKeeps(cfg, lay, RepairAll(cfg, st, ids[..|ids| - 1], t), ids[|ids| - 1], t, budget);
    }
  }

  lemma RepairOneKeeps(cfg: Config, lay: Layout, s: Sched, d: int, t: real, budget: real)
    requires 0 <= d < NumDisks(cfg) && Structured(cfg, lay, s) && Within(cfg, s, budget)
    ensures Structured(cfg, lay, RepairOne(cfg, s, d, t)) && Within(cfg, RepairOne(cfg, s, d, t), budget)
    ensures RepairOne(cfg, s, d, t).avail == s.avail
    ensures Budget(RepairOne(cfg, s, d, t)) == Budget(s)
  {
    if StateOf(s.disks, d) == Crashed && !cfg.useTrace {
      DrawFailKeeps(cfg, lay, s.(disks := s.disks[d := Repaired(s.disks[d], t)]), d, t, budget);
    }
  }

  lemma {:induction false} ReturnSharesBounded(maxCross: real, avail: real, shares: seq<real>)
    requires 0.0 <= avail && NonNeg(shares)
    ensures 0.0 <= ReturnShares(maxCross, avail, shares) <= avail + Sum(shares)
  {
    if |shares| > 0 {
      ReturnSharesBounded(maxCross, avail, shares[..|shares| - 1]);
      var a := ReturnShares(maxCross, avail, shares[..|shares| - 1]);
      CrossUpdatedBounded(maxCross, a, a + shares[|shares| - 1]);
    }
  }

  lemma {:induction false} FollowUpAllKeeps(cfg: Config, lay: Layout, st: Sched, ids: seq<int>, t: real, budget: real)
    requires IdsOk(cfg, ids) && Structured(cfg, lay, st) && Within(cfg, st, budget)
    ensures Structured(cfg, lay, FollowUpAll(cfg, st, ids, t)) && Within(cfg, FollowUpAll(cfg, st, ids, t), budget)
  {
    if |ids| > 0 {
      FollowUpAllKeeps(cfg, lay, st, ids[..|ids| - 1], t, budget);
      FollowUpKeeps(cfg, lay, FollowUpAll(cfg, st, ids[..|ids| - 1], t), ids[|ids| - 1], t, budget);
    }
  }

  lemma {:induction false} ReplaceAllKeeps(cfg: Config, lay: Layout, st: Sched, ids: seq<int>, t: real, budget: real)
    requires ConfigOk(cfg) && LayoutOk(cfg, lay) && IdsOk(cfg, ids)
    requires Structured(cfg, lay, st) && Within(cfg, st, budget)
    ensures Structured(cfg, lay, ReplaceAll(cfg, lay, st, ids, t)) && Within(cfg, ReplaceAll(cfg, lay, st, ids, t), budget)
  {
    if |ids| > 0 {
      ReplaceAllKeeps(cfg, lay, st, ids[..|ids| - 1], t, budget);
      var s := ReplaceAll(cfg, lay, st, ids[..|ids| - 1], t);
      EagerKeeps(cfg, lay, s, ids[|ids| - 1], t, budget);
      LazyKeeps(cfg, lay, s, ids[|ids| - 1], t, budget);
    }
  }

  /** A handled batch keeps the structure, and the bandwidth it hands back
      fits in what its events carried. */
  lemma HandleBatchKeeps(cfg: Config, lay: Layout, st: Sched, b: Batch, budget: real)
    requires ConfigOk(cfg) && LayoutOk(cfg, lay) && IdsOk(cfg, b.ids) && NonNeg(b.shares)
    requires Structured(cfg, lay, st) && 0.0 <= st.avail
    requires Budget(st) + Sum(b.shares) <= budget <= cfg.maxCross
    ensures Structured(cfg, lay, HandleBatch(cfg, lay, st, b).0)
    ensures Within(cfg, HandleBatch(cfg, lay, st, b).0, budget)
  {
    SumNonNeg(b.shares);
    match b.kind
    case DiskFail =>
      AdmitAllKeeps(cfg, lay, st.(disks := FailAll(st.disks, b.ids, b.time)), b.ids, b.time, budget);
    case DiskRepair =>
      RepairAllKeeps(cfg, lay, st, b.ids, b.time, Budget(st));
      var s1 := RepairAll(cfg, st, b.ids, b.time);
      if cfg.useNetwork {
        ReturnSharesBounded(cfg.maxCross, s1.avail, b.shares);
        var s2 := s1.(avail := ReturnShares(cfg.maxCross, s1.avail, b.shares));
        assert Within(cfg, s2, budget);
        if cfg.lazy {
          FollowUpAllKeeps(cfg, lay, s2, b.ids, b.time, budget);
        }
      }
    case ChunkRepair =>
      ReturnSharesBounded(cfg.maxCross, st.avail, b.shares);
    case DiskReplacement =>
      ReplaceAllKeeps(cfg, lay, st, b.ids, b.time, budget);
    case Unlabelled =>
  }

  // ---------------------------------------------------------------------
  // GetNextEvent.

  lemma ReissueKeeps(cfg: Config, lay: Layout, st: Sched, curr: real)
    requires ConfigOk(cfg) && LayoutOk(cfg, lay) && Inv(cfg, lay, st)
    ensures Inv(cfg, lay, Reissue(cfg, lay, st, curr))
  {
    if |st.waiting| > 0 && cfg.useNetwork && st.avail != 0.0 && cfg.intra != 0.0 {
      var e := Top(st.waiting);
      PopSubset(st.waiting);
      AdmitKeeps(cfg, lay, st.(waiting := Pop(st.waiting)), e.disk, curr, cfg.maxCross);
    }
  }

  /** The gathered events leave the queue, and the shares collected are at
      most what they carried. */
  lemma {:induction false} GatherAccounts(cfg: Config, q: seq<Event>, b: Batch)
    requires QueueOk(cfg, q) && IdsOk(cfg, b.ids) && NonNeg(b.shares)
    ensures var r := Gather(cfg, q, b);
            (forall x :: x in r.0 ==> x in q) && IdsOk(cfg, r.1.ids) && NonNeg(r.1.shares)
            && InFlight(r.0) + Sum(r.1.shares) <= InFlight(q) + Sum(b.shares)
    decreases |q|
  {
    if |q| > 0 && Top(q).time == b.time && Top(q).kind == b.kind {
      var e := Top(q);
      var b' := b.(ids := b.ids + [e.disk], shares := b.shares + ShareOf(cfg, e));
      PopSubset(q);
      InFlightPop(q);
      SumAppend(b.shares, ShareOf(cfg, e));
      assert Sum(ShareOf(cfg, e)) <= Claim(e) by {
        if cfg.useNetwork && IsRepairKind(e.kind) {
          assert ShareOf(cfg, e)[..0] == [];
        }
      }
      GatherAccounts(cfg, Pop(q), b');
    }
  }

  /** Popping the earliest event keeps the invariant: what it carried
      leaves the budget. */
  lemma PopKeeps(cfg: Config, lay: Layout, st: Sched)
    requires Inv(cfg, lay, st) && |st.events| > 0
    ensures Inv(cfg, lay, st.(events := Pop(st.events)))
  {
    PopSubset(st.events);
    InFlightPop(st.events);
    assert Top(st.events) in st.events;
  }

  /** The state after the earliest event is popped and its batch gathered
      keeps the invariant, and has room for the shares the batch carries. */
  lemma GatherReady(cfg: Config, lay: Layout, s1: Sched)
    requires ConfigOk(cfg) && LayoutOk(cfg, lay) && Inv(cfg, lay, s1)
    requires |s1.events| > 0 && Top(s1.events).time <= cfg.missionTime
    ensures var e := Top(s1.events);
            var g := Gather(cfg, Pop(s1.events), Batch(e.time, e.kind, [e.disk], ShareOf(cfg, e)));
            var s3 := s1.(events := g.0);
            Inv(cfg, lay, s3) && IdsOk(cfg, g.1.ids) && NonNeg(g.1.shares)
            && Budget(s3) + Sum(g.1.shares) <= cfg.maxCross
  {
    var e := Top(s1.events);
    PopSubset(s1.events);
    InFlightPop(s1.events);
    var b0 := Batch(e.time, e.kind, [e.disk], ShareOf(cfg, e));
    assert Sum(ShareOf(cfg, e)) <= Claim(e) by {
      if cfg.useNetwork && IsRepairKind(e.kind) {
        assert ShareOf(cfg, e)[..0] == [];
      }
    }
    GatherAccounts(cfg, Pop(s1.events), b0);
    var g := Gather(cfg, Pop(s1.events), b0);
    InFlightNonNeg(cfg, g.0);
    SumNonNeg(g.1.shares);
  }

  /** One GetNextEvent keeps the invariant. */
  lemma NextEventKeeps(cfg: Config, lay: Layout, st: Sched, curr: real)
    requires ConfigOk(cfg) && LayoutOk(cfg, lay) && Inv(cfg, lay, st)
    ensures Inv(cfg, lay, NextEvent(cfg, lay, st, curr).st)
  {
    ReissueKeeps(cfg, lay, st, curr);
    var s1 := Reissue(cfg, lay, st, curr);
    if |s1.events| > 0 {
      var e := Top(s1.events);
      PopSubset(s1.events);
      InFlightPop(s1.events);
      InFlightNonNeg(cfg, Pop(s1.events));
      if e.time <= cfg.missionTime {
        GatherReady(cfg, lay, s1);
        var g := Gather(cfg, Pop(s1.events), Batch(e.time, e.kind, [e.disk], ShareOf(cfg, e)));
        HandleBatchKeeps(cfg, lay, s1.(events := g.0), g.1, cfg.maxCross);
      }
    }
  }

  /** The batches the loop sees are failures and repairs: the DiskReplacement
      branch is never taken, and neither is the unknown-type exit. */
  lemma BatchKinds(cfg: Config, lay: Layout, st: Sched, curr: real)
    requires ConfigOk(cfg) && LayoutOk(cfg, lay) && Inv(cfg, lay, st)
    ensures var step := NextEvent(cfg, lay, st, curr);
            step.batch.Some? ==> step.batch.value.kind in {DiskFail, DiskRepair, ChunkRepair}
    ensures var step := NextEvent(cfg, lay, st, curr);
            step.batch.None? <==>
              (var s1 := Reissue(cfg, lay, st, curr); |s1.events| == 0 || Top(s1.events).time > cfg.missionTime)
  {
    ReissueKeeps(cfg, lay, st, curr);
  }

  /** GetNextEvent admits at most one waiting request per call: the wait
      queue loses at most its top. */
  lemma ReissueAtMostOne(cfg: Config, lay: Layout, st: Sched, curr: real)
    requires ConfigOk(cfg)
    ensures var s1 := Reissue(cfg, lay, st, curr);
            s1.waiting == st.waiting || (|st.waiting| > 0 && s1.waiting == Pop(st.waiting))
  {
  }

  /** The whole iteration keeps the invariant. */
  lemma {:induction false} IterateKeeps(cfg: Config, lay: Layout, p: Progress, fuel: nat)
    requires ConfigOk(cfg) && LayoutOk(cfg, lay) && Inv(cfg, lay, p.sched)
    ensures Inv(cfg, lay, Iterate(cfg, lay, p, fuel).0.sched)
    decreases fuel, 1
  {
    if fuel > 0 {
      AdvanceKeeps(cfg, lay, p, fuel - 1);
    }
  }

  lemma {:induction false} AdvanceKeeps(cfg: Config, lay: Layout, p: Progress, fuel: nat)
    requires ConfigOk(cfg) && LayoutOk(cfg, lay) && Inv(cfg, lay, p.sched)
    ensures Inv(cfg, lay, Advance(cfg, lay, p, fuel).0.sched)
    decreases fuel, 2
  {
    var step := NextEvent(cfg, lay, p.sched, p.curr);
    NextEventKeeps(cfg, lay, p.sched, p.curr);
    if step.batch.Some? && step.batch.value.time <= cfg.missionTime {
      var b := step.batch.value;
      var failed := BitsAfter(p.failed, b.kind, b.ids);
      var p1 := Progress(step.st, failed,
                         if b.kind == DiskFail then Some(LossCheck(cfg, lay, step.st.pending, failed)) else p.tally,
                         b.time);
      IterateKeeps(cfg, lay, p1, fuel);
      assert Advance(cfg, lay, p, fuel).0.sched == step.st || Advance(cfg, lay, p, fuel) == Iterate(cfg, lay, p1, fuel);
    } else {
      assert Advance(cfg, lay, p, fuel).0.sched == step.st;
    }
  }

  lemma {:induction false} SeedTraceOk(cfg: Config, trace: seq<FailedDisk>)
    requires forall i :: 0 <= i < |trace| ==> 0 <= trace[i].diskId < NumDisks(cfg)
    ensures QueueOk(cfg, SeedTrace(trace, cfg.missionTime))
    ensures InFlight(SeedTrace(trace, cfg.missionTime)) == 0.0
  {
    if |trace| > 0 {
      var front := trace[..|trace| - 1];
      var x := trace[|trace| - 1];
      SeedTraceOk(cfg, front);
      var prev := SeedTrace(front, cfg.missionTime);
      if x.failTime <= cfg.missionTime {
        SeedOneOk(cfg, prev, Event(x.failTime, DiskFail, x.diskId, 0.0));
      } else {
        assert SeedTrace(trace, cfg.missionTime) == prev + [];
        assert prev + [] == prev;
      }
    }
  }

  /** A failure event appended to a seeded queue: the queue stays well
      formed and carries no bandwidth. */
  lemma SeedOneOk(cfg: Config, q: seq<Event>, e: Event)
    requires QueueOk(cfg, q) && InFlight(q) == 0.0
    requires e.kind == DiskFail && 0 <= e.disk < NumDisks(cfg)
    ensures QueueOk(cfg, q + [e]) && InFlight(q + [e]) == 0.0
  {
    InFlightPush(q, e);
  }

  lemma {:induction false} SeedDrawsOk(cfg: Config, from: nat, n: nat)
    requires n <= NumDisks(cfg)
    ensures QueueOk(cfg, SeedDraws(cfg.lifetime, from, n, cfg.missionTime))
    ensures InFlight(SeedDraws(cfg.lifetime, from, n, cfg.missionTime)) == 0.0
  {
    if n > 0 {
      SeedDrawsOk(cfg, from, n - 1);
      var prev := SeedDraws(cfg.lifetime, from, n - 1, cfg.missionTime);
      var t := cfg.lifetime(from + n - 1);
      if t <= cfg.missionTime {
        SeedOneOk(cfg, prev, Event(t, DiskFail, n - 1, 0.0));
      } else {
        assert SeedDraws(cfg.lifetime, from, n, cfg.missionTime) == prev + [];
        assert prev + [] == prev;
      }
    }
  }

  lemma SeededInv(cfg: Config, lay: Layout, trace: seq<FailedDisk>, disks: seq<Clocks>, draws: nat)
    requires ConfigOk(cfg) && 0.0 <= cfg.maxCross && |disks| == NumDisks(cfg)
    requires cfg.useTrace ==> forall i :: 0 <= i < |trace| ==> 0 <= trace[i].diskId < NumDisks(cfg)
    ensures Inv(cfg, lay, Seeded(cfg, trace, disks, draws))
  {
    if cfg.useTrace {
      SeedTraceOk(cfg, trace);
    } else {
      SeedDrawsOk(cfg, draws, NumDisks(cfg));
    }
  }

  // ---------------------------------------------------------------------
  // Conservation, one admission at a time.

  /** An eager admission moves the whole available bandwidth into the event
      it schedules, or changes nothing: the budget is unchanged. */
  lemma EagerConserves(cfg: Config, lay: Layout, st: Sched, disk: int, t: real)
    requires ConfigOk(cfg) && Inv(cfg, lay, st) && 0 <= disk < NumDisks(cfg)
    ensures Budget(EagerRepair(cfg, lay, st, disk, t)) == Budget(st)
    ensures st.avail != 0.0 && EagerDownload(cfg, lay, st.disks, disk, StripesOf(lay, disk)).Some? ==>
              EagerRepair(cfg, lay, st, disk, t).avail == 0.0
  {
    if st.avail != 0.0 {
      match EagerDownload(cfg, lay, st.disks, disk, StripesOf(lay, disk))
      case None =>
      case Some(download) =>
        ClaimKeeps(cfg, lay, st, disk, t + RepairTime(cfg, download, st.avail), cfg.maxCross);
    }
  }

  /** A follow-up repair with followers hands the claimed bandwidth out in
      full: the shares sum to the claim. */
  lemma FollowUpConserves(cfg: Config, lay: Layout, st: Sched, disk: int, t: real)
    requires Inv(cfg, lay, st) && 0 <= disk < NumDisks(cfg)
    requires st.avail != 0.0 && disk in st.inRepair && st.inRepair[disk] != map[]
    ensures Budget(FollowUp(cfg, st, disk, t)) == Budget(st)
    ensures FollowUp(cfg, st, disk, t).avail == 0.0
  {
    FollowUpBudget(cfg, lay, st, disk, t, cfg.maxCross);
    var fs := st.inRepair[disk];
    var k :| k in fs;
    assert k in SortedKeys(fs.Keys);
    UploadsPositive(fs, SortedKeys(fs.Keys), k);
  }

  /** Without followers the claimed bandwidth is lost: available becomes 0
      and no event carries it back. */
  lemma FollowUpLosesBandwidth(cfg: Config, lay: Layout, st: Sched, disk: int, t: real)
    requires Inv(cfg, lay, st) && st.avail != 0.0
    requires disk !in st.inRepair || st.inRepair[disk] == map[]
    ensures FollowUp(cfg, st, disk, t).avail == 0.0
    ensures FollowUp(cfg, st, disk, t).events == st.events
    ensures Budget(FollowUp(cfg, st, disk, t)) == Budget(st) - st.avail
  {
    FollowUpBudget(cfg, lay, st, disk, t, cfg.maxCross);
    assert FollowersOf(st, disk).Keys == {};
    SortedKeysOfEmpty();
  }
}
