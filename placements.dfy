// The flat placement of simulator/libc/placement.cpp: every stripe is laid
// out on code.n disks in pairwise distinct racks, the inverse index lists the
// stripes of every disk, and the two loss checks apply the stripe rules of
// StripeRules to a failed-disk list or to a map of pending stripes.
//
// rand() and shuffle() are nondeterministic choices: a draw is any value the
// call could return, a shuffle any permutation. A retry loop that redraws
// until the draw is usable is modelled by choosing a usable draw directly.
module Placements {
  import opened StripeRules

  // ---------------------------------------------------------------------
  // Sequences of ids.

  predicate Distinct(xs: seq<int>) {
    forall i, j :: 0 <= i < j < |xs| ==> xs[i] != xs[j]
  }

  predicate Ascending(xs: seq<int>) {
    forall i, j :: 0 <= i < j < |xs| ==> xs[i] <= xs[j]
  }

  predicate StrictlyAscending(xs: seq<int>) {
    forall i, j :: 0 <= i < j < |xs| ==> xs[i] < xs[j]
  }

  /** xs with every occurrence of v dropped. */
  function Without(xs: seq<int>, v: int): (r: seq<int>)
    ensures |r| <= |xs|
    ensures v in xs ==> |r| < |xs|
    ensures forall x :: x in r <==> x in xs && x != v
  {
    if |xs| == 0 then []
    else if xs[0] == v then Without(xs[1..], v)
    else [xs[0]] + Without(xs[1..], v)
  }

  /** Fewer ids than the range [0, bound) holds leave some id of the range unused. */
  lemma {:induction false} SomeIdUnused(xs: seq<int>, bound: int)
    requires |xs| < bound
    ensures exists r :: 0 <= r < bound && r !in xs
    decreases bound
  {
    if bound - 1 in xs {
      var rest := Without(xs, bound - 1);
      SomeIdUnused(rest, bound - 1);
      var r :| 0 <= r < bound - 1 && r !in rest;
      assert r !in xs;
    }
  }

  lemma RepeatedIdCountsTwice(a: seq<int>, i: nat, j: nat)
    requires i < j < |a| && a[i] == a[j]
    ensures multiset(a)[a[i]] >= 2
  {
    assert a == a[..i] + [a[i]] + a[i + 1..j] + [a[j]] + a[j + 1..];
  }

  lemma {:induction false} DistinctCountsOnce(a: seq<int>)
    requires Distinct(a)
    ensures forall x :: multiset(a)[x] <= 1
  {
    if |a| > 0 {
      var front := a[..|a| - 1];
      assert Distinct(front);
      DistinctCountsOnce(front);
      assert a == front + [a[|a| - 1]];
      assert a[|a| - 1] !in front;
    }
  }

  /** Removing a rack other than the last keeps the list ascending, within
      range and holding the last rack. */
  lemma RemoveRackKeeps(list: seq<int>, k: int, n: int)
    requires StrictlyAscending(list) && 0 <= k < |list| && list[k] != n - 1 && n - 1 in list
    requires forall j :: 0 <= j < |list| ==> 0 <= list[j] < n
    ensures var rest := list[..k] + list[k + 1..];
            |rest| == |list| - 1 && StrictlyAscending(rest) && n - 1 in rest
            && forall j :: 0 <= j < |rest| ==> 0 <= rest[j] < n
  {
    var rest := list[..k] + list[k + 1..];
    assert forall j :: 0 <= j < |rest| ==> rest[j] == (if j < k then list[j] else list[j + 1]);
    var p :| 0 <= p < |list| && list[p] == n - 1;
    assert rest[if p < k then p else p - 1] == n - 1;
  }

  /** A shuffle of an ascending list of racks below n holding the last one
      is a list of as many distinct racks below n holding the last one. */
  lemma ShuffledRacks(list: seq<int>, shuffled: seq<int>, n: int)
    requires StrictlyAscending(list) && multiset(shuffled) == multiset(list)
    requires forall j :: 0 <= j < |list| ==> 0 <= list[j] < n
    requires n - 1 in list
    ensures |shuffled| == |list| && Distinct(shuffled) && n - 1 in shuffled
    ensures forall i :: 0 <= i < |shuffled| ==> 0 <= shuffled[i] < n
  {
    assert Distinct(list);
    PermutationKeepsDistinct(list, shuffled);
    assert |shuffled| == |multiset(shuffled)| == |multiset(list)| == |list|;
    assert forall i :: 0 <= i < |shuffled| ==> shuffled[i] in list;
  }

  lemma PermutationKeepsDistinct(a: seq<int>, b: seq<int>)
    requires Distinct(a) && multiset(a) == multiset(b)
    ensures Distinct(b)
    ensures forall x :: x in b <==> x in a
  {
    DistinctCountsOnce(a);
    forall i, j | 0 <= i < j < |b|
      ensures b[i] != b[j]
    {
      if b[i] == b[j] {
        RepeatedIdCountsTwice(b, i, j);
      }
    }
    forall x
      ensures x in b <==> x in a
    {
      assert x in b <==> x in multiset(b);
      assert x in a <==> x in multiset(a);
    }
  }

  // ---------------------------------------------------------------------
  // Racks and disks.

  lemma MulAtLeast(x: int, y: int)
    requires x >= 1 && y >= 0
    ensures x * y >= y
  {
  }

  lemma MulBelow(x: int, y: int)
    requires y > 0
    ensures x * y < y ==> x < 1
  {
    if x >= 1 {
      MulAtLeast(x, y);
    }
  }

  /** A disk drawn from rack lies in that rack and among the cluster's disks. */
  lemma DiskInRack(d: int, rack: int, dpr: int, numRacks: int)
    requires dpr > 0 && 0 <= rack < numRacks
    requires rack * dpr <= d < rack * dpr + dpr
    ensures 0 <= d < numRacks * dpr
    ensures RackOf(d, dpr) == rack
  {
    MulAtLeast(rack + 1, dpr);
    assert 0 <= rack * dpr;
    MulAtLeast(numRacks - rack, dpr);
    assert (numRacks - rack) * dpr == numRacks * dpr - rack * dpr;
    var q := d / dpr;
    var r := d % dpr;
    assert d == q * dpr + r && 0 <= r < dpr;
    assert (q - rack) * dpr == q * dpr - rack * dpr;
    assert (rack - q) * dpr == rack * dpr - q * dpr;
    MulBelow(q - rack, dpr);
    MulBelow(rack - q, dpr);
  }

  /** The placement checks of GeneratePlacement: valid n and k, a non-zero l
      for LRC, and enough racks with at least one disk each. */
  predicate Accepts(code: Code, numRacks: int, disksPerRack: int) {
    !(code.k < 1 || code.n <= code.k)
    && !(code.kind == Lrc && code.l == 0)
    && !(numRacks < code.n || disksPerRack < 1)
  }

  /** A stripe laid out on n disks of the cluster, no two in one rack. */
  predicate Spread(loc: seq<int>, n: int, numDisks: int, dpr: int)
    requires dpr > 0
  {
    |loc| == n
    && (forall p :: 0 <= p < |loc| ==> 0 <= loc[p] < numDisks)
    && (forall p, q :: 0 <= p < q < |loc| ==> RackOf(loc[p], dpr) != RackOf(loc[q], dpr))
  }

  // ---------------------------------------------------------------------
  // The inverse index.

  /** How often disk d holds a chunk of a stripe. */
  function Occ(loc: seq<int>, d: int): nat {
    if |loc| == 0 then 0 else Occ(loc[..|loc| - 1], d) + (if loc[|loc| - 1] == d then 1 else 0)
  }

  function Repeat(s: int, c: nat): (r: seq<int>)
    ensures |r| == c && forall i :: 0 <= i < c ==> r[i] == s
  {
    seq(c, _ => s)
  }

  /** The stripes of disk d in ascending stripe order, each once per chunk d holds. */
  function StripesOn(locs: seq<seq<int>>, d: int): seq<int> {
    if |locs| == 0 then []
    else StripesOn(locs[..|locs| - 1], d) + Repeat(|locs| - 1, Occ(locs[|locs| - 1], d))
  }

  lemma {:induction false} OccPositive(loc: seq<int>, d: int)
    ensures Occ(loc, d) > 0 <==> d in loc
  {
    if |loc| > 0 {
      OccPositive(loc[..|loc| - 1], d);
      assert loc == loc[..|loc| - 1] + [loc[|loc| - 1]];
    }
  }

  lemma {:induction false} OccOfDistinct(loc: seq<int>, d: int)
    requires Distinct(loc)
    ensures Occ(loc, d) <= 1
  {
    if |loc| > 0 {
      var front := loc[..|loc| - 1];
      assert Distinct(front);
      OccOfDistinct(front, d);
      if loc[|loc| - 1] == d {
        OccPositive(front, d);
        assert d !in front;
      }
    }
  }

  /** The index lists exactly the stripes holding d, ascending, each as
      often as d occurs in it. */
  lemma StripesOnSpec(locs: seq<seq<int>>, d: int)
    ensures forall s :: s in StripesOn(locs, d) <==> 0 <= s < |locs| && d in locs[s]
    ensures Ascending(StripesOn(locs, d))
    ensures forall s :: 0 <= s < |locs| ==> multiset(StripesOn(locs, d))[s] == Occ(locs[s], d)
    ensures forall x :: x in StripesOn(locs, d) ==> 0 <= x < |locs|
  {
    StripesOnMembers(locs, d);
    StripesOnAscending(locs, d);
    StripesOnCounts(locs, d);
  }

  /** The last stripe's entries come after the rest of the index. */
  lemma StripesOnLast(locs: seq<seq<int>>, d: int)
    requires |locs| > 0
    ensures StripesOn(locs, d) == StripesOn(locs[..|locs| - 1], d) + Repeat(|locs| - 1, Occ(locs[|locs| - 1], d))
    ensures forall s :: 0 <= s < |locs| - 1 ==> locs[..|locs| - 1][s] == locs[s]
  {
  }

  lemma {:induction false} StripesOnMembers(locs: seq<seq<int>>, d: int)
    ensures forall s :: s in StripesOn(locs, d) <==> 0 <= s < |locs| && d in locs[s]
  {
    if |locs| > 0 {
      var front := locs[..|locs| - 1];
      var last := |locs| - 1;
      StripesOnMembers(front, d);
      StripesOnLast(locs, d);
      OccPositive(locs[last], d);
      var tail := Repeat(last, Occ(locs[last], d));
      assert forall s :: s in tail <==> s == last && d in locs[last] by {
        if d in locs[last] {
          assert tail[0] == last;
        }
      }
    }
  }

  lemma {:induction false} StripesOnAscending(locs: seq<seq<int>>, d: int)
    ensures Ascending(StripesOn(locs, d))
  {
    if |locs| > 0 {
      var front := locs[..|locs| - 1];
      var last := |locs| - 1;
      StripesOnAscending(front, d);
      StripesOnMembers(front, d);
      StripesOnLast(locs, d);
      var prev := StripesOn(front, d);
      assert forall i :: 0 <= i < |prev| ==> prev[i] < last by {
        forall i | 0 <= i < |prev| ensures prev[i] < last {
          assert prev[i] in prev;
        }
      }
    }
  }

  lemma {:induction false} StripesOnCounts(locs: seq<seq<int>>, d: int)
    ensures forall s :: 0 <= s < |locs| ==> multiset(StripesOn(locs, d))[s] == Occ(locs[s], d)
  {
    if |locs| > 0 {
      var front := locs[..|locs| - 1];
      var last := |locs| - 1;
      StripesOnCounts(front, d);
      StripesOnMembers(front, d);
      StripesOnLast(locs, d);
      var prev := StripesOn(front, d);
      var tail := Repeat(last, Occ(locs[last], d));
      assert multiset(StripesOn(locs, d)) == multiset(prev) + multiset(tail);
      forall s | 0 <= s < |locs|
        ensures multiset(StripesOn(locs, d))[s] == Occ(locs[s], d)
      {
        if s == last {
          assert s !in prev;
          RepeatCount(last, Occ(locs[last], d));
        } else {
          assert s !in tail;
        }
      }
    }
  }

  lemma {:induction false} RepeatCount(s: int, c: nat)
    ensures multiset(Repeat(s, c))[s] == c
  {
    if c > 0 {
      RepeatCount(s, c - 1);
      assert Repeat(s, c) == Repeat(s, c - 1) + [s];
    }
  }

  /** With distinct disks in every stripe, each stripe is listed once and
      the index is strictly ascending. */
  lemma {:induction false} StripesOnStrict(locs: seq<seq<int>>, d: int)
    requires forall s :: 0 <= s < |locs| ==> Distinct(locs[s])
    ensures StrictlyAscending(StripesOn(locs, d))
  {
    if |locs| > 0 {
      var front := locs[..|locs| - 1];
      var last := |locs| - 1;
      StripesOnStrict(front, d);
      StripesOnSpec(front, d);
      OccOfDistinct(locs[last], d);
      var prev := StripesOn(front, d);
      assert StripesOn(locs, d) == prev + Repeat(last, Occ(locs[last], d));
      assert forall i :: 0 <= i < |prev| ==> prev[i] < last by {
        forall i | 0 <= i < |prev| ensures prev[i] < last {
          assert prev[i] in prev;
        }
      }
    }
  }

  /** Distinct racks mean distinct disks. */
  lemma SpreadIsDistinct(loc: seq<int>, n: int, numDisks: int, dpr: int)
    requires dpr > 0 && Spread(loc, n, numDisks, dpr)
    ensures Distinct(loc)
  {
  }

  // ---------------------------------------------------------------------
  // The loss checks, stated over all stripes.

  /** Lost stripes and the bad chunks they hold. */
  datatype Tally = Tally(stripes: nat, chunks: nat)

  /** The bad positions of a stripe: those whose disk is in the failed list. */
  function MaskOf(loc: seq<int>, failed: seq<int>): (bad: seq<bool>)
    ensures |bad| == |loc|
    ensures forall p :: 0 <= p < |loc| ==> bad[p] == (loc[p] in failed)
  {
    seq(|loc|, p requires 0 <= p < |loc| => loc[p] in failed)
  }

  /** Whether stripe s is examined (it has a failed list) and lost. */
  predicate StripeLost(code: Code, locs: seq<seq<int>>, failedOf: map<int, seq<int>>, s: int)
    requires 0 <= s < |locs|
  {
    s in failedOf && Lost(code, MaskOf(locs[s], failedOf[s]))
  }

  /** The tally over stripes [0, hi): each lost stripe counts once and adds
      its number of bad chunks. */
  function LossTally(code: Code, locs: seq<seq<int>>, failedOf: map<int, seq<int>>, hi: nat): Tally
    requires hi <= |locs|
  {
    if hi == 0 then Tally(0, 0)
    else
      var t := LossTally(code, locs, failedOf, hi - 1);
      var s := hi - 1;
      if StripeLost(code, locs, failedOf, s)
      then Tally(t.stripes + 1, t.chunks + CountBad(MaskOf(locs[s], failedOf[s]), |locs[s]|))
      else t
  }

  /** Data is lost exactly when some examined stripe is lost; every lost
      stripe holds at least one bad chunk when the code tolerates failures. */
  lemma {:induction false} LossTallySpec(code: Code, locs: seq<seq<int>>, failedOf: map<int, seq<int>>, hi: nat)
    requires hi <= |locs|
    requires code.n - code.k - (if code.kind == Lrc then code.l else 0) >= 0
    ensures LossTally(code, locs, failedOf, hi).stripes > 0
            <==> exists s :: 0 <= s < hi && StripeLost(code, locs, failedOf, s)
    ensures LossTally(code, locs, failedOf, hi).stripes <= hi
    ensures LossTally(code, locs, failedOf, hi).stripes <= LossTally(code, locs, failedOf, hi).chunks
  {
    if hi > 0 {
      LossTallySpec(code, locs, failedOf, hi - 1);
      var s := hi - 1;
      if StripeLost(code, locs, failedOf, s) {
        LrcSumAtMostFailed(MaskOf(locs[s], failedOf[s]), code.l);
      }
    }
  }

  /** The stripes of the listed disks. */
  function Touched(perDisk: seq<seq<int>>, failed: seq<int>): set<int>
    requires forall i :: 0 <= i < |failed| ==> 0 <= failed[i] < |perDisk|
  {
    if |failed| == 0 then {}
    else
      var stripes := perDisk[failed[|failed| - 1]];
      Touched(perDisk, failed[..|failed| - 1]) + (set s | s in stripes)
  }

  lemma {:induction false} TouchedSpec(perDisk: seq<seq<int>>, failed: seq<int>)
    requires forall i :: 0 <= i < |failed| ==> 0 <= failed[i] < |perDisk|
    ensures forall s :: s in Touched(perDisk, failed) <==> exists i :: 0 <= i < |failed| && s in perDisk[failed[i]]
  {
    if |failed| > 0 {
      var front := failed[..|failed| - 1];
      TouchedSpec(perDisk, front);
      assert forall i :: 0 <= i < |front| ==> front[i] == failed[i];
    }
  }

  /** The list overload examines the touched stripes, each against the whole list. */
  function UniformFailed(touched: set<int>, failed: seq<int>): map<int, seq<int>> {
    map s | s in touched :: failed
  }

  /** A replicated stripe (n = 3, k = 1) survives two of its three copies
      failing: only more than n - k = 2 bad chunks is a loss. */
  lemma ReplicaTwoOfThreeSurvives(a: int, b: int, c: int)
    requires a != c && b != c
    ensures LossTally(Code(Replication, 3, 1, 0), [[a, b, c]], map[0 := [a, b]], 1) == Tally(0, 0)
  {
    var bad := MaskOf([a, b, c], [a, b]);
    assert bad == [true, true, false];
    assert CountBad(bad, 3) == 2 by {
      assert CountBad(bad, 1) == 1 && CountBad(bad, 2) == 2;
    }
  }

  /** All three copies failed is one lost stripe with three lost chunks. */
  lemma ReplicaAllThreeLost(a: int, b: int, c: int)
    ensures LossTally(Code(Replication, 3, 1, 0), [[a, b, c]], map[0 := [a, b, c]], 1) == Tally(1, 3)
  {
    var bad := MaskOf([a, b, c], [a, b, c]);
    assert bad == [true, true, true];
    assert CountBad(bad, 3) == 3 by {
      assert CountBad(bad, 1) == 1 && CountBad(bad, 2) == 2;
    }
  }

  // ---------------------------------------------------------------------
  // The as-written constructor index loop.

  /** The stripe ids the constructor's index loop visits: it runs up to the
      configured stripe count whether or not placement succeeded. */
  function AsWrittenIndexVisits(numStripes: int): (r: seq<int>)
    ensures |r| == (if numStripes < 0 then 0 else numStripes)
  {
    seq(if numStripes < 0 then 0 else numStripes, i => i)
  }

  predicate ReadsPastEnd(visits: seq<int>, locs: seq<seq<int>>) {
    exists i :: 0 <= i < |visits| && visits[i] >= |locs|
  }

  /** A rejected placement leaves no stripe, yet the as-written loop visits
      stripe 0 as soon as one stripe was configured. */
  lemma RejectedPlacementReadsPastEnd(code: Code, numRacks: int, dpr: int, numStripes: int)
    requires !Accepts(code, numRacks, dpr) && numStripes >= 1
    ensures ReadsPastEnd(AsWrittenIndexVisits(numStripes), [])
  {
    assert AsWrittenIndexVisits(numStripes)[0] == 0;
  }

  /** One rack cannot hold a stripe of six chunks. */
  lemma OneRackRejectsSixChunks()
    ensures !Accepts(Code(ReedSolomon, 6, 4, 0), 1, 1)
    ensures ReadsPastEnd(AsWrittenIndexVisits(1), [])
  {
    RejectedPlacementReadsPastEnd(Code(ReedSolomon, 6, 4, 0), 1, 1, 1);
  }

  /** C++ vector::resize: truncate, or extend with empty lists. */
  function Resized(v: seq<seq<int>>, n: nat): (r: seq<seq<int>>)
    ensures |r| == n
    ensures forall i :: 0 <= i < n ==> r[i] == (if i < |v| then v[i] else [])
  {
    seq(n, i requires 0 <= i < n => if i < |v| then v[i] else [])
  }

  class Placement {
    const numRacks: int
    const nodesPerRack: int
    const disksPerNode: int
    const numStripes: int
    const code: Code
    const numDisks: int
    const disksPerRack: int
    var locs: seq<seq<int>>            // stripes_location_
    var perDisk: seq<seq<int>>         // stripes_per_disk_
    var numChunksPerDisk: seq<int>     // num_chunks_per_disk_

    /** The cluster shape fixed by the constructor. */
    predicate Shape()
      reads this
    {
      0 <= numRacks && 0 <= nodesPerRack && 0 <= disksPerNode
      && disksPerRack == disksPerNode * nodesPerRack
      && numDisks == numRacks * disksPerRack
      && LayoutFits(code)
    }

    /** Every chunk is on a disk of the cluster. */
    predicate OnDisks()
      reads this
    {
      forall s, p :: 0 <= s < |locs| && 0 <= p < |locs[s]| ==> 0 <= locs[s][p] < numDisks
    }

    /** The index and the chunk counts agree with the layout. */
    predicate Indexed()
      reads this
    {
      |perDisk| == numDisks + 1
      && (forall d :: 0 <= d < |perDisk| ==> perDisk[d] == StripesOn(locs, d))
      && |numChunksPerDisk| == numDisks
      && (forall d :: 0 <= d < numDisks ==> numChunksPerDisk[d] == |perDisk[d]|)
    }

    predicate Valid()
      reads this
    {
      Shape() && 0 <= numDisks && OnDisks() && Indexed()
    }

    /** Every stripe is spread over code.n racks. */
    predicate AllSpread()
      reads this
      requires Shape() && disksPerRack > 0
    {
      forall s :: 0 <= s < |locs| ==> Spread(locs[s], code.n, numDisks, disksPerRack)
    }

    /** Lays out the stripes and builds the index. When the placement checks
        fail there are no stripes; the index loop is the corrected one. */
    constructor (racks: int, nodes: int, disksPerNode: int, stripes: int, code: Code)
      requires 0 <= racks && 0 <= nodes && 0 <= disksPerNode && LayoutFits(code)
      ensures this.numRacks == racks && this.nodesPerRack == nodes
      ensures this.disksPerNode == disksPerNode && this.numStripes == stripes && this.code == code
      ensures Valid()
      ensures Accepts(code, racks, disksPerRack) ==> |locs| == (if stripes < 0 then 0 else stripes) && AllSpread()
      ensures !Accepts(code, racks, disksPerRack) ==> locs == []
    {
      this.numRacks := racks;
      this.nodesPerRack := nodes;
      this.disksPerNode := disksPerNode;
      this.numStripes := stripes;
      this.code := code;
      this.disksPerRack := disksPerNode * nodes;
      this.numDisks := racks * (disksPerNode * nodes);
      this.locs := [];
      this.perDisk := [];
      this.numChunksPerDisk := [];
      new;
      assert 0 <= disksPerNode * nodes;
      assert 0 <= racks * (disksPerNode * nodes);
      var ok := GeneratePlacement();
      GenerateNumChunksPerDisk();
    }

    /** rand() % disks_per_rack + the rack's first disk. */
    method GetDiskRandomly(rack: int) returns (d: int)
      requires Shape() && disksPerRack >= 1
      ensures rack * disksPerRack <= d < rack * disksPerRack + disksPerRack
    {
      var draw: nat :| true;
      var minDisk := rack * nodesPerRack * disksPerNode;
      assert minDisk == rack * disksPerRack;
      d := draw % disksPerRack + minDisk;
    }

    /** m distinct racks: drawn one by one when m is below half the racks,
        otherwise cut down from the full list. */
    method GetDiffRacks(m: int) returns (racks: seq<int>)
      requires 1 <= m <= numRacks
      ensures |racks| == m && Distinct(racks)
      ensures forall i :: 0 <= i < |racks| ==> 0 <= racks[i] < numRacks
      ensures 2 * m < numRacks ==> forall i :: 0 <= i < |racks| ==> racks[i] < numRacks - 1
      ensures 2 * m >= numRacks ==> numRacks - 1 in racks
    {
      if 2 * m < numRacks {
        racks := DrawRacks(m);
      } else {
        racks := RemoveRacks(m);
      }
    }

    /** The rejection branch: each draw is rand() % (numRacks - 1), redrawn
        until it differs from the racks already taken, so the last rack is
        never taken. */
    method DrawRacks(m: int) returns (racks: seq<int>)
      requires 0 <= m && 2 * m < numRacks
      ensures |racks| == m && Distinct(racks)
      ensures forall i :: 0 <= i < |racks| ==> 0 <= racks[i] < numRacks - 1
    {
      racks := [];
      for i := 0 to m
        invariant |racks| == i && Distinct(racks)
        invariant forall j :: 0 <= j < |racks| ==> 0 <= racks[j] < numRacks - 1
      {
        SomeIdUnused(racks, numRacks - 1);
        var r :| 0 <= r < numRacks - 1 && r !in racks;
        racks := racks + [r];
      }
    }

    /** The removal branch: start from every rack, remove a drawn rack
        rand() % (numRacks - 1) (redrawn until still present) until m are
        left, then shuffle. The last rack is never removed. */
    method RemoveRacks(m: int) returns (racks: seq<int>)
      requires 1 <= m <= numRacks
      ensures |racks| == m && Distinct(racks)
      ensures forall i :: 0 <= i < |racks| ==> 0 <= racks[i] < numRacks
      ensures numRacks - 1 in racks
    {
      var list := seq(numRacks, i => i);
      assert list[numRacks - 1] == numRacks - 1;
      for i := 0 to numRacks - m
        invariant |list| == numRacks - i && StrictlyAscending(list)
        invariant forall j :: 0 <= j < |list| ==> 0 <= list[j] < numRacks
        invariant numRacks - 1 in list
      {
        assert list[0] < list[|list| - 1] && list[0] in list;
        var r :| 0 <= r < numRacks - 1 && r in list;
        var k :| 0 <= k < |list| && list[k] == r;
        RemoveRackKeeps(list, k, numRacks);
        list := list[..k] + list[k + 1..];
      }
      var shuffled :| multiset(shuffled) == multiset(list);
      ShuffledRacks(list, shuffled, numRacks);
      racks := shuffled;
    }

    /** One stripe: a disk drawn from each of code.n distinct racks. */
    method PlaceStripe() returns (loc: seq<int>)
      requires Shape() && Accepts(code, numRacks, disksPerRack)
      ensures Spread(loc, code.n, numDisks, disksPerRack)
      ensures 2 * code.n < numRacks ==> forall p :: 0 <= p < |loc| ==> RackOf(loc[p], disksPerRack) < numRacks - 1
      ensures 2 * code.n >= numRacks ==> exists p :: 0 <= p < |loc| && RackOf(loc[p], disksPerRack) == numRacks - 1
    {
      var rackList := GetDiffRacks(code.n);
      loc := [];
      for j := 0 to |rackList|
        invariant |loc| == j
        invariant forall p :: 0 <= p < j ==> 0 <= loc[p] < numDisks && RackOf(loc[p], disksPerRack) == rackList[p]
      {
        var d := GetDiskRandomly(rackList[j]);
        DiskInRack(d, rackList[j], disksPerRack, numRacks);
        loc := loc + [d];
      }
      if 2 * code.n >= numRacks {
        var p :| 0 <= p < |rackList| && rackList[p] == numRacks - 1;
        assert RackOf(loc[p], disksPerRack) == numRacks - 1;
      }
    }

    method GeneratePlacement() returns (ok: bool)
      requires Shape()
      modifies this`locs
      ensures ok == Accepts(code, numRacks, disksPerRack)
      ensures !ok ==> locs == old(locs)
      ensures ok ==> |locs| == |old(locs)| + (if numStripes < 0 then 0 else numStripes)
      ensures ok ==> locs[..|old(locs)|] == old(locs)
      ensures ok ==> forall s :: |old(locs)| <= s < |locs| ==> Spread(locs[s], code.n, numDisks, disksPerRack)
      ensures ok && 2 * code.n < numRacks ==>
        forall s, p :: |old(locs)| <= s < |locs| && 0 <= p < |locs[s]| ==> RackOf(locs[s][p], disksPerRack) < numRacks - 1
    {
      if code.k < 1 || code.n <= code.k {
        return false;
      }
      if code.kind == Lrc && code.l == 0 {
        return false;
      }
      if numRacks < code.n || disksPerRack < 1 {
        return false;
      }
      var stripeId := 0;
      while stripeId < numStripes
        invariant 0 <= stripeId && (numStripes >= 0 ==> stripeId <= numStripes)
        invariant numStripes < 0 ==> stripeId == 0
        invariant |locs| == |old(locs)| + stripeId && locs[..|old(locs)|] == old(locs)
        invariant forall s :: |old(locs)| <= s < |locs| ==> Spread(locs[s], code.n, numDisks, disksPerRack)
        invariant 2 * code.n < numRacks ==>
          forall s, p :: |old(locs)| <= s < |locs| && 0 <= p < |locs[s]| ==> RackOf(locs[s][p], disksPerRack) < numRacks - 1
      {
        var loc := PlaceStripe();
        locs := locs + [loc];
        stripeId := stripeId + 1;
      }
      ok := true;
    }

    /** The inverse index and the per-disk chunk counts, over the stripes
        that were generated. */
    method GenerateNumChunksPerDisk()
      requires Shape() && 0 <= numDisks && OnDisks()
      modifies this`perDisk, this`numChunksPerDisk
      ensures |perDisk| == numDisks + 1 && |numChunksPerDisk| == numDisks
      ensures forall d :: 0 <= d < |perDisk| ==>
        perDisk[d] == Resized(old(perDisk), numDisks + 1)[d] + StripesOn(locs, d)
      ensures forall d :: 0 <= d < numDisks ==> numChunksPerDisk[d] == |StripesOn(locs, d)|
    {
      var base := Resized(perDisk, numDisks + 1);
      numChunksPerDisk := seq(numDisks, _ => 0);
      perDisk := base;
      for s := 0 to |locs|
        invariant |perDisk| == numDisks + 1 && |numChunksPerDisk| == numDisks
        invariant forall d :: 0 <= d < |perDisk| ==> perDisk[d] == base[d] + StripesOn(locs[..s], d)
        invariant forall d :: 0 <= d < numDisks ==> numChunksPerDisk[d] == |StripesOn(locs[..s], d)|
      {
        IndexStripe(s);
        assert locs[..s + 1][..s] == locs[..s];
        assert locs[..s + 1][s] == locs[s];
      }
      assert locs[..|locs|] == locs;
    }

    /** Records every chunk of stripe s: its disk gets one more chunk and
        lists s once more. */
    method IndexStripe(s: int)
      requires 0 <= s < |locs| && OnDisks()
      requires |perDisk| == numDisks + 1 && |numChunksPerDisk| == numDisks
      modifies this`perDisk, this`numChunksPerDisk
      ensures |perDisk| == numDisks + 1 && |numChunksPerDisk| == numDisks
      ensures forall d :: 0 <= d < |perDisk| ==> perDisk[d] == old(perDisk)[d] + Repeat(s, Occ(locs[s], d))
      ensures forall d :: 0 <= d < numDisks ==> numChunksPerDisk[d] == old(numChunksPerDisk)[d] + Occ(locs[s], d)
    {
      var loc := locs[s];
      for p := 0 to |loc|
        invariant |perDisk| == numDisks + 1 && |numChunksPerDisk| == numDisks
        invariant forall d :: 0 <= d < |perDisk| ==> perDisk[d] == old(perDisk)[d] + Repeat(s, Occ(loc[..p], d))
        invariant forall d :: 0 <= d < numDisks ==> numChunksPerDisk[d] == old(numChunksPerDisk)[d] + Occ(loc[..p], d)
      {
        var d0 := loc[p];
        assert loc[..p + 1][..p] == loc[..p];
        assert Repeat(s, Occ(loc[..p], d0) + 1) == Repeat(s, Occ(loc[..p], d0)) + [s];
        numChunksPerDisk := numChunksPerDisk[d0 := numChunksPerDisk[d0] + 1];
        perDisk := perDisk[d0 := perDisk[d0] + [s]];
      }
      assert loc[..|loc|] == loc;
    }

    /** The stripes with a chunk on disk d. */
    method GetStripesToRepair(d: int) returns (stripes: seq<int>)
      requires Valid() && 0 <= d < |perDisk|
      ensures stripes == StripesOn(locs, d)
      ensures forall s :: s in stripes <==> 0 <= s < |locs| && d in locs[s]
    {
      stripes := perDisk[d];
      StripesOnSpec(locs, d);
    }

    /** The disks of stripe s. */
    method GetStripeLocation(s: int) returns (loc: seq<int>)
      requires Valid() && 0 <= s < |locs|
      ensures loc == locs[s]
      ensures forall p :: 0 <= p < |loc| ==> 0 <= loc[p] < numDisks
    {
      loc := locs[s];
    }

    /** The eager loss check: every stripe with a chunk on a listed disk is
        checked against the whole list. */
    method CheckDataLoss(failed: seq<int>) returns (loss: bool, tally: Tally)
      requires Valid()
      requires forall i :: 0 <= i < |failed| ==> 0 <= failed[i] < |perDisk|
      ensures tally == LossTally(code, locs, UniformFailed(Touched(perDisk, failed), failed), |locs|)
      ensures loss <==> tally.stripes > 0
    {
      var touched: set<int> := {};
      for i := 0 to |failed|
        invariant touched == Touched(perDisk, failed[..i])
      {
        var stripes := GetStripesToRepair(failed[i]);
        touched := touched + (set s | s in stripes);
        assert failed[..i + 1][..i] == failed[..i];
      }
      assert failed[..|failed|] == failed;
      var failedOf := UniformFailed(touched, failed);
      tally := Tally(0, 0);
      loss := false;
      for s := 0 to |locs|
        invariant tally == LossTally(code, locs, failedOf, s)
        invariant loss <==> tally.stripes > 0
      {
        if s in touched {
          var loc := GetStripeLocation(s);
          var c := CountFailures(MaskOf(loc, failed), code.l);
          OverToleranceIsLost(code, MaskOf(loc, failed));
          if OverTolerance(code, c) {
            tally := Tally(tally.stripes + 1, tally.chunks + c.failed);
            loss := true;
          }
        }
      }
    }

    /** The lazy loss check: every pending stripe is checked against its own
        list of bad disks. */
    method CheckDataLossPending(pending: map<int, seq<int>>) returns (loss: bool, tally: Tally)
      requires Valid()
      requires forall s :: s in pending ==> 0 <= s < |locs|
      ensures tally == LossTally(code, locs, pending, |locs|)
      ensures loss <==> tally.stripes > 0
    {
      tally := Tally(0, 0);
      loss := false;
      for s := 0 to |locs|
        invariant tally == LossTally(code, locs, pending, s)
        invariant loss <==> tally.stripes > 0
      {
        if s in pending {
          var loc := GetStripeLocation(s);
          var c := CountFailures(MaskOf(loc, pending[s]), code.l);
          OverToleranceIsLost(code, MaskOf(loc, pending[s]));
          if OverTolerance(code, c) {
            tally := Tally(tally.stripes + 1, tally.chunks + c.failed);
            loss := true;
          }
        }
      }
    }
  }
}
