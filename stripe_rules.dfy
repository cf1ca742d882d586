// The per-stripe counting rules shared by simulator/libc/placement.cpp
// (CheckDataLoss) and simulator/libc/simulation.cpp (SetDiskRepair and
// SetDiskLazyRepair): which positions of a stripe count as failed, how the
// fixed two-group LRC layout turns those into a loss verdict, and which
// surviving chunks sit in the repairing disk's rack.
//
// A stripe is its list of disks, one per chunk position. Which positions are
// bad is given as a mask of the same length; each caller builds the mask its
// own way (membership in a failed list, a Crashed disk, or a pending entry).
module StripeRules {

  datatype CodeKind = Replication | ReedSolomon | Lrc | Drc | OtherCode

  /** Code type and parameters: n chunks per stripe, k of them data, and for
      LRC the number l of local groups. */
  datatype Code = Code(kind: CodeKind, n: int, k: int, l: int)

  /** The hard-coded LRC layout: data positions of the two groups, their
      local parities, and the two global parities. */
  const LrcDataGroup: seq<seq<int>> := [[0, 1, 2, 3, 4, 5], [8, 9, 10, 11, 12, 13]]
  const LrcLocalParity: seq<int> := [6, 14]
  const LrcGlobalParity: seq<int> := [7, 15]

  predicate IsGlobalParity(p: int) {
    p == LrcGlobalParity[0] || p == LrcGlobalParity[1]
  }

  predicate IsLocalParity(p: int) {
    p == LrcLocalParity[0] || p == LrcLocalParity[1]
  }

  predicate InGroup(p: int, gid: nat)
    requires gid < 2
  {
    p in LrcDataGroup[gid]
  }

  /** The group index the LRC loops may touch: the arrays hold two groups. */
  predicate LayoutFits(code: Code) {
    code.kind == Lrc ==> code.l <= 2
  }

  // ---------------------------------------------------------------------
  // Counts over the first m positions of a mask.

  function CountBad(bad: seq<bool>, m: nat): nat
    requires m <= |bad|
  {
    if m == 0 then 0 else CountBad(bad, m - 1) + (if bad[m - 1] then 1 else 0)
  }

  function CountGlobalBad(bad: seq<bool>, m: nat): nat
    requires m <= |bad|
  {
    if m == 0 then 0
    else CountGlobalBad(bad, m - 1) + (if bad[m - 1] && IsGlobalParity(m - 1) then 1 else 0)
  }

  function CountGroupBad(bad: seq<bool>, gid: nat, m: nat): nat
    requires gid < 2 && m <= |bad|
  {
    if m == 0 then 0
    else CountGroupBad(bad, gid, m - 1) + (if bad[m - 1] && InGroup(m - 1, gid) then 1 else 0)
  }

  /** What is left of group gid's count after its first m positions were
      scanned: every bad data chunk adds one, and the group's local parity,
      once passed and alive, takes one away if the count is positive. Groups
      at or beyond l are never counted. */
  function ResidueAt(bad: seq<bool>, gid: nat, l: int, m: nat): nat
    requires gid < 2 && m <= |bad|
  {
    if gid >= l then 0
    else
      var lp := LrcLocalParity[gid];
      var f := CountGroupBad(bad, gid, m);
      if lp < m && !bad[lp] && CountGroupBad(bad, gid, lp) > 0 && f > 0 then f - 1 else f
  }

  /** The residue of a group over the whole stripe, in closed form: the bad
      data chunks of the group, less one when its local parity is present,
      alive and there is something to cover. */
  function Residue(bad: seq<bool>, gid: nat, l: int): nat
    requires gid < 2
  {
    if gid >= l then 0
    else
      var lp := LrcLocalParity[gid];
      var f := CountGroupBad(bad, gid, |bad|);
      if lp < |bad| && !bad[lp] && f > 0 then f - 1 else f
  }

  /** The LRC loss sum: failed global parities plus the residues of the groups. */
  function LrcSum(bad: seq<bool>, l: int): nat {
    CountGlobalBad(bad, |bad|) + Residue(bad, 0, l) + Residue(bad, 1, l)
  }

  /** Whether a stripe with this mask is beyond repair. */
  predicate Lost(code: Code, bad: seq<bool>) {
    if code.kind == Lrc then LrcSum(bad, code.l) > code.n - code.k - code.l
    else CountBad(bad, |bad|) > code.n - code.k
  }

  // ---------------------------------------------------------------------
  // Rack-local survivors and the position of the repaired disk.

  /** The rack of a disk: disks are numbered rack by rack. */
  function RackOf(d: int, disksPerRack: int): int
    requires disksPerRack > 0
  {
    d / disksPerRack
  }

  function CountAliveInRack(loc: seq<int>, bad: seq<bool>, rack: int, dpr: int, m: nat): nat
    requires |bad| == |loc| && m <= |loc| && dpr > 0
  {
    if m == 0 then 0
    else CountAliveInRack(loc, bad, rack, dpr, m - 1)
         + (if !bad[m - 1] && RackOf(loc[m - 1], dpr) == rack then 1 else 0)
  }

  function AliveIdxInRack(loc: seq<int>, bad: seq<bool>, rack: int, dpr: int, m: nat): seq<int>
    requires |bad| == |loc| && m <= |loc| && dpr > 0
  {
    if m == 0 then []
    else AliveIdxInRack(loc, bad, rack, dpr, m - 1)
         + (if !bad[m - 1] && RackOf(loc[m - 1], dpr) == rack then [m - 1] else [])
  }

  /** The last bad position holding disk, or 0 when there is none. */
  function FailIdx(loc: seq<int>, bad: seq<bool>, disk: int, m: nat): int
    requires |bad| == |loc| && m <= |loc|
  {
    if m == 0 then 0
    else if bad[m - 1] && loc[m - 1] == disk then m - 1
    else FailIdx(loc, bad, disk, m - 1)
  }

  /** The failure counts of one stripe, as the loss check reads them. */
  datatype Counts = Counts(
    failed: nat,          // bad chunks
    global: nat,          // bad global parities
    group0: nat,          // residue of group 0
    group1: nat)          // residue of group 1

  function CountsOf(bad: seq<bool>, l: int): Counts {
    Counts(CountBad(bad, |bad|), CountGlobalBad(bad, |bad|), Residue(bad, 0, l), Residue(bad, 1, l))
  }

  /** The tolerance test applied to counted failures. */
  predicate OverTolerance(code: Code, c: Counts) {
    if code.kind == Lrc then c.global + c.group0 + c.group1 > code.n - code.k - code.l
    else c.failed > code.n - code.k
  }

  /** The counts decide loss exactly as the closed-form rule does. */
  lemma OverToleranceIsLost(code: Code, bad: seq<bool>)
    ensures OverTolerance(code, CountsOf(bad, code.l)) <==> Lost(code, bad)
  {
  }

  /** Everything the repair scan reads off one stripe: the failure counts,
      the surviving chunks in the repairing disk's rack and their positions,
      and the position of the repairing disk. */
  datatype Scan = Scan(counts: Counts, aliveSameRack: nat, aliveIdx: seq<int>, failIdx: int)

  function ScanOf(loc: seq<int>, bad: seq<bool>, l: int, disk: int, rack: int, dpr: int): Scan
    requires |bad| == |loc| && dpr > 0
  {
    Scan(CountsOf(bad, l), CountAliveInRack(loc, bad, rack, dpr, |loc|),
         AliveIdxInRack(loc, bad, rack, dpr, |loc|), FailIdx(loc, bad, disk, |loc|))
  }

  /** The disks at the bad positions of a stripe, in position order. */
  function BadDisks(loc: seq<int>, bad: seq<bool>): (r: seq<int>)
    requires |bad| == |loc|
    ensures forall d :: d in r <==> exists p :: 0 <= p < |loc| && bad[p] && loc[p] == d
  {
    if |loc| == 0 then []
    else
      var r := BadDisks(loc[..|loc| - 1], bad[..|bad| - 1]);
      assert forall p :: 0 <= p < |loc| - 1 ==> loc[..|loc| - 1][p] == loc[p] && bad[..|bad| - 1][p] == bad[p];
      r + (if bad[|bad| - 1] then [loc[|loc| - 1]] else [])
  }

  // ---------------------------------------------------------------------
  // Facts about the counts.

  /** Once the local parity of a group has been passed, no later position
      belongs to that group. */
  lemma {:induction false} GroupCountSettles(bad: seq<bool>, gid: nat, m: nat)
    requires gid < 2 && LrcLocalParity[gid] <= m <= |bad|
    ensures CountGroupBad(bad, gid, m) == CountGroupBad(bad, gid, LrcLocalParity[gid])
  {
    if m > LrcLocalParity[gid] {
      GroupCountSettles(bad, gid, m - 1);
      assert !InGroup(m - 1, gid);
    }
  }

  lemma ResidueAtEnd(bad: seq<bool>, gid: nat, l: int)
    requires gid < 2
    ensures ResidueAt(bad, gid, l, |bad|) == Residue(bad, gid, l)
  {
    if LrcLocalParity[gid] < |bad| {
      GroupCountSettles(bad, gid, |bad|);
    }
  }

  lemma {:induction false} CountBadBounds(bad: seq<bool>, m: nat)
    requires m <= |bad|
    ensures CountGlobalBad(bad, m) <= CountBad(bad, m)
    ensures CountGroupBad(bad, 0, m) + CountGroupBad(bad, 1, m) + CountGlobalBad(bad, m) <= CountBad(bad, m)
    ensures CountBad(bad, m) <= m
  {
    if m > 0 {
      CountBadBounds(bad, m - 1);
    }
  }

  /** The LRC sum never exceeds the number of bad chunks. */
  lemma LrcSumAtMostFailed(bad: seq<bool>, l: int)
    ensures LrcSum(bad, l) <= CountBad(bad, |bad|)
  {
    CountBadBounds(bad, |bad|);
  }

  /** The mask with exactly one bad position p. */
  function OnlyBad(len: nat, p: int): (bad: seq<bool>)
    ensures |bad| == len
  {
    seq(len, q => q == p)
  }

  lemma {:induction false} OnlyBadCounts(len: nat, p: nat, m: nat)
    requires p < len && m <= len
    ensures CountBad(OnlyBad(len, p), m) == (if p < m then 1 else 0)
    ensures CountGlobalBad(OnlyBad(len, p), m) == (if p < m && IsGlobalParity(p) then 1 else 0)
    ensures CountGroupBad(OnlyBad(len, p), 0, m) == (if p < m && InGroup(p, 0) then 1 else 0)
    ensures CountGroupBad(OnlyBad(len, p), 1, m) == (if p < m && InGroup(p, 1) then 1 else 0)
  {
    if m > 0 {
      OnlyBadCounts(len, p, m - 1);
    }
  }

  /** Replication and RS: a stripe is lost exactly when more than n - k of
      its chunks are bad, so exactly n - k failures are always survived. */
  lemma ThresholdRule(code: Code, bad: seq<bool>)
    requires code.kind != Lrc
    ensures Lost(code, bad) <==> CountBad(bad, |bad|) > code.n - code.k
    ensures CountBad(bad, |bad|) == code.n - code.k ==> !Lost(code, bad)
  {
  }

  /** LRC: a single failed data chunk whose group's local parity survives is
      covered by that parity. */
  lemma LrcSingleDataChunkCovered(code: Code, len: nat, p: nat, gid: nat)
    requires code.kind == Lrc && gid < 2 && gid < code.l && code.n - code.k - code.l >= 0
    requires p < len && InGroup(p, gid) && LrcLocalParity[gid] < len
    ensures LrcSum(OnlyBad(len, p), code.l) == 0
    ensures !Lost(code, OnlyBad(len, p))
  {
    OnlyBadCounts(len, p, len);
  }

  /** LRC: one failed global parity on its own is survived whenever the code
      tolerates anything beyond its local parities. */
  lemma LrcSingleGlobalParitySurvived(code: Code, len: nat, p: nat)
    requires code.kind == Lrc && code.n - code.k - code.l >= 1
    requires p < len && IsGlobalParity(p)
    ensures LrcSum(OnlyBad(len, p), code.l) == 1
    ensures !Lost(code, OnlyBad(len, p))
  {
    OnlyBadCounts(len, p, len);
  }

  /** LRC with two groups and nothing to spare (n - k - l == 0): both global
      parities and one data chunk lost is a lost stripe, even with the data
      chunk covered by its local parity. */
  lemma LrcBothGlobalsAndDataLost(code: Code, d: nat)
    requires code.kind == Lrc && code.l == 2 && code.n - code.k - code.l == 0
    requires InGroup(d, 0)
    ensures var bad := seq(16, q => q == 7 || q == 15 || q == d);
            LrcSum(bad, 2) == 2 && Lost(code, bad)
  {
    var bad := seq(16, q => q == 7 || q == 15 || q == d);
    assert CountGlobalBad(bad, 16) == 2 by {
      var m := 0;
      while m < 16
        invariant m <= 16
        invariant CountGlobalBad(bad, m) == (if m > 15 then 2 else if m > 7 then 1 else 0)
      {
        m := m + 1;
      }
    }
    assert CountGroupBad(bad, 0, 16) == 1 by {
      var m := 0;
      while m < 16
        invariant m <= 16
        invariant CountGroupBad(bad, 0, m) == (if m > d then 1 else 0)
      {
        m := m + 1;
      }
    }
    assert CountGroupBad(bad, 1, 16) == 0 by {
      var m := 0;
      while m < 16
        invariant m <= 16
        invariant CountGroupBad(bad, 1, m) == 0
      {
        m := m + 1;
      }
    }
  }

  /** With l == 1 the second group is never counted: failures among positions
      8 to 13 do not contribute to the LRC sum at all. */
  lemma LrcSecondGroupIgnoredWhenOneGroup(len: nat, p: nat)
    requires p < len && InGroup(p, 1)
    ensures LrcSum(OnlyBad(len, p), 1) == 0
  {
    OnlyBadCounts(len, p, len);
  }

  // ---------------------------------------------------------------------
  // The scan as the source runs it: one pass over the positions.

  /** One pass over a stripe's positions, counting failures as the loss
      check's loop does; the result is the closed-form count. */
  method CountFailures(bad: seq<bool>, l: int) returns (c: Counts)
    ensures c == CountsOf(bad, l)
  {
    var failed, global, g0, g1 := 0, 0, 0, 0;
    var idx := 0;
    while idx < |bad|
      invariant 0 <= idx <= |bad|
      invariant failed == CountBad(bad, idx) && global == CountGlobalBad(bad, idx)
      invariant g0 == ResidueAt(bad, 0, l, idx) && g1 == ResidueAt(bad, 1, l, idx)
    {
      if bad[idx] {
        failed := failed + 1;
        if IsGlobalParity(idx) {
          global := global + 1;
        } else if !IsLocalParity(idx) {
          if 0 < l && InGroup(idx, 0) {
            g0 := g0 + 1;
          } else if 1 < l && InGroup(idx, 1) {
            g1 := g1 + 1;
          }
        }
      } else {
        if 0 < l && idx == LrcLocalParity[0] && g0 > 0 {
          g0 := g0 - 1;
        } else if 1 < l && idx == LrcLocalParity[1] && g1 > 0 {
          g1 := g1 - 1;
        }
      }
      idx := idx + 1;
    }
    ResidueAtEnd(bad, 0, l);
    ResidueAtEnd(bad, 1, l);
    c := Counts(failed, global, g0, g1);
  }

  /** The repair scan of a stripe: the failure counts, plus the surviving
      chunks in the repairing disk's rack and the repairing disk's position. */
  method ScanStripe(loc: seq<int>, bad: seq<bool>, l: int, disk: int, rack: int, dpr: int)
    returns (sc: Scan)
    requires |bad| == |loc| && dpr > 0
    ensures sc == ScanOf(loc, bad, l, disk, rack, dpr)
  {
    var counts := CountFailures(bad, l);
    var alive := 0;
    var aliveIdx: seq<int> := [];
    var failIdx := 0;
    var idx := 0;
    while idx < |loc|
      invariant 0 <= idx <= |loc|
      invariant alive == CountAliveInRack(loc, bad, rack, dpr, idx)
      invariant aliveIdx == AliveIdxInRack(loc, bad, rack, dpr, idx)
      invariant failIdx == FailIdx(loc, bad, disk, idx)
    {
      if bad[idx] {
        if disk == loc[idx] {
          failIdx := idx;
        }
      } else if RackOf(loc[idx], dpr) == rack {
        alive := alive + 1;
        aliveIdx := aliveIdx + [idx];
      }
      idx := idx + 1;
    }
    sc := Scan(counts, alive, aliveIdx, failIdx);
  }
}
