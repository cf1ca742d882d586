// The per-stripe repair traffic of simulator/libc/simulation.cpp
// (ComputeRepairTrafficForStripe): how many chunks must cross racks to
// rebuild one stripe, by code type. The amounts are whole chunks, so the
// result is an integer; the caller converts it to a time.
module Traffic {
  import opened StripeRules
  import Placements

  /** C++ integer division, which truncates toward zero. */
  function CDiv(a: int, b: int): int
    requires b != 0
  {
    var q := (if a < 0 then -a else a) / (if b < 0 then -b else b);
    if (a >= 0) == (b > 0) then q else -q
  }

  lemma CDivOfPositives(a: int, b: int)
    requires a >= 0 && b > 0
    ensures CDiv(a, b) == a / b
  {
  }

  lemma CDivTruncates()
    ensures CDiv(-7, 2) == -3 && CDiv(7, -2) == -3 && CDiv(-7, -2) == 3 && CDiv(7, 2) == 3
  {
  }

  /** The LRC group a single failed position belongs to: the first group
      among the first l whose data positions or local parity hold it, and
      group 0 when none does. */
  function FailGroup(failIdx: int, l: int): (g: nat)
    ensures g < 2
  {
    if 0 < l && (InGroup(failIdx, 0) || failIdx == LrcLocalParity[0]) then 0
    else if 1 < l && (InGroup(failIdx, 1) || failIdx == LrcLocalParity[1]) then 1
    else 0
  }

  /** The alive same-rack chunks the single-failure LRC branch counts as
      usable for group gid. The comparison in the source tests the search
      result against the group's first element rather than its end, so every
      position except the group's first data position is counted. */
  function CountedInGroup(aliveIdx: seq<int>, gid: nat): nat
    requires gid < 2
  {
    if |aliveIdx| == 0 then 0
    else
      var c := aliveIdx[|aliveIdx| - 1];
      CountedInGroup(aliveIdx[..|aliveIdx| - 1], gid)
      + (if c != LrcDataGroup[gid][0] || c == LrcLocalParity[gid] then 1 else 0)
  }

  /** What the counter would be with the search compared against the group's
      end: the alive chunks in the group or at its local parity. */
  function InGroupOrParity(aliveIdx: seq<int>, gid: nat): nat
    requires gid < 2
  {
    if |aliveIdx| == 0 then 0
    else
      var c := aliveIdx[|aliveIdx| - 1];
      InGroupOrParity(aliveIdx[..|aliveIdx| - 1], gid)
      + (if InGroup(c, gid) || c == LrcLocalParity[gid] then 1 else 0)
  }

  /** max(0, need - have). */
  function Shortfall(need: int, have: int): (r: int)
    ensures r >= 0 && r >= need - have
    ensures r == 0 || r == need - have
  {
    if have < need then need - have else 0
  }

  /** Cross-rack chunks to download for one stripe. */
  function RepairTraffic(code: Code, numFailed: int, aliveSameRack: int, aliveIdx: seq<int>, failIdx: int): int {
    match code.kind
    case Replication => Shortfall(code.k, aliveSameRack)
    case ReedSolomon => Shortfall(code.k, aliveSameRack)
    case Lrc =>
      if numFailed == 1 then
        if IsGlobalParity(failIdx) then code.k - aliveSameRack
        else if code.l == 0 then 0
        else
          var gid := FailGroup(failIdx, code.l);
          Shortfall(CDiv(code.k, code.l), CountedInGroup(aliveIdx, gid))
      else Shortfall(code.k, aliveSameRack)
    case Drc =>
      if numFailed == 1 then
        if code.k == 5 && code.n == 9 then 1
        else if code.k == 6 && code.n == 9 then 2
        else 0
      else Shortfall(code.k, aliveSameRack)
    case OtherCode => 0
  }

  /** ComputeRepairTrafficForStripe with its two loops: the search for the
      failed chunk's group and the count of the rack mates it may use. */
  method ComputeRepairTraffic(code: Code, numFailed: int, aliveSameRack: int, aliveIdx: seq<int>, failIdx: int)
    returns (download: int)
    requires LayoutFits(code)
    ensures download == RepairTraffic(code, numFailed, aliveSameRack, aliveIdx, failIdx)
  {
    download := 0;
    match code.kind {
      case Replication =>
        if aliveSameRack < code.k {
          download := code.k - aliveSameRack;
        }
      case ReedSolomon =>
        if aliveSameRack < code.k {
          download := code.k - aliveSameRack;
        }
      case Lrc =>
        if numFailed == 1 {
          if failIdx == LrcGlobalParity[0] || failIdx == LrcGlobalParity[1] {
            download := code.k - aliveSameRack;
          } else if code.l != 0 {
            var failGid := 0;
            var gid := 0;
            var found := false;
            while gid < code.l && !found
              invariant 0 <= gid <= 2
              invariant !found ==> failGid == 0
              invariant !found ==> forall g :: 0 <= g < gid ==> !(InGroup(failIdx, g) || failIdx == LrcLocalParity[g])
              invariant found ==> failGid == FailGroup(failIdx, code.l)
              decreases 2 - gid, if found then 0 else 1
            {
              if failIdx in LrcDataGroup[gid] || failIdx == LrcLocalParity[gid] {
                failGid := gid;
                found := true;
              } else {
                gid := gid + 1;
              }
            }
            var counted := 0;
            for i := 0 to |aliveIdx|
              invariant counted == CountedInGroup(aliveIdx[..i], failGid)
            {
              var c := aliveIdx[i];
              if c != LrcDataGroup[failGid][0] {
                counted := counted + 1;
              } else if c == LrcLocalParity[failGid] {
                counted := counted + 1;
              }
              assert aliveIdx[..i + 1][..i] == aliveIdx[..i];
            }
            assert aliveIdx[..|aliveIdx|] == aliveIdx;
            if counted < CDiv(code.k, code.l) {
              download := CDiv(code.k, code.l) - counted;
            }
          }
        } else if aliveSameRack < code.k {
          download := code.k - aliveSameRack;
        }
      case Drc =>
        if numFailed == 1 {
          if code.k == 5 && code.n == 9 {
            download := 1;
          } else if code.k == 6 && code.n == 9 {
            download := 2;
          }
        } else if aliveSameRack < code.k {
          download := code.k - aliveSameRack;
        }
      case OtherCode =>
    }
  }

  // ---------------------------------------------------------------------
  // Properties.

  /** Replication, RS and every stripe with several bad chunks under LRC or
      DRC download exactly max(0, k - alive same rack). */
  lemma ThresholdTraffic(code: Code, numFailed: int, alive: int, aliveIdx: seq<int>, failIdx: int)
    requires code.kind == Replication || code.kind == ReedSolomon
             || ((code.kind == Lrc || code.kind == Drc) && numFailed != 1)
    ensures RepairTraffic(code, numFailed, alive, aliveIdx, failIdx) == Shortfall(code.k, alive)
    ensures 0 <= RepairTraffic(code, numFailed, alive, aliveIdx, failIdx)
    ensures alive >= 0 ==> RepairTraffic(code, numFailed, alive, aliveIdx, failIdx) <= (if code.k < 0 then 0 else code.k)
  {
  }

  /** DRC single-chunk repair costs 1 for (9,5), 2 for (9,6), nothing otherwise. */
  lemma DrcSingleChunk(code: Code, alive: int, aliveIdx: seq<int>, failIdx: int)
    requires code.kind == Drc
    ensures RepairTraffic(code, 1, alive, aliveIdx, failIdx)
            == (if code.n == 9 && code.k == 5 then 1 else if code.n == 9 && code.k == 6 then 2 else 0)
  {
  }

  /** Only a single failed LRC global parity can give a negative amount. */
  lemma TrafficNegativeOnlyForGlobalParity(code: Code, numFailed: int, alive: int, aliveIdx: seq<int>, failIdx: int)
    requires RepairTraffic(code, numFailed, alive, aliveIdx, failIdx) < 0
    ensures code.kind == Lrc && numFailed == 1 && IsGlobalParity(failIdx)
    ensures RepairTraffic(code, numFailed, alive, aliveIdx, failIdx) == code.k - alive
  {
  }

  /** The global-parity amount is not clamped: with more alive chunks in the
      rack than k, it is negative. */
  lemma GlobalParityTrafficUnclamped()
    ensures RepairTraffic(Code(Lrc, 16, 12, 2), 1, 13, [], 7) == -1
  {
  }

  /** A single failed data chunk or local parity downloads max(0, k/l - c),
      c the alive same-rack chunks the group counter counts. */
  lemma LrcSingleDataTraffic(code: Code, alive: int, aliveIdx: seq<int>, failIdx: int)
    requires code.kind == Lrc && code.l > 0 && !IsGlobalParity(failIdx)
    ensures RepairTraffic(code, 1, alive, aliveIdx, failIdx)
            == Shortfall(CDiv(code.k, code.l), CountedInGroup(aliveIdx, FailGroup(failIdx, code.l)))
  {
  }

  lemma {:induction false} CountedInGroupIsAllButFirst(aliveIdx: seq<int>, gid: nat)
    requires gid < 2
    ensures CountedInGroup(aliveIdx, gid) == |aliveIdx| - multiset(aliveIdx)[LrcDataGroup[gid][0]]
  {
    if |aliveIdx| > 0 {
      var front := aliveIdx[..|aliveIdx| - 1];
      CountedInGroupIsAllButFirst(front, gid);
      assert aliveIdx == front + [aliveIdx[|aliveIdx| - 1]];
    }
  }

  /** The counter and the group test it evidently stands for differ: a
      surviving global parity is counted for group 0, while the group's own
      first data chunk is not. */
  lemma GroupCounterQuirk()
    ensures CountedInGroup([15], 0) == 1 && InGroupOrParity([15], 0) == 0
    ensures CountedInGroup([0], 0) == 0 && InGroupOrParity([0], 0) == 1
  {
    assert [15][..0] == [] && [0][..0] == [];
  }

  /** Under the flat placement no surviving chunk shares the repairing disk's
      rack: every other chunk of the stripe is in another rack. */
  lemma {:induction false} SpreadLeavesNoRackMate(loc: seq<int>, bad: seq<bool>, disk: int, dpr: int, numDisks: int, m: nat)
    requires dpr > 0 && Placements.Spread(loc, |loc|, numDisks, dpr) && |bad| == |loc| && m <= |loc|
    requires exists p :: 0 <= p < |loc| && loc[p] == disk && bad[p]
    ensures CountAliveInRack(loc, bad, RackOf(disk, dpr), dpr, m) == 0
    ensures AliveIdxInRack(loc, bad, RackOf(disk, dpr), dpr, m) == []
  {
    if m > 0 {
      SpreadLeavesNoRackMate(loc, bad, disk, dpr, numDisks, m - 1);
      var p :| 0 <= p < |loc| && loc[p] == disk && bad[p];
      if m - 1 != p {
        assert RackOf(loc[m - 1], dpr) != RackOf(loc[p], dpr);
      }
    }
  }

  /** So under the flat placement a single failed LRC chunk, which has no
      alive rack mates, downloads k chunks for a global parity and k/l for
      any other position. */
  lemma SingleLrcTrafficWithoutRackMates(code: Code, failIdx: int)
    requires code.kind == Lrc && code.l > 0 && code.k >= 0
    ensures RepairTraffic(code, 1, 0, [], failIdx) == (if IsGlobalParity(failIdx) then code.k else code.k / code.l)
  {
    CDivOfPositives(code.k, code.l);
  }
}
