// The cluster-wide failed-disk bitmap of simulator/libc/state.cpp, with its
// derived failed count and two-valued health label.
module SystemStates {
  import opened Events

  /** Capacity of the fixed-size bitsets; setting a bit at or beyond it throws. */
  const MaxDisks: int := 400000

  datatype Health = Operational | Degraded

  /** The disks of the bitmap as an ascending list of the ids below n whose
      bit is set. */
  function FailedList(failed: set<int>, n: int): seq<int>
    decreases if n < 0 then 0 else n
  {
    if n <= 0 then [] else FailedList(failed, n - 1) + (if n - 1 in failed then [n - 1] else [])
  }

  predicate StrictlyAscending(s: seq<int>) {
    forall i, j :: 0 <= i < j < |s| ==> s[i] < s[j]
  }

  /** FailedList lists exactly the set bits below n, in strictly ascending order. */
  lemma {:induction false} FailedListSpec(failed: set<int>, n: int)
    ensures StrictlyAscending(FailedList(failed, n))
    ensures forall i :: i in FailedList(failed, n) <==> 0 <= i < n && i in failed
    decreases if n < 0 then 0 else n
  {
    if n > 0 {
      FailedListSpec(failed, n - 1);
      var prev := FailedList(failed, n - 1);
      var tail := if n - 1 in failed then [n - 1] else [];
      assert forall i :: 0 <= i < |prev| ==> prev[i] < n - 1 by {
        forall i | 0 <= i < |prev| ensures prev[i] < n - 1 {
          assert prev[i] in prev;
        }
      }
      assert FailedList(failed, n) == prev + tail;
    }
  }

  /** The health label the source derives from the failed count. */
  function HealthOf(numFailed: int): (h: Health)
    ensures h == Operational <==> numFailed == 0
  {
    if numFailed == 0 then Operational else Degraded
  }

  /** The failed bitmap after a batch: DiskFail sets the bits of the batch,
      DiskRepair clears them, the other known kinds leave it alone. */
  function BitsAfter(failed: set<int>, kind: EventKind, ids: seq<int>): set<int> {
    match kind
    case DiskFail => failed + IdSet(ids)
    case DiskRepair => failed - IdSet(ids)
    case _ => failed
  }

  /** Applying the same batch twice is the same as applying it once, and
      failing then repairing a healthy id restores the bitmap. */
  lemma BitsAfterIdempotent(failed: set<int>, kind: EventKind, ids: seq<int>)
    ensures BitsAfter(BitsAfter(failed, kind, ids), kind, ids) == BitsAfter(failed, kind, ids)
  {
  }

  lemma FailThenRepairRestores(failed: set<int>, id: int)
    requires id !in failed
    ensures BitsAfter(BitsAfter(failed, DiskFail, [id]), DiskRepair, [id]) == failed
  {
    assert IdSet([id]) == {id};
  }

  class State {
    var numDisks: int
    var failedBits: set<int>
    var availBits: set<int>
    var numFailed: int
    var health: Health

    /** The count is the number of set failed bits. */
    ghost predicate Valid()
      reads this
    {
      numFailed == |failedBits| && forall i :: i in failedBits ==> 0 <= i < MaxDisks
    }

    constructor (n: int)
      ensures numDisks == n && failedBits == {} && availBits == {}
      ensures numFailed == 0 && health == Operational
      ensures Valid()
    {
      numDisks := n;
      failedBits := {};
      availBits := {};
      numFailed := 0;
      health := Operational;
    }

    method UpdateSysState()
      modifies this`health
      ensures health == HealthOf(numFailed)
    {
      if numFailed == 0 {
        health := Operational;
      } else {
        health := Degraded;
      }
    }

    /** An id outside [0, numDisks) is only reported; one outside the bitset
        capacity would throw, which the callers never cause. */
    method FailDisk(id: int)
      requires Valid()
      requires 0 <= id < MaxDisks
      modifies this`failedBits, this`availBits, this`numFailed
      ensures Valid()
      ensures failedBits == old(failedBits) + {id}
      ensures availBits == old(availBits) - {id}
    {
      failedBits := failedBits + {id};
      availBits := availBits - {id};
      numFailed := |failedBits|;
    }

    method RepairDisk(id: int)
      requires Valid()
      requires 0 <= id < MaxDisks
      modifies this`failedBits, this`availBits, this`numFailed
      ensures Valid()
      ensures failedBits == old(failedBits) - {id}
      ensures availBits == old(availBits) + {id}
    {
      failedBits := failedBits - {id};
      availBits := availBits + {id};
      numFailed := |failedBits|;
    }

    /** FailDisk on every id of the batch, in order. */
    method FailEach(ids: seq<int>)
      requires Valid()
      requires forall i :: 0 <= i < |ids| ==> 0 <= ids[i] < MaxDisks
      modifies this`failedBits, this`availBits, this`numFailed
      ensures Valid()
      ensures failedBits == old(failedBits) + IdSet(ids)
      ensures availBits == old(availBits) - IdSet(ids)
    {
      ghost var failed0, avail0 := failedBits, availBits;
      for j := 0 to |ids|
        invariant Valid()
        invariant failedBits == failed0 + IdSet(ids[..j])
        invariant availBits == avail0 - IdSet(ids[..j])
      {
        FailDisk(ids[j]);
        IdsStep(ids, j, failed0, avail0);
      }
      assert ids[..|ids|] == ids;
    }

    /** RepairDisk on every id of the batch, in order. */
    method RepairEach(ids: seq<int>)
      requires Valid()
      requires forall i :: 0 <= i < |ids| ==> 0 <= ids[i] < MaxDisks
      modifies this`failedBits, this`availBits, this`numFailed
      ensures Valid()
      ensures failedBits == old(failedBits) - IdSet(ids)
      ensures availBits == old(availBits) + IdSet(ids)
    {
      ghost var failed0, avail0 := failedBits, availBits;
      for j := 0 to |ids|
        invariant Valid()
        invariant failedBits == failed0 - IdSet(ids[..j])
        invariant availBits == avail0 + IdSet(ids[..j])
      {
        RepairDisk(ids[j]);
        IdsStep(ids, j, failed0, avail0);
      }
      assert ids[..|ids|] == ids;
    }

    method UpdateState(kind: EventKind, ids: seq<int>) returns (ok: bool)
      requires Valid()
      requires forall i :: 0 <= i < |ids| ==> 0 <= ids[i] < MaxDisks
      modifies this`failedBits, this`availBits, this`numFailed, this`health
      ensures Valid()
      ensures ok <==> kind != Unlabelled
      ensures failedBits == BitsAfter(old(failedBits), kind, ids)
      ensures kind == DiskFail ==> availBits == old(availBits) - IdSet(ids)
      ensures kind == DiskRepair ==> availBits == old(availBits) + IdSet(ids)
      ensures kind != DiskFail && kind != DiskRepair ==> availBits == old(availBits)
      ensures ok ==> health == HealthOf(numFailed)
      ensures !ok ==> health == old(health)
    {
      if kind == DiskFail {
        FailEach(ids);
      } else if kind == DiskRepair {
        RepairEach(ids);
      } else if kind != DiskReplacement && kind != ChunkRepair {
        return false;
      }
      UpdateSysState();
      ok := true;
    }

    /** The ids below numDisks whose failed bit is set, ascending. */
    method GetFailedDisks() returns (ids: seq<int>)
      ensures ids == FailedList(failedBits, numDisks)
      ensures StrictlyAscending(ids)
      ensures forall i :: i in ids <==> 0 <= i < numDisks && i in failedBits
    {
      ids := [];
      var i := 0;
      while i < numDisks
        invariant 0 <= i || numDisks <= 0
        invariant i <= numDisks || i == 0
        invariant ids == FailedList(failedBits, i)
      {
        if i in failedBits {
          ids := ids + [i];
        }
        i := i + 1;
      }
      FailedListSpec(failedBits, numDisks);
    }
  }

  /** One more id of the batch added to (removed from) a set. */
  lemma IdsStep(ids: seq<int>, j: int, a: set<int>, b: set<int>)
    requires 0 <= j < |ids|
    ensures a + IdSet(ids[..j]) + {ids[j]} == a + IdSet(ids[..j + 1])
    ensures a - IdSet(ids[..j]) - {ids[j]} == a - IdSet(ids[..j + 1])
    ensures b + IdSet(ids[..j]) + {ids[j]} == b + IdSet(ids[..j + 1])
    ensures b - IdSet(ids[..j]) - {ids[j]} == b - IdSet(ids[..j + 1])
  {
    IdsSnoc(ids, j);
  }

  /** The ids of a prefix one longer: one more id. */
  lemma IdsSnoc(ids: seq<int>, j: int)
    requires 0 <= j < |ids|
    ensures IdSet(ids[..j + 1]) == IdSet(ids[..j]) + {ids[j]}
  {
    assert ids[..j + 1] == ids[..j] + [ids[j]];
  }

  /** The ids of a batch, as a set. */
  function IdSet(ids: seq<int>): set<int> {
    set i | i in ids
  }
}
