// The failure-trace extension of simulator/libc/trace.cpp. A trace is a list
// of (disk, failure time) entries covering one period of 17520 hours (two
// years); when the mission is longer, Replay repeats every entry once per
// further whole period. Reading the trace file is not part of this model: the
// entries arrive as a list.
module Traces {

  /** One trace entry: the disk's global id and when it failed, in hours. */
  datatype FailedDisk = FailedDisk(diskId: int, failTime: real)

  /** The period the trace covers, in hours. */
  const TracePeriod: real := 17520.0

  /** C++'s conversion of a double to int: truncation toward zero. */
  function Trunc(x: real): (n: int)
    ensures x >= 0.0 ==> n == x.Floor
    ensures x < 0.0 ==> n == -((-x).Floor)
  {
    if x >= 0.0 then x.Floor else -((-x).Floor)
  }

  /** An entry moved i periods later. */
  function Shifted(e: FailedDisk, period: real, i: int): FailedDisk {
    FailedDisk(e.diskId, e.failTime + period * (i as real))
  }

  /** The copies of one entry: shifted by 1, 2, …, n-1 periods. */
  function Copies(e: FailedDisk, period: real, n: int): (r: seq<FailedDisk>)
    ensures |r| == (if n < 1 then 0 else n - 1)
    ensures forall i :: 0 <= i < |r| ==> r[i] == Shifted(e, period, i + 1)
  {
    seq(if n < 1 then 0 else n - 1, i => Shifted(e, period, i + 1))
  }

  /** The entries Replay appends: the copies of every entry, entry by entry. */
  function Extension(entries: seq<FailedDisk>, period: real, n: int): seq<FailedDisk> {
    if |entries| == 0 then []
    else Extension(entries[..|entries| - 1], period, n) + Copies(entries[|entries| - 1], period, n)
  }

  /** The number of whole periods in the mission. */
  function Periods(missionTime: real, period: real): int
    requires period != 0.0
  {
    Trunc(missionTime / period)
  }

  class TraceList {
    /** The entries, in the order the file lists them. */
    var entries: seq<FailedDisk>

    constructor (entries: seq<FailedDisk>)
      ensures this.entries == entries
    {
      this.entries := entries;
    }
  }

  class Trace {
    const missionTime: real
    const period: real

    /** Trace(fname, mission_time): the period is fixed at 17520 hours. The
        file name only serves the file reading. */
    constructor (missionTime: real)
      ensures this.missionTime == missionTime && period == TracePeriod
    {
      this.missionTime := missionTime;
      period := TracePeriod;
    }

    /** Appends, after the existing entries, each entry shifted by i
        periods for every 1 <= i < n, n the whole periods in the mission. */
    method Replay(list: TraceList)
      requires period != 0.0
      modifies list
      ensures list.entries == old(list.entries) + Extension(old(list.entries), period, Periods(missionTime, period))
    {
      var n := Trunc(missionTime / period);
      var extended: seq<FailedDisk> := [];
      var source := list.entries;
      for j := 0 to |source|
        invariant extended == Extension(source[..j], period, n)
      {
        var e := source[j];
        var i := 1;
        while i < n
          invariant 1 <= i <= (if n < 1 then 1 else n)
          invariant extended == Extension(source[..j], period, n) + Copies(e, period, n)[..i - 1]
        {
          extended := extended + [FailedDisk(e.diskId, e.failTime + period * (i as real))];
          assert Copies(e, period, n)[..i] == Copies(e, period, n)[..i - 1] + [Shifted(e, period, i)];
          i := i + 1;
        }
        assert Copies(e, period, n)[..i - 1] == Copies(e, period, n);
        assert source[..j + 1][..j] == source[..j];
      }
      assert source[..|source|] == source;
      list.entries := list.entries + extended;
    }

    /** The end of ReadTrace once the file is read: Replay runs only when the
        mission is longer than one period. */
    method FinishRead(list: TraceList)
      requires period != 0.0
      modifies list
      ensures missionTime > period ==>
                list.entries == old(list.entries) + Extension(old(list.entries), period, Periods(missionTime, period))
      ensures missionTime <= period ==> list.entries == old(list.entries)
    {
      if missionTime > period {
        Replay(list);
      }
    }
  }

  // ---------------------------------------------------------------------
  // Properties of the extension.

  /** len*(n-1) entries are appended, and none when n <= 1. */
  lemma {:induction false} ExtensionLength(entries: seq<FailedDisk>, period: real, n: int)
    ensures |Extension(entries, period, n)| == |entries| * (if n < 1 then 0 else n - 1)
  {
    if |entries| > 0 {
      ExtensionLength(entries[..|entries| - 1], period, n);
      var c := if n < 1 then 0 else n - 1;
      assert |entries| * c == (|entries| - 1) * c + c;
    }
  }

  /** The copy of entry j shifted by i periods sits at j*(n-1) + (i-1): the
      copies are ordered by source entry, then by ascending shift. */
  lemma {:induction false} ExtensionAt(entries: seq<FailedDisk>, period: real, n: int, j: int, i: int)
    requires 0 <= j < |entries| && 1 <= i < n
    ensures (n - 1) * j + (i - 1) < |Extension(entries, period, n)|
    ensures Extension(entries, period, n)[(n - 1) * j + (i - 1)] == Shifted(entries[j], period, i)
  {
    var c := n - 1;
    var front := entries[..|entries| - 1];
    var head := Extension(front, period, n);
    var tail := Copies(entries[|entries| - 1], period, n);
    assert Extension(entries, period, n) == head + tail;
    ExtensionLength(front, period, n);
    var k := c * j + (i - 1);
    if j < |entries| - 1 {
      ExtensionAt(front, period, n, j, i);
      MulMono(j + 1, |front|, c);
      assert k < c * (j + 1);
      assert head[k] == Shifted(entries[j], period, i);
    } else {
      assert |head| == c * j;
      assert tail[i - 1] == Shifted(entries[j], period, i);
    }
  }

  lemma MulMono(a: int, b: int, c: int)
    requires a <= b && 0 <= c
    ensures c * a <= c * b
  {
  }

  /** Every appended entry is a copy of some entry shifted by a whole number
      of periods between 1 and n-1. */
  lemma {:induction false} ExtensionEntries(entries: seq<FailedDisk>, period: real, n: int, x: FailedDisk)
    requires x in Extension(entries, period, n)
    ensures exists j, i :: 0 <= j < |entries| && 1 <= i < n && x == Shifted(entries[j], period, i)
  {
    var front := entries[..|entries| - 1];
    var last := entries[|entries| - 1];
    if x in Extension(front, period, n) {
      ExtensionEntries(front, period, n, x);
      var j, i :| 0 <= j < |front| && 1 <= i < n && x == Shifted(front[j], period, i);
      assert front[j] == entries[j];
    } else {
      var c := Copies(last, period, n);
      var k :| 0 <= k < |c| && c[k] == x;
      assert x == Shifted(entries[|entries| - 1], period, k + 1);
    }
  }

  /** A mission of at most one period replays nothing; the guard in
      ReadTrace skips even the call. */
  lemma ShortMissionAddsNothing(entries: seq<FailedDisk>, missionTime: real)
    requires 0.0 <= missionTime < 2.0 * TracePeriod
    ensures Extension(entries, TracePeriod, Periods(missionTime, TracePeriod)) == []
  {
    assert Periods(missionTime, TracePeriod) <= 1;
    ExtensionLength(entries, TracePeriod, Periods(missionTime, TracePeriod));
  }
}
