// The per-disk failure/repair state machine of simulator/libc/disk.cpp.
//
// The simulation keeps its disks in a vector by value, so the same state is
// given twice here: `Clocks` is the value (what the simulation stores and what
// the lemmas are about) and `Disk` is the object whose methods update the
// fields in place, each method proved to produce the value the corresponding
// transition function computes.
module Disks {

  datatype DiskState = Normal | Crashed

  /** The fields of one disk; times are hours of simulated time. */
  datatype Clocks = Clocks(
    state: DiskState,
    lastUpdate: real,     // last global time the clocks were advanced
    begin: real,          // global begin time
    clock: real,          // local time since the last reset
    unavailStart: real,   // when the current unavailability began
    unavailClock: real,   // accumulated unavailable time
    repairStart: real,    // when the current repair began
    repairClock: real)    // time spent in the current repair

  /** A freshly constructed disk: Normal, every clock at zero. */
  function Fresh(): Clocks {
    Clocks(Normal, 0.0, 0.0, 0.0, 0.0, 0.0, 0.0, 0.0)
  }

  /** InitClock(t): begin and last update move to t, every clock is zeroed. */
  function ClockInitialised(c: Clocks, t: real): (r: Clocks)
    ensures r.state == c.state
    ensures r.begin == t && r.lastUpdate == t
    ensures r.clock == 0.0 && r.unavailStart == 0.0 && r.unavailClock == 0.0
    ensures r.repairStart == 0.0 && r.repairClock == 0.0
  {
    c.(begin := t, lastUpdate := t, clock := 0.0, unavailStart := 0.0,
       unavailClock := 0.0, repairStart := 0.0, repairClock := 0.0)
  }

  /** UpdateClock(t): the local clock advances by the time since the last
      update; the repair clock accumulates while Crashed and is reset while
      Normal. */
  function ClockAdvanced(c: Clocks, t: real): Clocks {
    c.(clock := c.clock + (t - c.lastUpdate),
       repairClock := if c.state == Crashed then c.repairClock + (t - c.repairStart) else 0.0,
       lastUpdate := t)
  }

  /** FailDisk(t): always Crashed with a fresh repair clock; the
      unavailability start moves only when the disk was Normal. */
  function Failed(c: Clocks, t: real): Clocks {
    c.(unavailStart := if c.state == Normal then t else c.unavailStart,
       state := Crashed, repairClock := 0.0, repairStart := t)
  }

  /** RepairDisk(t): back to Normal, the unavailable period is banked. */
  function Repaired(c: Clocks, t: real): Clocks {
    c.(state := Normal, unavailClock := c.unavailClock + (t - c.unavailStart),
       begin := c.lastUpdate, clock := 0.0, repairClock := 0.0)
  }

  /** GetUnavailTime(t): banked unavailable time, plus the running period
      while Crashed. */
  function UnavailTime(c: Clocks, t: real): real {
    if c.state == Normal then c.unavailClock else c.unavailClock + (t - c.unavailStart)
  }

  lemma FailedIsCrashed(c: Clocks, t: real)
    ensures Failed(c, t).state == Crashed
    ensures Failed(c, t).repairStart == t && Failed(c, t).repairClock == 0.0
    ensures c.state == Normal ==> Failed(c, t).unavailStart == t
    ensures c.state == Crashed ==> Failed(c, t).unavailStart == c.unavailStart
    ensures Failed(c, t).unavailClock == c.unavailClock && Failed(c, t).clock == c.clock
  {
  }

  lemma RepairedIsNormal(c: Clocks, t: real)
    ensures Repaired(c, t).state == Normal
    ensures Repaired(c, t).unavailClock == c.unavailClock + (t - c.unavailStart)
    ensures Repaired(c, t).clock == 0.0 && Repaired(c, t).repairClock == 0.0
  {
  }

  /** Repairing a crashed disk at t does not change its unavailable time at t. */
  lemma RepairKeepsUnavailTime(c: Clocks, t: real)
    requires c.state == Crashed
    ensures UnavailTime(Repaired(c, t), t) == UnavailTime(c, t)
  {
  }

  /** Failing an already crashed disk does not change its unavailable time. */
  lemma RefailKeepsUnavailTime(c: Clocks, t: real, t': real)
    requires c.state == Crashed
    ensures UnavailTime(Failed(c, t), t') == UnavailTime(c, t')
  {
  }

  /** Unavailable time never decreases while the clock runs forward. */
  lemma UnavailTimeMonotone(c: Clocks, t: real, t': real)
    requires c.state == Crashed ==> c.unavailStart <= t
    requires t <= t'
    ensures UnavailTime(c, t) <= UnavailTime(c, t')
  {
  }

  /** A whole outage: a fresh disk failed at f and repaired at r, then failed
      again (twice) and repaired again, has been unavailable for exactly the
      two outages. */
  lemma TwoOutages(f1: real, r1: real, f2: real, f2': real, r2: real)
    ensures var d := Repaired(Failed(Failed(Repaired(Failed(ClockInitialised(Fresh(), 0.0), f1), r1), f2), f2'), r2);
            UnavailTime(d, r2) == (r1 - f1) + (r2 - f2)
  {
  }

  class Disk {
    var state: DiskState
    var lastUpdate: real
    var begin: real
    var clock: real
    var unavailStart: real
    var unavailClock: real
    var repairStart: real
    var repairClock: real

    /** The disk's fields as a value. */
    function Snapshot(): Clocks
      reads this
    {
      Clocks(state, lastUpdate, begin, clock, unavailStart, unavailClock, repairStart, repairClock)
    }

    constructor ()
      ensures Snapshot() == Fresh()
    {
      state := Normal;
      lastUpdate, begin, clock := 0.0, 0.0, 0.0;
      unavailStart, unavailClock := 0.0, 0.0;
      repairStart, repairClock := 0.0, 0.0;
    }

    method InitClock(t: real)
      modifies this
      ensures Snapshot() == ClockInitialised(old(Snapshot()), t)
    {
      begin := t;
      lastUpdate := t;
      clock := 0.0;
      unavailStart := 0.0;
      unavailClock := 0.0;
      repairStart := 0.0;
      repairClock := 0.0;
    }

    method InitState()
      modifies this
      ensures Snapshot() == old(Snapshot()).(state := Normal)
    {
      state := Normal;
    }

    method UpdateClock(t: real)
      modifies this
      ensures Snapshot() == ClockAdvanced(old(Snapshot()), t)
    {
      clock := clock + (t - lastUpdate);
      if state == Crashed {
        repairClock := repairClock + (t - repairStart);
      } else {
        repairClock := 0.0;
      }
      lastUpdate := t;
    }

    method GetCurrState() returns (s: DiskState)
      ensures s == state
    {
      s := state;
    }

    method FailDisk(t: real)
      modifies this
      ensures Snapshot() == Failed(old(Snapshot()), t)
      ensures old(state) == Crashed ==> UnavailTime(Snapshot(), t) == old(UnavailTime(Snapshot(), t))
    {
      if state == Normal {
        unavailStart := t;
      }
      state := Crashed;
      repairClock := 0.0;
      repairStart := t;
    }

    method RepairDisk(t: real)
      modifies this
      ensures Snapshot() == Repaired(old(Snapshot()), t)
      ensures old(state) == Crashed ==> UnavailTime(Snapshot(), t) == old(UnavailTime(Snapshot(), t))
    {
      state := Normal;
      unavailClock := unavailClock + (t - unavailStart);
      begin := lastUpdate;
      clock := 0.0;
      repairClock := 0.0;
    }

    method GetUnavailTime(t: real) returns (u: real)
      ensures state == Normal ==> u == unavailClock
      ensures state == Crashed ==> u == unavailClock + (t - unavailStart)
    {
      if state == Normal {
        u := unavailClock;
      } else {
        u := unavailClock + (t - unavailStart);
      }
    }
  }
}
