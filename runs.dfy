// Simulation::Run of simulator/libc/simulation.cpp as values: the totals it
// adds up over the iterations, the iterations as Reset seeds them, and the
// two places where the code as written departs from what it evidently means
// (Reset's disk loop and the counters of an iteration without a loss check).
module Runs {
  import opened Disks
  import opened Scheduling
  import opened Traces
  import Placements

  /** How many iterations Run's loop performs: `iter < num_iterations`. */
  function Iterations(n: int): nat {
    if n < 0 then 0 else n
  }

  /** Run's three totals: iterations that lost data, failed stripes, lost chunks. */
  datatype Totals = Totals(dataLoss: nat, failedStripes: nat, lostChunks: nat)

  /** What one iteration's loss checks last wrote, nothing when none ran. */
  function Counted(c: Option<Placements.Tally>): Placements.Tally {
    if c.Some? then c.value else Placements.Tally(0, 0)
  }

  /** The totals over the outcomes of the iterations, in order: RunIteration
      returns 1 on a loss, and the counters of every iteration are added. */
  function RunTotals(runs: seq<(Progress, Ending)>): (r: Totals)
    ensures r.dataLoss <= |runs|
  {
    if |runs| == 0 then Totals(0, 0, 0)
    else
      var t := RunTotals(runs[..|runs| - 1]);
      var last := runs[|runs| - 1];
      var c := Counted(last.0.tally);
      Totals(t.dataLoss + (if last.1 == Loss then 1 else 0),
             t.failedStripes + c.stripes, t.lostChunks + c.chunks)
  }

  /** No loss is reported exactly when no iteration ended in a loss, and
      every iteration is reported exactly when every one did. */
  lemma {:induction false} LossesCounted(runs: seq<(Progress, Ending)>)
    ensures RunTotals(runs).dataLoss == 0 <==> forall i :: 0 <= i < |runs| ==> runs[i].1 != Loss
    ensures RunTotals(runs).dataLoss == |runs| <==> forall i :: 0 <= i < |runs| ==> runs[i].1 == Loss
  {
    if |runs| > 0 {
      var front := runs[..|runs| - 1];
      LossesCounted(front);
      assert forall i :: 0 <= i < |front| ==> front[i] == runs[i];
    }
  }

  /** The totals after one more iteration. */
  lemma SumPush(runs: seq<(Progress, Ending)>, r: (Progress, Ending))
    ensures var t := RunTotals(runs);
            RunTotals(runs + [r]) == Totals(t.dataLoss + (if r.1 == Loss then 1 else 0),
                                            t.failedStripes + Counted(r.0.tally).stripes,
                                            t.lostChunks + Counted(r.0.tally).chunks)
  {
    assert (runs + [r])[..|runs|] == runs;
  }

  /** An outcome of RunIteration started as Reset leaves the simulation,
      over some layout and some position in the lifetime draws. */
  ghost predicate SeededRun(cfg: Config, trace: seq<FailedDisk>, fuel: nat, r: (Progress, Ending))
    requires ConfigOk(cfg)
  {
    exists lay: Layout, draws: nat ::
      LayoutOk(cfg, lay) && r == Iterate(cfg, lay, SeededStart(cfg, trace, draws), fuel)
  }

  /** The progress RunIteration starts from after Reset: the seeded state
      over pristine disks, an empty failed bitmap, no tally, time 0. */
  function SeededStart(cfg: Config, trace: seq<FailedDisk>, draws: nat): Progress
    requires ConfigOk(cfg)
  {
    Progress(Seeded(cfg, trace, PristineDisks(NumDisks(cfg)), draws), {}, None, 0.0)
  }

  /** Every outcome in `runs` is a SeededRun, stated iteration by iteration. */
  ghost predicate SeededRuns(cfg: Config, trace: seq<FailedDisk>, fuel: nat, runs: seq<(Progress, Ending)>)
    requires ConfigOk(cfg)
    decreases |runs|
  {
    |runs| == 0
    || (SeededRuns(cfg, trace, fuel, runs[..|runs| - 1]) && SeededRun(cfg, trace, fuel, runs[|runs| - 1]))
  }

  lemma SeededRunsPush(cfg: Config, trace: seq<FailedDisk>, fuel: nat, runs: seq<(Progress, Ending)>, r: (Progress, Ending))
    requires ConfigOk(cfg) && SeededRuns(cfg, trace, fuel, runs) && SeededRun(cfg, trace, fuel, r)
    ensures SeededRuns(cfg, trace, fuel, runs + [r])
  {
    assert (runs + [r])[..|runs|] == runs;
  }

  /** SeededRuns speaks of every outcome in `runs`. */
  lemma {:induction false} SeededRunAt(cfg: Config, trace: seq<FailedDisk>, fuel: nat, runs: seq<(Progress, Ending)>, i: int)
    requires ConfigOk(cfg) && SeededRuns(cfg, trace, fuel, runs) && 0 <= i < |runs|
    ensures SeededRun(cfg, trace, fuel, runs[i])
    decreases |runs|
  {
    if i < |runs| - 1 {
      var front := runs[..|runs| - 1];
      SeededRunAt(cfg, trace, fuel, front, i);
      assert front[i] == runs[i];
    }
  }

  // ---------------------------------------------------------------------
  // Counters of an iteration without a loss check.

  /** Run's accumulation as written: the counters are declared without a
      value and only the loss check writes them, so an iteration in which no
      loss check ran adds whatever they held; `junk[i]` is that value for
      iteration i. */
  function AsWrittenSum(runs: seq<(Progress, Ending)>, junk: seq<Placements.Tally>): (r: Totals)
    requires |junk| == |runs|
    ensures r.dataLoss == RunTotals(runs).dataLoss
  {
    if |runs| == 0 then Totals(0, 0, 0)
    else
      var t := AsWrittenSum(runs[..|runs| - 1], junk[..|runs| - 1]);
      var last := runs[|runs| - 1];
      var c := if last.0.tally.Some? then last.0.tally.value else junk[|runs| - 1];
      Totals(t.dataLoss + (if last.1 == Loss then 1 else 0),
             t.failedStripes + c.stripes, t.lostChunks + c.chunks)
  }

  /** The as-written totals exceed the counted ones exactly by the values
      left in the counters of the iterations without a loss check. */
  lemma {:induction false} AsWrittenSumExcess(runs: seq<(Progress, Ending)>, junk: seq<Placements.Tally>)
    requires |junk| == |runs|
    ensures AsWrittenSum(runs, junk).failedStripes == RunTotals(runs).failedStripes + Leftover(runs, junk).stripes
    ensures AsWrittenSum(runs, junk).lostChunks == RunTotals(runs).lostChunks + Leftover(runs, junk).chunks
  {
    if |runs| > 0 {
      AsWrittenSumExcess(runs[..|runs| - 1], junk[..|runs| - 1]);
    }
  }

  /** The counters' leftover values summed over the iterations without a
      loss check. */
  function Leftover(runs: seq<(Progress, Ending)>, junk: seq<Placements.Tally>): Placements.Tally
    requires |junk| == |runs|
  {
    if |runs| == 0 then Placements.Tally(0, 0)
    else
      var t := Leftover(runs[..|runs| - 1], junk[..|runs| - 1]);
      var c := if runs[|runs| - 1].0.tally.Some? then Placements.Tally(0, 0) else junk[|runs| - 1];
      Placements.Tally(t.stripes + c.stripes, t.chunks + c.chunks)
  }

  /** An iteration that starts with nothing queued and nothing waiting (no
      trace entry within the mission, say) runs no loss check: it ends at
      once and its tally is still None. */
  lemma NothingQueuedNoTally(cfg: Config, lay: Layout, st: Sched, fuel: nat)
    requires ConfigOk(cfg) && LayoutOk(cfg, lay)
    requires st.events == [] && st.waiting == [] && fuel > 0
    ensures Iterate(cfg, lay, Progress(st, {}, None, 0.0), fuel) == (Progress(st, {}, None, 0.0), Quiet)
  {
    var p := Progress(st, {}, None, 0.0);
    assert NextEvent(cfg, lay, st, 0.0) == Step(st, None);
    assert Iterate(cfg, lay, p, fuel) == Proceed(cfg, lay, p, fuel - 1);
  }

  /** So with a single such iteration whose counters held a stripe, the
      as-written total reports a failed stripe where none was counted. */
  lemma QuietIterationCountsLeftover(cfg: Config, lay: Layout, st: Sched, fuel: nat, junk: Placements.Tally)
    requires ConfigOk(cfg) && LayoutOk(cfg, lay)
    requires st.events == [] && st.waiting == [] && fuel > 0 && junk.stripes > 0
    ensures var runs := [Iterate(cfg, lay, Progress(st, {}, None, 0.0), fuel)];
            RunTotals(runs).failedStripes == 0 && AsWrittenSum(runs, [junk]).failedStripes == junk.stripes
  {
    NothingQueuedNoTally(cfg, lay, st, fuel);
    var runs := [Iterate(cfg, lay, Progress(st, {}, None, 0.0), fuel)];
    assert runs[..0] == [] && [junk][..0] == [];
  }

  // ---------------------------------------------------------------------
  // Reset's disk loop.

  /** Reset's disk loop as written: a new disk per id is pushed onto the
      disks of the previous iteration, which are never cleared. */
  function AsWrittenResetDisks(prev: seq<Clocks>, n: nat): (r: seq<Clocks>)
    ensures |r| == |prev| + n
    ensures forall d :: |prev| <= d < |r| ==> r[d] == Pristine()
  {
    prev + PristineDisks(n)
  }

  /** From the second Reset on, disk d is looked up at index d and so is the
      disk the previous iteration left there: a disk that ended an iteration
      Crashed starts the next one Crashed. */
  lemma SecondResetKeepsStaleDisks(prev: seq<Clocks>, d: int)
    requires 0 <= d < |prev|
    ensures StateOf(AsWrittenResetDisks(prev, |prev|), d) == StateOf(prev, d)
  {
  }

  /** The disks Reset is meant to build (and Simulation.Reset builds) are
      all Normal, whatever the previous iteration left. */
  lemma ResetDisksNormal(cfg: Config, trace: seq<FailedDisk>, draws: nat, d: int)
    requires ConfigOk(cfg)
    ensures StateOf(SeededStart(cfg, trace, draws).sched.disks, d) == Normal
  {
  }

  /** A crashed disk of one iteration is still crashed at the start of the
      next under the as-written Reset, and Normal under the intended one. */
  lemma CrashedDiskSurvivesReset(c: Clocks)
    requires c.state == Crashed
    ensures StateOf(AsWrittenResetDisks([c], 1), 0) == Crashed
    ensures StateOf([Pristine()], 0) == Normal
  {
    SecondResetKeepsStaleDisks([c], 0);
  }
}
