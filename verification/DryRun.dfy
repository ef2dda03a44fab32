/** What a dry run predicts, and what a full walk's drift report means. */
module DryRun {
  import opened Records
  import opened Protocol
  import opened Effects
  import opened Snapshot
  import opened Cycle
  import opened Pager
  import opened QuietWalk
  import Ordering

  /** A dry cycle changes nothing and reports the counters of the real one; what the real
      one writes back or finds in conflict, it reports as write-backs. */
  lemma DryRunPredicts(c: Config, full: bool, w: World, us: seq<User>)
    requires DistinctIds(us) && !c.dryRun && Scan(c, full, w, NO_TALLY, us).ok && Ready(w, us)
    ensures
      var actual, dry := Scan(c, full, w, NO_TALLY, us), Scan(c.(dryRun := true), full, w, NO_TALLY, us);
      && dry.ok && dry.w == w
      && (forall k: Class :: Field(dry.tally.stats, k) == Field(actual.tally.stats, k))
      && dry.tally.stats.scanned == actual.tally.stats.scanned
      && dry.tally.stats.wroteBack == actual.tally.stats.wroteBack + actual.tally.stats.conflicts
      && dry.tally.stats.conflicts == 0
      && Watermark(dry.tally) == Watermark(actual.tally)
  {
    var d := c.(dryRun := true);
    ScanSucceeds(c, full, w, us);
    ScanSucceeds(d, full, w, us);
    DryScan(d, full, w, NO_TALLY, us);
    ScanCounts(c, full, w, NO_TALLY, us);
    ScanCounts(d, full, w, NO_TALLY, us);
    ScanMarks(c, full, w, us);
    ScanMarks(d, full, w, us);
    hide Scan, Ready, Count, Usable, DistinctIds, Field;
  }

  /** The drift of a full cycle over `us`: the walk's observations, then the enabled
      accounts it did not meet. */
  ghost function ReportedDrift(c: Config, w: World, us: seq<User>): Drift {
    var v := Scan(c, true, w, NO_TALLY, us);
    v.tally.drift.(absent := Absent(v.w.helpers, v.tally.seen))
  }

  /** The enabled accounts no record of the directory names, from the state before the walk. */
  ghost function AbsentBefore(h: Helppers, us: seq<User>): seq<string> {
    Ordering.Enumerate(set d | d in h && h[d].enabled && !Listed(us, d))
  }

  lemma SameAbsent(c: Config, w: World, us: seq<User>)
    requires DistinctIds(us) && Scan(c, true, w, NO_TALLY, us).ok
    ensures
      var v := Scan(c, true, w, NO_TALLY, us);
      Absent(v.w.helpers, v.tally.seen) == AbsentBefore(w.helpers, us)
  {
    var v := Scan(c, true, w, NO_TALLY, us);
    ScanObserves(c, w, us);
    if c.dryRun { DryScan(c, true, w, NO_TALLY, us); } else { ScanHelppers(c, true, w, NO_TALLY, us); }
    forall d | !Listed(us, d) ensures Get(v.w.helpers, d) == Get(w.helpers, d) {
      if !c.dryRun { assert Unnamed(us, d); }
    }
    assert (set d | d in v.w.helpers && v.w.helpers[d].enabled && d !in v.tally.seen)
        == (set d | d in w.helpers && w.helpers[d].enabled && !Listed(us, d));
    hide Scan, Usable, Listed;
  }

  /** Drift is exact: although the absent accounts are collected after the walk, the
      report is the one the state before it determines. Ids met only on unusable records
      count as met. */
  lemma DriftIsExact(c: Config, w: World, us: seq<User>)
    requires DistinctIds(us) && Scan(c, true, w, NO_TALLY, us).ok
    ensures
      ReportedDrift(c, w, us)
      == Drift(AbsentBefore(w.helpers, us), Ids(us, DrivingDown(w.helpers)), Ids(us, LackingExternalId(w.helpers)))
  {
    ScanObserves(c, w, us);
    SameAbsent(c, w, us);
    hide Scan, Usable;
  }

  /** Hence a dry full cycle reports the drift of the real one. */
  lemma DryRunPredictsDrift(c: Config, w: World, us: seq<User>)
    requires DistinctIds(us) && !c.dryRun && Scan(c, true, w, NO_TALLY, us).ok && Ready(w, us)
    ensures ReportedDrift(c.(dryRun := true), w, us) == ReportedDrift(c, w, us)
  {
    DryRunPredicts(c, true, w, us);
    DriftIsExact(c, w, us);
    DriftIsExact(c.(dryRun := true), w, us);
    hide Scan, Ready, ReportedDrift;
  }

  // ---- in the machine ----

  lemma DryStep(c: Config, s: Sys, e: Event)
    requires c.pageSize > 0 && c.dryRun && !e.Touch?
    ensures Next(c, s, e).world == s.world
  {}

  /** Whatever cycles a dry reconciler starts, ends, fails or is stopped in, it changes
      neither store, directory nor checkpoint. */
  lemma {:induction false} DryRunLeavesNoTrace(c: Config, s: Sys, es: seq<Event>)
    requires c.pageSize > 0 && c.dryRun
    requires forall k :: 0 <= k < |es| ==> !es[k].Touch?
    ensures Run(c, s, es).world == s.world
  {
    hide Next;
    if es != [] {
      var n := |es| - 1;
      DryRunLeavesNoTrace(c, s, es[..n]);
      DryStep(c, Run(c, s, es[..n]), es[n]);
    }
  }

  /** A quiet full cycle that is over reports the drift of its snapshot. */
  lemma OverReports(c: Config, s: Sys, es: seq<Event>)
    requires c.pageSize > 0 && s.phase.Idle? && DistinctIds(s.world.users)
    requires forall k :: 0 <= k < |es| ==> Quiet(es[k])
    requires var r := Run(c, NextBegin(c, s, true), es); r.phase.Walking? && r.phase.done
    ensures Scan(c, true, s.world, NO_TALLY, s.world.users).ok
    ensures FinalDrift(Run(c, NextBegin(c, s, true), es)) == ReportedDrift(c, s.world, s.world.users)
  {
    hide Run, Scan, DistinctIds, Absent, NextBegin;
    SinceKept(c, s, true, es);
    QuietWalkAppliesSnapshot(c, s, true, es);
    UnboundedSelectsAll(s.world.users);
  }

  /** The report of a quiet full cycle of the machine, real or dry, read off the store and
      the directory as they were when it began. */
  lemma FullCycleDriftIsExact(c: Config, s: Sys, es: seq<Event>, now: int, saved: bool)
    requires c.pageSize > 0 && s.phase.Idle? && DistinctIds(s.world.users)
    requires forall k :: 0 <= k < |es| ==> Quiet(es[k])
    requires var r := Run(c, NextBegin(c, s, true), es); r.phase.Walking? && r.phase.done
    ensures
      var end, h, us := Next(c, Run(c, NextBegin(c, s, true), es), Finish(now, saved)), s.world.helpers, s.world.users;
      && end.phase.Idle?
      && end.phase.last.drift == Drift(AbsentBefore(h, us), Ids(us, DrivingDown(h)), Ids(us, LackingExternalId(h)))
  {
    hide Run, Scan, DistinctIds, Absent, NextBegin, AbsentBefore, FinalDrift, ReportedDrift;
    OverReports(c, s, es);
    DriftIsExact(c, s.world, s.world.users);
  }

  /** A dry cycle next to the real one, both begun in the same state of a quiet directory:
      once both are over, the dry one has changed nothing and reports what the real one
      does, each conflict as a write-back. */
  lemma DryCyclePredictsCycle(c: Config, s: Sys, full: bool, es: seq<Event>, dryEs: seq<Event>)
    requires c.pageSize > 0 && !c.dryRun && s.phase.Idle? && DistinctIds(s.world.users) && ValidStore(s.world)
    requires forall k :: 0 <= k < |es| ==> Quiet(es[k])
    requires forall k :: 0 <= k < |dryEs| ==> Quiet(dryEs[k])
    requires var r := Run(c, NextBegin(c, s, full), es); r.phase.Walking? && r.phase.done
    requires
      var d := c.(dryRun := true);
      var q := Run(d, NextBegin(d, s, full), dryEs); q.phase.Walking? && q.phase.done
    ensures
      var d := c.(dryRun := true);
      var r, q := Run(c, NextBegin(c, s, full), es), Run(d, NextBegin(d, s, full), dryEs);
      && q.world == s.world
      && (forall k: Class :: Field(q.phase.tally.stats, k) == Field(r.phase.tally.stats, k))
      && q.phase.tally.stats.scanned == r.phase.tally.stats.scanned
      && q.phase.tally.stats.wroteBack == r.phase.tally.stats.wroteBack + r.phase.tally.stats.conflicts
      && q.phase.tally.stats.conflicts == 0
      && (full ==> FinalDrift(q) == FinalDrift(r))
  {
    var d, since := c.(dryRun := true), Since(c, s.world.checkpoint, full);
    var us := Selected(s.world.users, since);
    hide Run, Scan, DistinctIds, Absent, NextBegin, FinalDrift, ReportedDrift, Ready, ValidStore, Field, Selected;
    SinceKept(c, s, full, es);
    SinceKept(d, s, full, dryEs);
    QuietWalkAppliesSnapshot(c, s, full, es);
    QuietWalkAppliesSnapshot(d, s, full, dryEs);
    SelectedDistinct(s.world.users, since);
    SelectedReady(s.world, since);
    DryRunPredicts(c, full, s.world, us);
    if full {
      OverReports(c, s, es);
      OverReports(d, s, dryEs);
      UnboundedSelectsAll(s.world.users);
      DryRunPredictsDrift(c, s.world, s.world.users);
    }
  }
}
