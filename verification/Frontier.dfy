/** Where the checkpoint goes: only forward, only to stamps the directory issued, and on a
    quiet directory exactly as far as the unusable records allow. */
module Frontier {
  import opened Records
  import opened Protocol
  import opened Pager
  import opened Snapshot
  import opened QuietWalk
  import opened Witness
  import opened Cycle

  /** A walk under way set out from the checkpoint the store still holds. */
  ghost predicate Anchored(s: Sys) { s.phase.Walking? ==> s.phase.current == s.world.checkpoint }

  lemma StepAdvances(c: Config, s: Sys, e: Event)
    requires c.pageSize > 0 && Anchored(s)
    ensures Anchored(Next(c, s, e)) && Next(c, s, e).world.checkpoint >= s.world.checkpoint
  {
    hide Visit, AfterPage, FinalDrift, Fetch, Remember, Touched, Watermark;
    if e.VisitNext? && Visiting(s.phase) {
      VisitKeepsCheckpoint(c, s.phase.full, s.world, s.phase.tally, s.phase.pending[0].user, e.fault);
    }
  }

  /** Over any run the checkpoint never retreats. */
  lemma {:induction false} NeverRetreats(c: Config, s: Sys, es: seq<Event>)
    requires c.pageSize > 0 && Anchored(s)
    ensures Anchored(Run(c, s, es)) && Run(c, s, es).world.checkpoint >= s.world.checkpoint
  {
    hide Next, Anchored;
    if es != [] {
      var n := |es| - 1;
      NeverRetreats(c, s, es[..n]);
      StepAdvances(c, Run(c, s, es[..n]), es[n]);
    }
  }

  // ---- whose stamp it is ----

  predicate StampIn(log: seq<Rec>, m: int) { exists k :: 0 <= k < |log| && log[k].user.lastModified == m }

  /** The marks of a walk under way are stamps of records it has applied. */
  ghost predicate MarksAreStamps(s: Sys) {
    var p := s.phase;
    p.Walking? ==> (p.tally.high == 0 || StampIn(p.hist.log, p.tally.high))
                   && (p.tally.earliest == 0 || StampIn(p.hist.log, p.tally.earliest))
  }

  lemma StampInLonger(log: seq<Rec>, r: Rec, m: int)
    ensures StampIn(log, m) ==> StampIn(log + [r], m)
    ensures StampIn(log + [r], r.user.lastModified)
  {
    if StampIn(log, m) {
      var k :| 0 <= k < |log| && log[k].user.lastModified == m;
      assert (log + [r])[k] == log[k];
    }
    assert (log + [r])[|log|] == r;
  }

  lemma VisitStamps(c: Config, full: bool, w: World, t: Tally, u: User, f: Fault)
    ensures
      var t' := Visit(c, full, w, t, u, f).tally;
      && (t'.high == t.high || t'.high == u.lastModified)
      && (t'.earliest == t.earliest || t'.earliest == u.lastModified)
  {}

  lemma StepStamps(c: Config, s: Sys, e: Event)
    requires c.pageSize > 0 && MarksAreStamps(s)
    ensures MarksAreStamps(Next(c, s, e))
  {
    hide Visit, AfterPage, FinalDrift, Fetch, StampIn, Watermark;
    if e.VisitNext? && Visiting(s.phase) {
      var p, r := s.phase, s.phase.pending[0];
      VisitStamps(c, p.full, s.world, p.tally, r.user, e.fault);
      StampInLonger(p.hist.log, r, p.tally.high);
      StampInLonger(p.hist.log, r, p.tally.earliest);
    }
  }

  lemma {:induction false} RunStamps(c: Config, s: Sys, es: seq<Event>)
    requires c.pageSize > 0 && s.phase.Idle?
    ensures MarksAreStamps(Run(c, s, es))
  {
    hide Next;
    if es != [] {
      RunStamps(c, s, es[..|es| - 1]);
      StepStamps(c, Run(c, s, es[..|es| - 1]), es[|es| - 1]);
    }
  }

  lemma LogGrows(c: Config, s: Sys, e: Event, r: Rec)
    requires c.pageSize > 0
    requires var p := Next(c, s, e).phase; p.Walking? && r in p.hist.log
    ensures s.phase.Walking? && (r in s.phase.hist.log || r in s.phase.pending)
  {}

  /** Whatever a walk has applied was read from the directory earlier in the run. */
  lemma {:induction false} LoggedWasRead(c: Config, s: Sys, es: seq<Event>, r: Rec) returns (m: nat)
    requires c.pageSize > 0 && s.phase.Idle?
    requires var p := Run(c, s, es).phase; p.Walking? && r in p.hist.log
    ensures WasRead(c, s, es, m, r.user)
  {
    hide Next;
    var n := |es| - 1;
    var q := Run(c, s, es[..n]);
    LogGrows(c, q, es[n], r);
    if q.phase.Walking? && r in q.phase.hist.log {
      m := LoggedWasRead(c, s, es[..n], r);
    } else {
      m := PendingWasRead(c, s, es[..n], r);
    }
    assert es[..n][..m] == es[..m];
  }

  /** The mark a moved checkpoint took. */
  lemma FinishTakesMark(c: Config, s: Sys, e: Event)
    requires c.pageSize > 0 && Anchored(s) && Next(c, s, e).world.checkpoint != s.world.checkpoint
    ensures s.phase.Walking? && s.phase.done && e.Finish? && e.saved && !c.dryRun
    ensures
      var cp := Next(c, s, e).world.checkpoint;
      cp != 0 && (cp == s.phase.tally.high || cp == s.phase.tally.earliest) && cp <= e.now + c.futureSkew
  {
    hide Visit, AfterPage, FinalDrift, Fetch, Remember, Touched;
    if e.VisitNext? && Visiting(s.phase) {
      VisitKeepsCheckpoint(c, s.phase.full, s.world, s.phase.tally, s.phase.pending[0].user, e.fault);
    }
  }

  /** A checkpoint that has moved is the stamp of a record the directory served, no further
      ahead of the local clock than the allowance: the local clock itself is never stored. */
  lemma {:induction false} CheckpointIsStamp(c: Config, s: Sys, es: seq<Event>)
    returns (k: nat, m: nat, u: User)
    requires c.pageSize > 0 && s.phase.Idle?
    requires Run(c, s, es).world.checkpoint != s.world.checkpoint
    ensures k < |es| && es[k].Finish? && es[k].saved
    ensures WasRead(c, s, es[..k], m, u)
    ensures Run(c, s, es).world.checkpoint == u.lastModified <= es[k].now + c.futureSkew
  {
    hide Next;
    var n := |es| - 1;
    var q := Run(c, s, es[..n]);
    if Run(c, s, es).world.checkpoint == q.world.checkpoint {
      k, m, u := CheckpointIsStamp(c, s, es[..n]);
      assert es[..n][..k] == es[..k];
    } else {
      NeverRetreats(c, s, es[..n]);
      RunStamps(c, s, es[..n]);
      FinishTakesMark(c, q, es[n]);
      var cp := Run(c, s, es).world.checkpoint;
      var j :| 0 <= j < |q.phase.hist.log| && q.phase.hist.log[j].user.lastModified == cp;
      k, u := n, q.phase.hist.log[j].user;
      m := LoggedWasRead(c, s, es[..n], q.phase.hist.log[j]);
    }
  }

  // ---- how far it goes ----

  ghost predicate HeldAt(us: seq<User>, m: int) {
    m != 0 && exists u :: u in us && !Usable(u) && u.lastModified == m
  }

  /** `m` overtakes no stamped unusable record, covers every usable one unless it is held at
      an unusable one, and goes no further than the usable ones reach. */
  ghost predicate IsWatermark(us: seq<User>, m: int) {
    && (forall u :: u in us && !Usable(u) && u.lastModified != 0 ==> m <= u.lastModified)
    && ((forall u :: u in us && Usable(u) ==> u.lastModified <= m) || HeldAt(us, m))
    && (m <= 0 || exists u :: u in us && Usable(u) && u.lastModified >= m)
  }

  /** Which leaves one value, as long as a stamp is later than the zero time. */
  lemma WatermarkIsUnique(us: seq<User>, m: int, n: int)
    requires IsWatermark(us, m) && IsWatermark(us, n)
    ensures m == n || (m <= 0 && n <= 0)
  {}

  lemma WatermarkOfMarks(us: seq<User>, t: Tally)
    requires IsHigh(us, t.high) && IsEarliest(us, t.earliest)
    ensures IsWatermark(us, Watermark(t))
  {}

  /** A successful cycle over a quiet directory moves the checkpoint to the watermark of
      what it selected, if that is news and not implausibly far ahead. */
  lemma QuietCycleMovesCheckpoint(c: Config, s: Sys, full: bool, es: seq<Event>, now: int, m: int)
    requires c.pageSize > 0 && !c.dryRun && s.phase.Idle? && DistinctIds(s.world.users) && s.world.checkpoint >= 0
    requires forall k :: 0 <= k < |es| ==> Quiet(es[k])
    requires var r := Run(c, NextBegin(c, s, full), es); r.phase.Walking? && r.phase.done
    requires IsWatermark(Selected(s.world.users, Since(c, s.world.checkpoint, full)), m)
    ensures
      var end := Next(c, Run(c, NextBegin(c, s, full), es), Finish(now, true));
      && end.phase.Idle? && end.phase.last.ok
      && end.world.checkpoint == end.phase.last.checkpoint
      && end.world.checkpoint == if s.world.checkpoint < m <= now + c.futureSkew then m else s.world.checkpoint
  {
    var cp, r := s.world.checkpoint, Run(c, NextBegin(c, s, full), es);
    hide Run, Next, Scan, DistinctIds, NextBegin, IsWatermark, Selected, Watermark, IsHigh, IsEarliest;
    var us := Selected(s.world.users, Since(c, cp, full));
    SinceKept(c, s, full, es);
    CurrentKept(c, s, full, es);
    QuietWalkAppliesSnapshot(c, s, full, es);
    ScanMarks(c, full, s.world, us);
    WatermarkOfMarks(us, r.phase.tally);
    WatermarkIsUnique(us, m, Watermark(r.phase.tally));
    FinishMoves(c, r, now);
  }

  lemma FinishMoves(c: Config, s: Sys, now: int)
    requires c.pageSize > 0 && !c.dryRun && s.phase.Walking? && s.phase.done
    requires s.phase.current == s.world.checkpoint >= 0
    ensures
      var end, m := Next(c, s, Finish(now, true)), Watermark(s.phase.tally);
      && end.phase.Idle? && end.phase.last.ok && end.world.checkpoint == end.phase.last.checkpoint
      && end.world.checkpoint == if s.world.checkpoint < m <= now + c.futureSkew then m else s.world.checkpoint
  {}

  lemma CurrentKept(c: Config, s: Sys, full: bool, es: seq<Event>)
    requires c.pageSize > 0 && s.phase.Idle?
    ensures var r := Run(c, NextBegin(c, s, full), es); r.phase.Walking? ==> r.phase.current == r.world.checkpoint
  {
    hide Run, Next;
    NeverRetreats(c, NextBegin(c, s, full), es);
  }

  // ---- what is reported ----

  /** A cycle that is stopped, or whose walk fails, reports a failure, the counts and observations
      it had come to, and no checkpoint; one whose checkpoint the store refuses reports a failure and
      the checkpoint it started from. None of them moves the checkpoint. */
  lemma FailuresAreReported(c: Config, s: Sys, e: Event)
    requires c.pageSize > 0 && Anchored(s) && s.phase.Walking? && Next(c, s, e).phase.Idle?
    requires !Next(c, s, e).phase.last.ok
    ensures
      var r := Next(c, s, e).phase.last;
      && Next(c, s, e).world.checkpoint == s.world.checkpoint
      && (e.Abort? ==> r == Report(false, s.phase.tally.stats, s.phase.tally.drift, 0))
      && (e.VisitNext? ==>
            Visiting(s.phase) &&
            var v := Visit(c, s.phase.full, s.world, s.phase.tally, s.phase.pending[0].user, e.fault);
            r == Report(false, v.tally.stats, v.tally.drift, 0))
      && (e.Finish? ==>
            !e.saved && r.stats == s.phase.tally.stats && r.checkpoint == s.phase.current
            && Target(c, s.phase, e.now) != s.phase.current)
  {
    hide Visit, AfterPage, FinalDrift, Fetch, PageIx, Touched, Remember, Target;
    if e.VisitNext? && Visiting(s.phase) {
      VisitKeepsCheckpoint(c, s.phase.full, s.world, s.phase.tally, s.phase.pending[0].user, e.fault);
    }
  }

  /** The end of a walk that has gone through is a success exactly when the store accepts the
      checkpoint or there is none to store; the checkpoint it reports is the one then in force. */
  lemma FinishSucceedsIff(c: Config, s: Sys, now: int, saved: bool)
    requires c.pageSize > 0 && Anchored(s) && s.phase.Walking? && s.phase.done
    ensures
      var end, m := Next(c, s, Finish(now, saved)), Watermark(s.phase.tally);
      var moves := m != 0 && s.phase.current < m <= now + c.futureSkew && !c.dryRun;
      && end.phase.Idle? && end.phase.last.checkpoint == end.world.checkpoint
      && (end.phase.last.ok <==> saved || !moves)
      && (end.world.checkpoint == if saved && moves then m else s.world.checkpoint)
  {
    hide Watermark, FinalDrift;
  }

  lemma VisitObservesNothing(c: Config, w: World, t: Tally, u: User, f: Fault)
    ensures Visit(c, false, w, t, u, f).tally.drift == t.drift
  {
    hide Apply;
  }

  /** A walk that is not a full one has observed no drift. */
  ghost predicate NoDrift(s: Sys) { s.phase.Walking? && !s.phase.full ==> s.phase.tally.drift == Drift([], [], []) }

  lemma StepSeesNoDrift(c: Config, s: Sys, e: Event)
    requires c.pageSize > 0 && NoDrift(s)
    ensures NoDrift(Next(c, s, e))
    ensures
      s.phase.Walking? && !s.phase.full && Next(c, s, e).phase.Idle? ==>
        Next(c, s, e).phase.last.drift == Drift([], [], [])
  {
    hide Visit, AfterPage, Fetch, PageIx, Touched, Remember, Target, Absent;
    if e.VisitNext? && Visiting(s.phase) && !s.phase.full {
      VisitObservesNothing(c, s.world, s.phase.tally, s.phase.pending[0].user, e.fault);
    }
  }

  /** However an incremental cycle ends, in any run, it reports no drift. */
  lemma {:induction false} IncrementalReportsNoDrift(c: Config, s: Sys, es: seq<Event>)
    requires c.pageSize > 0 && s.phase.Idle?
    ensures NoDrift(Run(c, s, es))
    ensures
      es != [] ==>
        var q := Run(c, s, es[..|es| - 1]);
        q.phase.Walking? && !q.phase.full && Run(c, s, es).phase.Idle? ==>
          Run(c, s, es).phase.last.drift == Drift([], [], [])
  {
    hide Next, NoDrift;
    if es == [] {
      NoDriftIdle(s);
    } else {
      IncrementalReportsNoDrift(c, s, es[..|es| - 1]);
      StepSeesNoDrift(c, Run(c, s, es[..|es| - 1]), es[|es| - 1]);
    }
  }

  lemma NoDriftIdle(s: Sys)
    requires s.phase.Idle?
    ensures NoDrift(s)
  {}
}
