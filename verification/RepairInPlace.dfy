/** A repair in place: an unusable record edited into a usable one under the stamp it had. Since the
    watermark was held back behind it, the repair is read whenever it is made. */
module RepairInPlace {
  import opened Records
  import opened Protocol
  import opened Pager
  import opened Effects
  import opened Cycle
  import opened NoLostUpdate
  import opened UnusableInView
  import opened PassedOver
  import opened Environs
  import opened CalmCycle
  import WrittenBack

  /** The walk holds the watermark at or before `t`, or will once it has applied its page. */
  ghost predicate Held(p: Phase, i: nat, t: int)
    requires p.Walking?
  {
    || (p.tally.earliest != 0 && p.tally.earliest <= t)
    || exists k :: 0 <= k < |p.pending| && IsUnusableEntry(p.pending[k], i, t)
  }

  predicate IsUnusableEntry(r: Rec, i: nat, t: int) { r.ix == i && !Usable(r.user) && r.user.lastModified == t }

  /** Record `i` is stamped `t` or later; if it was edited behind the walk under way, the walk holds
      the watermark back and its filter reaches `t`. */
  ghost predicate Repaired(c: Config, s: Sys, i: nat, t: int) {
    var p := s.phase;
    && i < |s.world.users| && s.world.users[i].lastModified >= t
    && (p.Walking? ==>
          && (p.done ==> p.pending == [])
          && (i in p.hist.late ==> Held(p, i, t) && Reaches(c, t, p.current)))
  }

  /** The edit itself. */
  lemma RepairHeld(c: Config, s: Sys, e: Event, i: nat, u: User)
    requires Fit(c, s) && Unread(s, i, u) && Unrepaired(u) && Edits(s, e) && IndexOf(s.world.users, e.id) == i
    requires e.at == u.lastModified && InView(c, u, s.world.checkpoint)
    ensures Repaired(c, NextTouch(s, e.id, e.at, e.after), i, u.lastModified)
  {
    hide Fit, Usable;
    var p := s.phase;
    if p.Walking? {
      assert p.current == s.world.checkpoint by { FitCurrent(c, s); }
      ServedSplit(p.hist.log, p.pending, i);
      if Served(p.pending, i) {
        var k :| 0 <= k < |p.pending| && p.pending[k].ix == i;
        assert IsUnusableEntry(p.pending[k], i, u.lastModified);
      }
      EditedInFilter(c, s, u);
    }
  }

  lemma FitCurrent(c: Config, s: Sys)
    requires Fit(c, s) && s.phase.Walking?
    ensures s.phase.current == s.world.checkpoint && s.phase.since == Since(c, s.phase.current, s.phase.full)
  {}

  lemma EditedInFilter(c: Config, s: Sys, u: User)
    requires Fit(c, s) && s.phase.Walking? && InView(c, u, s.world.checkpoint)
    ensures Matches(u, s.phase.since)
  {
    FitCurrent(c, s);
  }

  lemma VisitHolds(c: Config, s: Sys, f: Fault, i: nat, t: int)
    requires c.pageSize > 0 && Fit(c, s) && Visiting(s.phase) && Repaired(c, s, i, t) && t != 0
    ensures Repaired(c, NextVisit(c, s, f), i, t)
  {
    hide NextVisit, Visit, Usable, Reaches, DistinctIds, EntryFits;
    var p, q := s.phase, NextVisit(c, s, f).phase;
    VisitShape(c, s, f);
    VisitMoves(c, p.full, s.world, p.tally, p.pending[0].user, f);
    if q.Walking? && i in q.hist.late {
      if k :| 0 <= k < |p.pending| && IsUnusableEntry(p.pending[k], i, t) && k > 0 {
        assert q.pending[k - 1] == p.pending[k];
      }
    }
  }

  lemma TouchHolds(c: Config, s: Sys, e: Event, i: nat, t: int)
    requires e.Touch? && Repaired(c, s, i, t) && IndexOf(s.world.users, e.id) != i
    ensures Repaired(c, NextTouch(s, e.id, e.at, e.after), i, t)
  {
    hide Served, Matches, Reaches, Usable;
  }

  lemma StepHolds(c: Config, s: Sys, e: Event, i: nat, t: int)
    requires c.pageSize > 0 && Fit(c, s) && Repaired(c, s, i, t) && t != 0
    requires e.Touch? ==> IndexOf(s.world.users, e.id) != i
    ensures Repaired(c, Next(c, s, e), i, t)
  {
    hide NextVisit, NextTouch, FinalDrift, PageIx, AllMatches, Usable, Fit, Reaches, Fetch;
    if e.Touch? { TouchHolds(c, s, e, i, t); }
    if e.VisitNext? && Visiting(s.phase) { VisitHolds(c, s, e.fault, i, t); }
  }

  /** Event `m` of the run repairs record `i` in place; nothing else edits it. */
  ghost predicate RepairedAt(c: Config, s: Sys, es: seq<Event>, m: nat, i: nat)
    requires c.pageSize > 0
  {
    && m < |es| && i < |s.world.users| && Edits(Run(c, s, es[..m]), es[m])
    && es[m].at == s.world.users[i].lastModified
    && forall k :: 0 <= k < |es| && es[k].Touch? ==> EditsOnly(Run(c, s, es[..k]), es[k], i, k == m)
  }

  predicate EditsOnly(s: Sys, e: Event, i: nat, it: bool)
    requires e.Touch?
  {
    IndexOf(s.world.users, e.id) == i <==> it
  }

  lemma UpToRepair(c: Config, s: Sys, es: seq<Event>, m: nat, i: nat)
    requires c.pageSize > 0 && c.overlap > 0 && s.phase.Idle? && DistinctIds(s.world.users)
    requires KeepsFilterRun(c, s, es) && RepairedAt(c, s, es, m, i)
    requires Unrepaired(s.world.users[i]) && InView(c, s.world.users[i], s.world.checkpoint)
    ensures
      forall n :: 0 <= n <= m ==>
        Unread(Run(c, s, es[..n]), i, s.world.users[i])
        && InView(c, s.world.users[i], Run(c, s, es[..n]).world.checkpoint)
  {
    hide Next, KeepsFilter, DistinctIds, InView, Unread;
    var u := s.world.users[i];
    forall n | 0 <= n <= m
      ensures Unread(Run(c, s, es[..n]), i, u) && InView(c, u, Run(c, s, es[..n]).world.checkpoint)
    {
      assert forall k :: 0 <= k < n ==> es[..n][..k] == es[..k];
      assert forall k :: 0 <= k < n && es[k].Touch? ==> EditsOnly(Run(c, s, es[..k]), es[k], i, k == m);
      Spared(c, s, es[..n], i, u);
      UneditedStaysInView(c, s, es[..n], i);
      ViewOf(c, u, s, es[..n], i);
    }
  }

  lemma ViewOf(c: Config, u: User, s: Sys, es: seq<Event>, i: nat)
    requires c.pageSize > 0
    requires
      var w := Run(c, s, es).world;
      i < |w.users| && w.users[i] == u && i in AllMatches(w.users, Since(c, w.checkpoint, false))
    ensures InView(c, u, Run(c, s, es).world.checkpoint)
  {
    hide Run, AllMatches;
  }

  lemma {:induction false} AfterRepair(c: Config, s: Sys, es: seq<Event>, m: nat, i: nat)
    requires c.pageSize > 0 && c.overlap > 0 && s.phase.Idle? && DistinctIds(s.world.users)
    requires KeepsFilterRun(c, s, es) && RepairedAt(c, s, es, m, i)
    requires Unrepaired(s.world.users[i]) && InView(c, s.world.users[i], s.world.checkpoint)
    ensures Repaired(c, Run(c, s, es), i, s.world.users[i].lastModified)
    decreases |es|
  {
    hide Next, KeepsFilter, DistinctIds, InView, Unread, Repaired, Fit;
    var n, u := |es| - 1, s.world.users[i];
    var q := Run(c, s, es[..n]);
    assert forall k :: 0 <= k < n ==> es[..n][..k] == es[..k];
    RunFits(c, s, es[..n]);
    if m == n {
      UpToRepair(c, s, es, m, i);
      assert EditsOnly(Run(c, s, es[..n]), es[n], i, n == m);
      RepairHeld(c, q, es[n], i, u);
      TouchIsNext(c, q, es[n]);
    } else {
      AfterRepair(c, s, es[..n], m, i);
      assert es[n].Touch? ==> EditsOnly(Run(c, s, es[..n]), es[n], i, n == m);
      StepHolds(c, q, es[n], i, u.lastModified);
    }
  }

  lemma TouchIsNext(c: Config, s: Sys, e: Event)
    requires c.pageSize > 0 && e.Touch?
    ensures Next(c, s, e) == NextTouch(s, e.id, e.at, e.after)
  {}

  lemma HeldIsNotPassed(c: Config, s: Sys, e: Event, i: nat, t: int)
    requires c.overlap > 0 && t != 0 && Repaired(c, s, i, t)
    ensures !PassesOver(c, s, e, i)
  {
    hide Usable, Agrees;
  }

  lemma UnreadIsNotPassed(c: Config, s: Sys, e: Event, i: nat, u: User)
    requires Unread(s, i, u)
    ensures !PassesOver(c, s, e, i)
  {}

  /** A repair in place is never lost, whenever it is made: before, during or after the walks that
      read the unusable record, whatever fails, and whatever happens to the other records. */
  lemma RepairIsNeverLost(c: Config, s: Sys, es: seq<Event>, m: nat, i: nat)
    requires c.pageSize > 0 && c.overlap > 0 && !c.dryRun && s.phase.Idle? && DistinctIds(s.world.users)
    requires KeepsFilterRun(c, s, es) && RepairedAt(c, s, es, m, i)
    requires !Usable(s.world.users[i]) && s.world.users[i].lastModified != 0
    requires InView(c, s.world.users[i], s.world.checkpoint)
    ensures forall k :: 0 <= k <= |es| ==> NotLost(c, Run(c, s, es[..k]).world, i)
  {
    hide Run, KeepsFilter, DistinctIds, PassesOver, Usable, InView, Unread, Repaired;
    UpToRepair(c, s, es, m, i);
    forall k | 0 <= k < |es| ensures !PassesOver(c, Run(c, s, es[..k]), es[k], i) {
      if k <= m {
        UnreadIsNotPassed(c, Run(c, s, es[..k]), es[k], i, s.world.users[i]);
      } else {
        RepairPrefix(c, s, es, m, i, k);
        AfterRepair(c, s, es[..k], m, i);
        HeldIsNotPassed(c, Run(c, s, es[..k]), es[k], i, s.world.users[i].lastModified);
      }
    }
    RepairIsInView(c, s, es, m, i);
    assert NotLost(c, s.world, i) by { ViewIsNotLost(c, s.world, i); }
    NeverLostIff(c, s, es, i);
  }

  lemma ViewIsNotLost(c: Config, w: World, i: nat)
    requires i < |w.users| && InView(c, w.users[i], w.checkpoint)
    ensures NotLost(c, w, i)
  {}

  lemma RepairPrefix(c: Config, s: Sys, es: seq<Event>, m: nat, i: nat, k: nat)
    requires c.pageSize > 0 && m < k <= |es| && KeepsFilterRun(c, s, es) && RepairedAt(c, s, es, m, i)
    ensures KeepsFilterRun(c, s, es[..k]) && RepairedAt(c, s, es[..k], m, i)
  {
    hide Run, KeepsFilter, EditsOnly, Edits;
    assert forall j :: 0 <= j < k ==> es[..k][..j] == es[..j];
  }

  lemma RepairIsInView(c: Config, s: Sys, es: seq<Event>, m: nat, i: nat)
    requires c.pageSize > 0 && KeepsFilterRun(c, s, es) && RepairedAt(c, s, es, m, i)
    requires InView(c, s.world.users[i], Run(c, s, es[..m]).world.checkpoint)
    ensures EditsInViewRun(c, s, es, i)
  {
    hide Run, KeepsFilter;
    forall k | 0 <= k < |es| ensures EditsInView(c, Run(c, s, es[..k]), es[k], i) {
      assert es[k].Touch? ==> EditsOnly(Run(c, s, es[..k]), es[k], i, k == m);
    }
  }

  // ---- and it is applied ----

  /** So whatever happened since, the first calm cycle that succeeds leaves the account as the
      repaired record asks. */
  lemma RepairIsApplied(
    c: Config, s: Sys, es: seq<Event>, m: nat, i: nat, env: Env, full: bool, now: int, trace: seq<Event>)
    requires c.pageSize > 0 && c.overlap > 0 && !c.dryRun && s.phase.Idle? && DistinctIds(s.world.users)
    requires KeepsFilterRun(c, s, es) && RepairedAt(c, s, es, m, i) && ValidStore(s.world)
    requires !Usable(s.world.users[i]) && s.world.users[i].lastModified != 0
    requires InView(c, s.world.users[i], s.world.checkpoint)
    requires
      var x := Run(c, s, es);
      x.phase.Idle? && i < |x.world.users| && Usable(x.world.users[i]) && x.world.users[i].lastModified != 0
    requires Calm(env) && OneCycle(env, full, now, true, trace)
    requires var r := Run(c, Run(c, s, es), trace); r.phase.Idle? && r.phase.last.ok
    ensures Agrees(Run(c, s, es).world.users[i], Run(c, Run(c, s, es), trace).world.helpers)
  {
    hide Run, KeepsFilter, KeepsFilterRun, RepairedAt, ValidStore, Usable, InView, Calm, OneCycle, Agrees, DistinctIds;
    RepairIsNeverLost(c, s, es, m, i);
    assert es[..|es|] == es;
    RunFits(c, s, es);
    WrittenBack.RunKeepsStore(c, s, es);
    CalmCycleReconciles(c, Run(c, s, es), env, full, now, trace, i);
  }
}
