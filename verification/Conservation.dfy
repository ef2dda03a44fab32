/** The counters of a cycle add up, and account for every change in the store. */
module Conservation {
  import opened Records
  import opened Protocol
  import opened Cycle
  import opened Pager
  import opened Effects

  /** Records classified by a cycle, one way or another. */
  function Classified(s: Stats): nat {
    s.malformed + s.skipped + s.created + s.enabled + s.disabled + s.updated + s.unmodified
  }

  /** How the stores `h` and `h'` differ, read off the counters `s` and `s'`. */
  ghost predicate Accounted(h: Helppers, s: Stats, h': Helppers, s': Stats) {
    && |h'| - |h| == s'.created - s.created
    && |EnabledIds(h')| - |EnabledIds(h)|
       == (s'.created + s'.enabled - s'.disabled) - (s.created + s.enabled - s.disabled)
  }

  lemma NewAccount(h: Helppers, d: string, p: Helpper)
    requires d !in h && p.enabled
    ensures |h[d := p]| == |h| + 1 && |EnabledIds(h[d := p])| == |EnabledIds(h)| + 1
  {
    assert h[d := p].Keys == h.Keys + {d};
    assert EnabledIds(h[d := p]) == EnabledIds(h) + {d};
  }

  lemma ChangedAccount(h: Helppers, d: string, p: Helpper)
    requires d in h
    ensures |h[d := p]| == |h|
    ensures |EnabledIds(h[d := p])| - |EnabledIds(h)| == (if p.enabled then 1 else 0) - (if h[d].enabled then 1 else 0)
  {
    assert h[d := p].Keys == h.Keys;
    assert EnabledIds(h[d := p]) - {d} == EnabledIds(h) - {d};
    assert EnabledIds(h) == if h[d].enabled then (EnabledIds(h) - {d}) + {d} else EnabledIds(h) - {d};
    var after := EnabledIds(h[d := p]);
    assert after == if p.enabled then (after - {d}) + {d} else after - {d};
  }

  /** A write-back moves neither accounts nor state-change counters. */
  lemma WriteBackNeutral(w: World, d: string, v: string, f: Fault, s: Stats)
    ensures
      var r := WriteBack(false, w, d, v, f, s);
      r.w.helpers == w.helpers && r.stats.(wroteBack := s.wroteBack, conflicts := s.conflicts) == s
  {}

  /** A record already counted as scanned is classified at most once, and exactly once
      unless its application fails. */
  ghost predicate ClassifiedOnce(s: Stats, s': Stats, ok: bool) {
    && s'.scanned == s.scanned
    && Classified(s) <= Classified(s') <= Classified(s) + 1
    && (ok ==> Classified(s') == Classified(s) + 1)
  }

  lemma KnownConserves(w: World, u: User, p: Helpper, f: Fault, s: Stats)
    requires Usable(u) && Get(w.helpers, u.id) == Some(p)
    ensures
      var a := ApplyKnown(false, w, u, p, f, s);
      Accounted(w.helpers, s, a.w.helpers, a.stats) && ClassifiedOnce(s, a.stats, a.ok)
  {
    hide WriteBack, PrimaryEmail, EnabledIds, Validate, InState;
    UsableHasFlag(u);
    var synced := SyncState(false, w, u, p, f, s);
    ChangedAccount(w.helpers, u.id, Restated(p, u.active.value, u.displayName, PrimaryEmail(u)));
    WriteBackNeutral(synced.w, u.id, p.id, f, synced.stats);
  }

  lemma NewConserves(w: World, u: User, f: Fault, s: Stats)
    requires Usable(u) && u.id !in w.helpers
    ensures
      var a := ApplyNew(false, w, u, f, s);
      Accounted(w.helpers, s, a.w.helpers, a.stats) && ClassifiedOnce(s, a.stats, a.ok)
  {
    hide WriteBack, PrimaryEmail, EnabledIds, Validate;
    UsableHasFlag(u);
    var w' := WithAccount(w, u.id, PrimaryEmail(u), u.displayName);
    NewAccount(w.helpers, u.id, w'.helpers[u.id]);
    WriteBackNeutral(w', u.id, w'.helpers[u.id].id, f, s.(created := s.created + 1));
  }

  lemma ApplyConserves(w: World, u: User, f: Fault, s: Stats)
    ensures
      var a := Apply(false, w, u, f, s);
      && Accounted(w.helpers, s, a.w.helpers, a.stats)
      && ClassifiedOnce(s.(scanned := s.scanned + 1), a.stats, a.ok)
  {
    hide ApplyKnown, ApplyNew, PrimaryEmail, EnabledIds;
    if Usable(u) && f != LookupFails {
      var s1 := s.(scanned := s.scanned + 1);
      match Get(w.helpers, u.id)
      case Some(p) => KnownConserves(w, u, p, f, s1);
      case None => NewConserves(w, u, f, s1);
    }
  }

  lemma VisitConserves(c: Config, full: bool, w: World, t: Tally, u: User, f: Fault)
    requires !c.dryRun
    ensures
      var v := Visit(c, full, w, t, u, f);
      && Accounted(w.helpers, t.stats, v.w.helpers, v.tally.stats)
      && ClassifiedOnce(t.stats.(scanned := t.stats.scanned + 1), v.tally.stats, v.ok)
  {
    hide Apply, EnabledIds;
    ApplyConserves(w, u, f, t.stats);
    ApplyConfined(w, u, f, t.stats);
  }

  // ---- over runs ----

  /** Every record scanned so far is classified, and the store has grown by what the
      counters say since the cycle began. */
  ghost predicate Balanced(s: Sys) {
    var p := s.phase;
    p.Walking? ==>
      && p.tally.stats.scanned == Classified(p.tally.stats)
      && Accounted(p.hist.helpers0, NO_STATS, s.world.helpers, p.tally.stats)
  }

  lemma AccountedChains(h0: Helppers, h: Helppers, s: Stats, h': Helppers, s': Stats)
    requires Accounted(h0, NO_STATS, h, s) && Accounted(h, s, h', s')
    ensures Accounted(h0, NO_STATS, h', s')
  {}

  /** What a cycle that has just ended may report. */
  ghost predicate Reckoned(h0: Helppers, h: Helppers, r: Report) {
    && Classified(r.stats) <= r.stats.scanned <= Classified(r.stats) + 1
    && (r.ok ==> r.stats.scanned == Classified(r.stats))
    && Accounted(h0, NO_STATS, h, r.stats)
  }

  /** The client's decision at the end of a page moves no counter and no account. */
  lemma EndOfPageKeeps(c: Config, w: World, p: Phase)
    requires p.Walking? && p.page != [] && c.pageSize > 0
    ensures
      var s' := EndOfPage(c, w, p);
      && s'.world == w
      && (if s'.phase.Walking? then s'.phase.tally == p.tally && s'.phase.hist == p.hist
          else s'.phase.last.stats == p.tally.stats && !s'.phase.last.ok)
  {}

  lemma ScanningClassifiesNothing(s: Stats, n: nat)
    ensures Classified(s.(scanned := n)) == Classified(s)
  {}

  lemma VisitBalances(c: Config, s: Sys, f: Fault)
    requires c.pageSize > 0 && !c.dryRun && Balanced(s) && Visiting(s.phase)
    ensures
      var s' := NextVisit(c, s, f);
      && Balanced(s')
      && (if s'.phase.Walking? then s'.phase.hist.helpers0 == s.phase.hist.helpers0
          else Reckoned(s.phase.hist.helpers0, s'.world.helpers, s'.phase.last))
  {
    hide Visit, AfterPage, Accounted, Classified, EndOfPage;
    var p, r := s.phase, s.phase.pending[0];
    var v := Visit(c, p.full, s.world, p.tally, r.user, f);
    VisitConserves(c, p.full, s.world, p.tally, r.user, f);
    ScanningClassifiesNothing(p.tally.stats, p.tally.stats.scanned + 1);
    AccountedChains(p.hist.helpers0, s.world.helpers, p.tally.stats, v.w.helpers, v.tally.stats);
    if v.ok && |p.pending| == 1 {
      EndOfPageKeeps(c, v.w, Logged(p, v.tally));
    }
  }

  lemma StepBalances(c: Config, s: Sys, e: Event)
    requires c.pageSize > 0 && !c.dryRun && Balanced(s)
    ensures Balanced(Next(c, s, e))
    ensures
      var s' := Next(c, s, e);
      s.phase.Walking? ==>
        if s'.phase.Walking? then s'.phase.hist.helpers0 == s.phase.hist.helpers0
        else Reckoned(s.phase.hist.helpers0, s'.world.helpers, s'.phase.last)
  {
    hide NextVisit, FinalDrift, Classified, EnabledIds, Fetch, PageIx, Touched, AllMatches;
    if e.VisitNext? && Visiting(s.phase) { VisitBalances(c, s, e.fault); }
    assert Classified(NO_STATS) == 0 by { NothingClassified(); }
  }

  lemma NothingClassified()
    ensures Classified(NO_STATS) == 0
  {}

  lemma StepBegins(c: Config, s: Sys, e: Event)
    requires c.pageSize > 0 && s.phase.Idle? && Next(c, s, e).phase.Walking?
    ensures e.Begin? && Next(c, s, e).phase.hist.helpers0 == s.world.helpers
  {}

  /** The walk under way began at event `m` of the run, with the accounts `helpers0`. */
  lemma {:induction false} Conserved(c: Config, s: Sys, es: seq<Event>) returns (m: nat)
    requires c.pageSize > 0 && !c.dryRun && s.phase.Idle?
    ensures Balanced(Run(c, s, es))
    ensures
      var r := Run(c, s, es);
      r.phase.Walking? ==>
        m < |es| && es[m].Begin? && Run(c, s, es[..m]).phase.Idle?
        && Run(c, s, es[..m]).world.helpers == r.phase.hist.helpers0
  {
    hide Next, EnabledIds, Classified, Accounted;
    m := 0;
    if es != [] {
      var n := |es| - 1;
      var q := Run(c, s, es[..n]);
      m := Conserved(c, s, es[..n]);
      StepBalances(c, q, es[n]);
      if q.phase.Walking? {
        assert es[..n][..m] == es[..m];
      } else if Run(c, s, es).phase.Walking? {
        StepBegins(c, q, es[n]);
        m := n;
      }
    }
  }

  /** When event `e` ends a cycle of any run, however many edits, failures and crashes
      came before: every record it scanned is classified, all but at most one when it
      failed, the accounts have grown by exactly `created` since it began, and the
      enabled ones by created + enabled - disabled. */
  lemma CycleConserves(c: Config, s: Sys, es: seq<Event>, e: Event) returns (m: nat)
    requires c.pageSize > 0 && !c.dryRun && s.phase.Idle?
    requires Run(c, s, es).phase.Walking? && Next(c, Run(c, s, es), e).phase.Idle?
    ensures m < |es| && es[m].Begin? && Run(c, s, es[..m]).phase.Idle?
    ensures
      var r, h := Next(c, Run(c, s, es), e), Run(c, s, es[..m]).world.helpers;
      var st := r.phase.last.stats;
      && Classified(st) <= st.scanned <= Classified(st) + 1
      && (r.phase.last.ok ==> st.scanned == Classified(st))
      && |r.world.helpers| == |h| + st.created
      && |EnabledIds(r.world.helpers)| == |EnabledIds(h)| + st.created + st.enabled - st.disabled
  {
    hide Next, Run, EnabledIds;
    m := Conserved(c, s, es);
    StepBalances(c, Run(c, s, es), e);
  }
}
