/** Unusable records stay in view, whatever has become of the other records: the hold-back
    alone sees to it. */
module UnusableInView {
  import opened Records
  import opened Protocol
  import opened Pager
  import opened Effects
  import opened Snapshot
  import opened Cycle
  import opened NoLostUpdate

  // ---- what every walk keeps ----

  ghost predicate EntryFits(w: World, since: int, r: Rec) {
    r.ix < |w.users| && r.user.id == w.users[r.ix].id && Matches(r.user, since)
  }

  ghost predicate Fit(c: Config, s: Sys) {
    var p := s.phase;
    && DistinctIds(s.world.users)
    && (p.Walking? ==>
          && p.pager.startIndex >= 1 && p.current == s.world.checkpoint
          && p.since == Since(c, p.current, p.full)
          && forall k :: 0 <= k < |p.pending| ==> EntryFits(s.world, p.since, p.pending[k]))
  }

  // ---- one record ----

  ghost predicate Unrepaired(u: User) { !Usable(u) && u.lastModified != 0 }

  /** The record stands beyond what the walk has asked for. */
  predicate Beyond(c: Config, w: World, p: Phase, i: nat)
    requires p.Walking? && i < |w.users|
  {
    && !p.done
    && (if p.pending == [] then Rank(w.users, p.since, i) >= p.pager.startIndex - 1
        else !LastPage(c, p) && Rank(w.users, p.since, i) >= p.pager.startIndex + |p.page| - 1)
  }

  /** The walk has met record `i` as `u` and holds the watermark back behind it, or has it on
      the page at hand, or will still ask for it. */
  ghost predicate Minded(c: Config, w: World, p: Phase, i: nat, u: User)
    requires p.Walking? && i < |w.users|
  {
    || (Rec(i, u) in p.hist.log && p.tally.earliest != 0 && p.tally.earliest <= u.lastModified)
    || Rec(i, u) in p.pending
    || Beyond(c, w, p, i)
  }

  /** Record `i` is still `u`, and in view. */
  ghost predicate Watched(c: Config, s: Sys, i: nat, u: User) {
    && i < |s.world.users| && s.world.users[i] == u && InView(c, u, s.world.checkpoint)
    && (s.phase.Walking? ==> Minded(c, s.world, s.phase, i, u) && (s.phase.done ==> s.phase.pending == []))
  }

  // ---- steps ----

  lemma VisitMoves(c: Config, full: bool, w: World, t: Tally, u: User, f: Fault)
    ensures
      var v := Visit(c, full, w, t, u, f);
      && Bumped(w.users, v.w.users, u.id) && v.w.checkpoint == w.checkpoint
      && (!Usable(u) ==> v.w == w)
      && (v.ok ==> v.tally.earliest == if Usable(u) then t.earliest else HoldBack(t.earliest, u.lastModified))
  {
    if c.dryRun { DryVisit(c, full, w, t, u, f); } else { VisitConfined(c, full, w, t, u, f); }
    if c.dryRun { hide ApplyKnown, ApplyNew; } else { hide Visit; }
  }

  lemma TouchFits(c: Config, s: Sys, e: Event)
    requires Fit(c, s) && e.Touch? && KeepsFilter(s, e)
    ensures Fit(c, NextTouch(s, e.id, e.at, e.after))
    ensures s.phase.Walking? ==> Grows(s.world.users, NextTouch(s, e.id, e.at, e.after).world.users, s.phase.since)
  {
    hide Remember;
  }

  /** What a visit leaves of the walk, whatever it does to the world. */
  lemma VisitShape(c: Config, s: Sys, f: Fault)
    requires c.pageSize > 0 && Visiting(s.phase) && s.phase.pager.startIndex >= 1
    ensures
      var p, q, w := s.phase, NextVisit(c, s, f).phase, NextVisit(c, s, f).world;
      var v := Visit(c, p.full, s.world, p.tally, p.pending[0].user, f);
      && w == v.w
      && (q.Walking? ==>
            && v.ok && q.tally == v.tally && q.hist == Logged(p, v.tally).hist && q.pending == p.pending[1..]
            && q.pager.startIndex >= 1 && q.current == p.current && q.since == p.since && q.full == p.full
            && (q.done ==> q.pending == []))
  {
    hide Visit;
  }

  lemma VisitFits(c: Config, s: Sys, f: Fault)
    requires c.pageSize > 0 && Fit(c, s) && Visiting(s.phase)
    ensures Fit(c, NextVisit(c, s, f))
  {
    hide NextVisit, Visit, Matches;
    var p, w' := s.phase, NextVisit(c, s, f).world;
    VisitShape(c, s, f);
    VisitMoves(c, p.full, s.world, p.tally, p.pending[0].user, f);
    forall k | 0 <= k < |p.pending| ensures EntryFits(w', p.since, p.pending[k]) {
      assert EntryFits(s.world, p.since, p.pending[k]);
    }
    assert forall k :: 0 <= k < |p.pending[1..]| ==> p.pending[1..][k] == p.pending[k + 1];
  }

  lemma ReadFits(c: Config, s: Sys)
    requires c.pageSize > 0 && Fit(c, s) && Reading(s.phase)
    ensures Fit(c, NextReadPage(c, s))
  {
    hide PageIx, AllMatches;
  }

  lemma StepFits(c: Config, s: Sys, e: Event)
    requires c.pageSize > 0 && Fit(c, s) && KeepsFilter(s, e)
    ensures Fit(c, Next(c, s, e))
  {
    hide NextTouch, NextVisit, NextReadPage, FinalDrift, KeepsFilter, DistinctIds;
    if e.Touch? { TouchFits(c, s, e); }
    if e.VisitNext? && Visiting(s.phase) { VisitFits(c, s, e.fault); }
    if e.ReadPage? && Reading(s.phase) { ReadFits(c, s); }
  }

  lemma {:induction false} RunFits(c: Config, s: Sys, es: seq<Event>)
    requires c.pageSize > 0 && s.phase.Idle? && DistinctIds(s.world.users) && KeepsFilterRun(c, s, es)
    ensures Fit(c, Run(c, s, es))
  {
    hide Next, KeepsFilter;
    if es != [] {
      var n := |es| - 1;
      assert forall k :: 0 <= k < n ==> es[..n][..k] == es[..k];
      RunFits(c, s, es[..n]);
      StepFits(c, Run(c, s, es[..n]), es[n]);
    }
  }

  lemma TouchShape(s: Sys, e: Event)
    requires e.Touch? && s.phase.Walking?
    ensures
      var p, q := s.phase, NextTouch(s, e.id, e.at, e.after).phase;
      q.Walking? && q == p.(hist := q.hist) && q.hist.log == p.hist.log
  {}

  lemma TouchWatches(c: Config, s: Sys, e: Event, i: nat, u: User)
    requires Fit(c, s) && e.Touch? && KeepsFilter(s, e) && Watched(c, s, i, u)
    requires var users := NextTouch(s, e.id, e.at, e.after).world.users; users[i] == u
    ensures Watched(c, NextTouch(s, e.id, e.at, e.after), i, u)
  {
    hide Rank, DistinctIds, EntryFits, Touched, Remember, Matches, Usable;
    TouchFits(c, s, e);
    TouchKeepsLength(s, e.id, e.at, e.after);
    if s.phase.Walking? {
      TouchShape(s, e);
      RankGrows(s.world.users, NextTouch(s, e.id, e.at, e.after).world.users, s.phase.since, i);
    }
  }

  lemma ReadWatches(c: Config, s: Sys, i: nat, u: User)
    requires c.pageSize > 0 && Fit(c, s) && Reading(s.phase) && Watched(c, s, i, u)
    ensures Watched(c, NextReadPage(c, s), i, u)
  {
    hide PageIx, AllMatches, Rank, DistinctIds, EntryFits;
    var p, p' := s.phase, NextReadPage(c, s).phase;
    assert Matches(u, p.since);
    var ix := PageIx(s.world.users, p.since, p.pager.startIndex, c.pageSize);
    var page := Fetch(s.world.users, ix);
    if Beyond(c, s.world, p, i) {
      if i in ix {
        var k :| 0 <= k < |ix| && ix[k] == i;
        assert page[k] == Rec(i, u);
      } else {
        BeyondThePage(s.world.users, p.since, p.pager.startIndex, c.pageSize, i);
      }
    }
  }

  /** What a record applied without failure leaves, before the client's decision. */
  lemma LoggedMinds(c: Config, w: World, p: Phase, w': World, t: Tally, i: nat, u: User)
    requires p.Walking? && p.pending != [] && !p.done && i < |w.users| == |w'.users| && Unrepaired(u)
    requires Minded(c, w, p, i, u) && Rank(w.users, p.since, i) <= Rank(w'.users, p.since, i)
    requires
      var r := p.pending[0].user;
      t.earliest == if Usable(r) then p.tally.earliest else HoldBack(p.tally.earliest, r.lastModified)
    ensures
      var p' := Logged(p, t);
      || (Rec(i, u) in p'.hist.log && t.earliest != 0 && t.earliest <= u.lastModified)
      || Rec(i, u) in p'.pending
      || (!LastPage(c, p) && Rank(w'.users, p.since, i) >= p.pager.startIndex + |p.page| - 1)
  {
    hide Rank, Usable, LastPage;
    assert p.pending == [p.pending[0]] + p.pending[1..];
  }

  lemma EndOfPageMinds(c: Config, w: World, p: Phase, i: nat, u: User)
    requires c.pageSize > 0 && p.Walking? && p.pending == [] && !p.done && p.page != [] && i < |w.users|
    requires
      || (Rec(i, u) in p.hist.log && p.tally.earliest != 0 && p.tally.earliest <= u.lastModified)
      || (!LastPage(c, p) && Rank(w.users, p.since, i) >= p.pager.startIndex + |p.page| - 1)
    ensures
      var s := EndOfPage(c, w, p);
      s.world == w && (s.phase.Walking? ==> Minded(c, w, s.phase, i, u) && s.phase.pending == [])
  {
    hide Rank;
  }

  lemma VisitWatches(c: Config, s: Sys, f: Fault, i: nat, u: User)
    requires c.pageSize > 0 && Fit(c, s) && Visiting(s.phase) && Watched(c, s, i, u) && Unrepaired(u)
    requires var users := NextVisit(c, s, f).world.users; |users| == |s.world.users| ==> users[i] == u
    ensures Watched(c, NextVisit(c, s, f), i, u)
  {
    hide Visit, Rank, DistinctIds, EntryFits, EndOfPage, Usable, InView, HoldBack;
    var p := s.phase;
    var v := Visit(c, p.full, s.world, p.tally, p.pending[0].user, f);
    VisitMoves(c, p.full, s.world, p.tally, p.pending[0].user, f);
    if v.ok {
      BumpedGrows(s.world.users, v.w.users, p.pending[0].user.id, p.since);
      RankGrows(s.world.users, v.w.users, p.since, i);
      LoggedMinds(c, s.world, p, v.w, v.tally, i, u);
      if |p.pending| == 1 { EndOfPageMinds(c, v.w, Logged(p, v.tally), i, u); }
    }
  }

  /** A walk that has met the record leaves it in view wherever it takes the checkpoint. */
  lemma FinishWatches(c: Config, s: Sys, now: int, saved: bool, i: nat, u: User)
    requires c.pageSize > 0 && c.overlap > 0 && Fit(c, s) && Watched(c, s, i, u)
    requires s.phase.Walking? && s.phase.done
    ensures Watched(c, NextFinish(c, s, now, saved), i, u)
  {
    hide FinalDrift, Usable;
  }

  lemma StepWatches(c: Config, s: Sys, e: Event, i: nat, u: User)
    requires c.pageSize > 0 && c.overlap > 0 && Fit(c, s) && KeepsFilter(s, e)
    requires Watched(c, s, i, u) && Unrepaired(u)
    requires var users := Next(c, s, e).world.users; i < |users| ==> users[i] == u
    ensures Watched(c, Next(c, s, e), i, u)
  {
    hide NextTouch, NextVisit, NextReadPage, NextFinish, KeepsFilter, Fit, Unrepaired;
    match e
    case Touch(id, at, after) =>
      TouchKeepsLength(s, id, at, after);
      TouchWatches(c, s, e, i, u);
    case ReadPage => if Reading(s.phase) { ReadWatches(c, s, i, u); }
    case VisitNext(f) => if Visiting(s.phase) { VisitWatches(c, s, f, i, u); }
    case Finish(now, saved) => if s.phase.Walking? && s.phase.done { FinishWatches(c, s, now, saved, i, u); }
    case _ =>
  }

  lemma TouchKeepsLength(s: Sys, id: string, at: int, after: User)
    ensures |NextTouch(s, id, at, after).world.users| == |s.world.users|
  {}

  // ---- the theorems ----

  /** From state `m` of the run on, record `i` is `u`. */
  ghost predicate Stays(c: Config, s: Sys, es: seq<Event>, m: nat, i: nat, u: User)
    requires c.pageSize > 0
  {
    forall k :: m <= k <= |es| ==> Is(Run(c, s, es[..k]).world, i, u)
  }

  predicate Is(w: World, i: nat, u: User) { i < |w.users| && w.users[i] == u }

  /** A cycle has just read the record, an incremental one or one whose filter would not have
      mattered, or none is under way and the next incremental one would read it. */
  ghost predicate Noticed(c: Config, s: Sys, i: nat, u: User) {
    && Is(s.world, i, u)
    && (if s.phase.Idle? then InView(c, u, s.world.checkpoint)
        else !s.phase.done && Rec(i, u) in s.phase.pending && (s.phase.full ==> InView(c, u, s.world.checkpoint)))
  }

  lemma NoticedIsWatched(c: Config, s: Sys, i: nat, u: User)
    requires Fit(c, s) && Noticed(c, s, i, u)
    ensures Watched(c, s, i, u)
  {
    if s.phase.Walking? {
      var k :| 0 <= k < |s.phase.pending| && s.phase.pending[k] == Rec(i, u);
      assert EntryFits(s.world, s.phase.since, s.phase.pending[k]);
    }
    hide DistinctIds;
  }

  lemma StaysPrefix(c: Config, s: Sys, es: seq<Event>, m: nat, i: nat, u: User, n: nat)
    requires c.pageSize > 0 && m <= n <= |es| && Stays(c, s, es, m, i, u)
    ensures Stays(c, s, es[..n], m, i, u) && Is(Run(c, s, es[..n]).world, i, u)
  {
    hide Run, Is;
    assert forall k :: 0 <= k <= n ==> es[..n][..k] == es[..k];
  }

  lemma {:induction false} WatchedOn(c: Config, s: Sys, es: seq<Event>, m: nat, i: nat, u: User)
    requires c.pageSize > 0 && c.overlap > 0 && s.phase.Idle? && DistinctIds(s.world.users)
    requires KeepsFilterRun(c, s, es) && m <= |es| && Unrepaired(u)
    requires Noticed(c, Run(c, s, es[..m]), i, u) && Stays(c, s, es, m, i, u)
    ensures Watched(c, Run(c, s, es), i, u)
    decreases |es|
  {
    hide Run, KeepsFilter, Watched, Noticed, DistinctIds, Unrepaired, Fit, Stays;
    assert es[..|es|] == es;
    if m == |es| {
      RunFits(c, s, es);
      NoticedIsWatched(c, Run(c, s, es), i, u);
    } else {
      var n := |es| - 1;
      var q := Run(c, s, es[..n]);
      assert es[..n][..m] == es[..m];
      PrefixKeepsFilter(c, s, es, n);
      StaysPrefix(c, s, es, m, i, u, n);
      StaysPrefix(c, s, es, m, i, u, |es|);
      WatchedOn(c, s, es[..n], m, i, u);
      RunFits(c, s, es[..n]);
      assert es == es[..n] + [es[n]];
      RunOne(c, s, es[..n], es[n]);
      StepWatches(c, q, es[n], i, u);
    }
  }

  /** Once an incremental cycle has read a stamped unusable record, or would read it next, the
      record passes the filter of every later incremental cycle for as long as it does not
      change: whatever cycles of both kinds succeed, fail or are stopped meanwhile, and
      whatever edits of other records they lose. */
  lemma StaysInView(c: Config, s: Sys, es: seq<Event>, m: nat, i: nat, u: User)
    requires c.pageSize > 0 && c.overlap > 0 && s.phase.Idle? && DistinctIds(s.world.users)
    requires KeepsFilterRun(c, s, es) && m <= |es| && !Usable(u) && u.lastModified != 0
    requires Noticed(c, Run(c, s, es[..m]), i, u) && Stays(c, s, es, m, i, u)
    ensures
      var w := Run(c, s, es).world;
      Is(w, i, u) && InView(c, u, w.checkpoint) && i in AllMatches(w.users, Since(c, w.checkpoint, false))
  {
    hide Run, KeepsFilterRun, Noticed, DistinctIds, Usable, Minded, Stays;
    WatchedOn(c, s, es, m, i, u);
    var w := Run(c, s, es).world;
    RankIsPosition(w.users, Since(c, w.checkpoint, false), i);
  }

  // ---- nothing but an edit changes it ----

  /** Whatever the walk has of record `i` on its page is `u`, and if it has met the record it
      holds the watermark back behind it. */
  ghost predicate Unread(s: Sys, i: nat, u: User) {
    var p := s.phase;
    && Is(s.world, i, u)
    && (p.Walking? ==>
          && (forall k :: 0 <= k < |p.pending| && p.pending[k].ix == i ==> p.pending[k].user == u)
          && (Served(p.hist.log, i) ==> p.tally.earliest != 0 && p.tally.earliest <= u.lastModified)
          && i !in p.hist.late && (p.done ==> p.pending == []))
  }

  lemma VisitSpares(c: Config, s: Sys, f: Fault, i: nat, u: User)
    requires c.pageSize > 0 && Fit(c, s) && Visiting(s.phase) && Unread(s, i, u) && Unrepaired(u)
    ensures Unread(NextVisit(c, s, f), i, u)
  {
    hide NextVisit, Visit, Matches, Validate, Served;
    var r := s.phase.pending[0];
    var v := Visit(c, s.phase.full, s.world, s.phase.tally, r.user, f);
    VisitShape(c, s, f);
    VisitMoves(c, s.phase.full, s.world, s.phase.tally, r.user, f);
    assert EntryFits(s.world, s.phase.since, r);
    UsableHasId(r.user);
    assert Usable(r.user) ==> r.ix != i && r.user.id != u.id;
    ServedLogged(s.phase, v.tally, i);
  }

  lemma UsableHasId(u: User)
    ensures Usable(u) ==> u.id != ""
  {}

  lemma TouchSpares(s: Sys, e: Event, i: nat, u: User)
    requires e.Touch? && Unread(s, i, u) && IndexOf(s.world.users, e.id) != i
    ensures Unread(NextTouch(s, e.id, e.at, e.after), i, u)
  {
    hide Served, Matches;
  }

  lemma StepSpares(c: Config, s: Sys, e: Event, i: nat, u: User)
    requires c.pageSize > 0 && Fit(c, s) && Unread(s, i, u) && Unrepaired(u)
    requires e.Touch? ==> IndexOf(s.world.users, e.id) != i
    ensures Unread(Next(c, s, e), i, u)
  {
    hide NextVisit, NextTouch, FinalDrift, PageIx, AllMatches, Usable, DistinctIds, Fit, Unrepaired;
    if e.Touch? { TouchSpares(s, e, i, u); }
    if e.VisitNext? && Visiting(s.phase) { VisitSpares(c, s, e.fault, i, u); }
  }

  lemma {:induction false} Spared(c: Config, s: Sys, es: seq<Event>, i: nat, u: User)
    requires c.pageSize > 0 && s.phase.Idle? && DistinctIds(s.world.users) && KeepsFilterRun(c, s, es)
    requires Is(s.world, i, u) && Unrepaired(u)
    requires forall k :: 0 <= k < |es| && es[k].Touch? ==> IndexOf(Run(c, s, es[..k]).world.users, es[k].id) != i
    ensures Unread(Run(c, s, es), i, u)
  {
    hide Next, KeepsFilter, DistinctIds, Fit, Unrepaired;
    if es != [] {
      var n := |es| - 1;
      assert forall k :: 0 <= k < n ==> es[..n][..k] == es[..k];
      Spared(c, s, es[..n], i, u);
      RunFits(c, s, es[..n]);
      StepSpares(c, Run(c, s, es[..n]), es[n], i, u);
    }
  }

  /** An unusable record in view that nobody edits is never changed, and is in view in every
      reachable state. */
  lemma UneditedStaysInView(c: Config, s: Sys, es: seq<Event>, i: nat)
    requires c.pageSize > 0 && c.overlap > 0 && s.phase.Idle? && DistinctIds(s.world.users)
    requires KeepsFilterRun(c, s, es)
    requires forall k :: 0 <= k < |es| && es[k].Touch? ==> IndexOf(Run(c, s, es[..k]).world.users, es[k].id) != i
    requires i < |s.world.users| && !Usable(s.world.users[i]) && s.world.users[i].lastModified != 0
    requires InView(c, s.world.users[i], s.world.checkpoint)
    ensures
      var w := Run(c, s, es).world;
      i < |w.users| && w.users[i] == s.world.users[i] && i in AllMatches(w.users, Since(c, w.checkpoint, false))
  {
    hide Next, KeepsFilter, DistinctIds, InView, Usable;
    var u := s.world.users[i];
    forall k | 0 <= k <= |es| ensures Is(Run(c, s, es[..k]).world, i, u) {
      assert forall j :: 0 <= j < k ==> es[..k][..j] == es[..j];
      Spared(c, s, es[..k], i, u);
    }
    assert Run(c, s, es[..0]) == s;
    StaysInView(c, s, es, 0, i, u);
  }
}
