/** A walk nobody disturbs: whatever the page size, it applies exactly the snapshot it
    started from, once each and in order, although its own write-backs change the
    directory under it. */
module QuietWalk {
  import opened Records
  import opened Protocol
  import opened Pager
  import opened Cycle
  import opened Effects
  import opened Snapshot

  function UsersOf(rs: seq<Rec>): (r: seq<User>)
    ensures |r| == |rs| && forall k :: 0 <= k < |r| ==> r[k] == rs[k].user
  {
    seq(|rs|, k requires 0 <= k < |rs| => rs[k].user)
  }

  // ---- the invariant ----

  ghost predicate Undisturbed(w0: World, w: World, since: int, n: nat) {
    && |w.users| == |w0.users|
    && AllMatches(w.users, since) == AllMatches(w0.users, since)
    && n <= |AllMatches(w0.users, since)|
    && (forall k :: n <= k < |AllMatches(w0.users, since)| ==>
          w.users[AllMatches(w0.users, since)[k]] == w0.users[AllMatches(w0.users, since)[k]])
    && (forall i :: 0 <= i < |w.users| ==>
          w.users[i].id == w0.users[i].id && Usable(w.users[i]) == Usable(w0.users[i]))
  }

  /** The records applied so far are a prefix of the snapshot. */
  ghost predicate Applied(c: Config, w0: World, w: World, p: Phase)
    requires c.pageSize > 0 && p.Walking?
  {
    var snap, log := Selected(w0.users, p.since), UsersOf(p.hist.log);
    && OnTrack(c.pageSize, p.pager, snap)
    && Undisturbed(w0, w, p.since, |log|)
    && log == snap[..|log|]
    && Scan(c, p.full, w0, NO_TALLY, log) == Visited(w, p.tally, true)
  }

  /** The page at hand is a slice of the snapshot, the rest of it still to be applied. */
  ghost predicate InPage(c: Config, w0: World, p: Phase)
    requires c.pageSize > 0 && p.Walking? && |p.hist.log| <= |Selected(w0.users, p.since)|
  {
    var snap, at, n := Selected(w0.users, p.since), p.pager.startIndex - 1, |p.page|;
    && 0 < n <= c.pageSize && 0 <= at && p.total == |snap| && at + n <= |snap|
    && p.page[0].user == snap[at]
    && (n == c.pageSize || at + n == |snap|)
    && |p.hist.log| + |p.pending| == at + n
    && forall k :: 0 <= k < |p.pending| ==> p.pending[k].user == snap[|p.hist.log| + k]
  }

  ghost predicate QuietInv(c: Config, w0: World, s: Sys)
    requires c.pageSize > 0
  {
    var p := s.phase;
    p.Walking? ==>
      && Applied(c, w0, s.world, p)
      && (if p.done then |p.hist.log| == |Selected(w0.users, p.since)| && p.pending == []
          else if p.pending == [] then |p.hist.log| == p.pager.startIndex - 1
          else InPage(c, w0, p))
  }

  /** The events of a walk with no edit and no failure. */
  predicate Quiet(e: Event) { e == ReadPage || e == VisitNext(NoFault) }

  lemma SameApplied(c: Config, w0: World, w: World, p: Phase, q: Phase)
    requires c.pageSize > 0 && p.Walking? && q.Walking? && Applied(c, w0, w, p)
    requires q.full == p.full && q.since == p.since && q.tally == p.tally && q.hist == p.hist
    requires OnTrack(c.pageSize, q.pager, Selected(w0.users, q.since))
    ensures Applied(c, w0, w, q)
  {
    hide Scan, OnTrack, Selected, Undisturbed, UsersOf;
  }

  lemma QuietPage(c: Config, w0: World, w: World, p: Phase, q: Phase)
    requires c.pageSize > 0 && p.Walking? && Applied(c, w0, w, p) && |p.hist.log| == p.pager.startIndex - 1
    requires q == p.(page := Fetch(w.users, PageIx(w.users, p.since, p.pager.startIndex, c.pageSize)),
                     pending := Fetch(w.users, PageIx(w.users, p.since, p.pager.startIndex, c.pageSize)),
                     total := |AllMatches(w.users, p.since)|)
    ensures q.page != [] ==> InPage(c, w0, q)
    ensures q.page == [] ==> |p.hist.log| == |Selected(w0.users, p.since)|
  {
    hide Scan, OnTrack, PageIx;
    PageSlice(w.users, p.since, p.pager.startIndex, c.pageSize);
  }

  lemma QuietRead(c: Config, w0: World, s: Sys)
    requires c.pageSize > 0 && QuietInv(c, w0, s) && Reading(s.phase)
    ensures QuietInv(c, w0, NextReadPage(c, s))
  {
    var p, w := s.phase, s.world;
    var page := Fetch(w.users, PageIx(w.users, p.since, p.pager.startIndex, c.pageSize));
    var q := p.(page := page, pending := page, total := |AllMatches(w.users, p.since)|);
    QuietPage(c, w0, w, p, q);
    SameApplied(c, w0, w, p, q);
    SameApplied(c, w0, w, p, p.(done := true));
    hide Scan, OnTrack, PageIx, Selected, InPage, UsersOf, Fetch, Undisturbed;
  }

  /** A write-back of the record at hand leaves the rest of the snapshot as it was. */
  lemma StillUndisturbed(w0: World, w: World, since: int, n: nat, w': World)
    requires DistinctIds(w0.users) && Undisturbed(w0, w, since, n) && n < |AllMatches(w0.users, since)|
    requires Bumped(w.users, w'.users, w0.users[AllMatches(w0.users, since)[n]].id)
    requires w0.users[AllMatches(w0.users, since)[n]].id == "" ==> w'.users == w.users
    ensures Undisturbed(w0, w', since, n + 1)
  {
    var m := AllMatches(w0.users, since);
    var x := m[n];
    forall i | 0 <= i < |w.users| && i != x ensures w'.users[i] == w.users[i] {
      assert w.users[i].id == w.users[x].id ==> w.users[x].id == "";
    }
    MatchIxSorted(w0.users, since, |w0.users|);
    SameMatches(w.users, w'.users, since, |w.users|);
  }

  lemma UsersOfLogged(log: seq<Rec>, r: Rec)
    ensures UsersOf(log + [r]) == UsersOf(log) + [r.user]
  {}

  lemma QuietApplied(c: Config, w0: World, w: World, p: Phase)
    requires c.pageSize > 0 && p.Walking? && p.pending != [] && DistinctIds(w0.users)
    requires Applied(c, w0, w, p) && InPage(c, w0, p)
    ensures
      var v := Visit(c, p.full, w, p.tally, p.pending[0].user, NoFault);
      v.ok ==> Applied(c, w0, v.w, Logged(p, v.tally))
  {
    hide Visit, Undisturbed, DistinctIds, OnTrack, Scan, Validate, Agrees;
    var snap, log, r := Selected(w0.users, p.since), UsersOf(p.hist.log), p.pending[0];
    var n := |log|;
    assert r.user == snap[n];
    var v := Visit(c, p.full, w, p.tally, r.user, NoFault);
    if v.ok {
      QuietUndisturbed(c, w0, w, p, v);
      UsersOfLogged(p.hist.log, r);
      ScanStep(c, p.full, w0, NO_TALLY, log, r.user);
      assert log + [r.user] == snap[..n + 1];
    }
  }

  lemma QuietUndisturbed(c: Config, w0: World, w: World, p: Phase, v: Visited)
    requires c.pageSize > 0 && p.Walking? && p.pending != [] && DistinctIds(w0.users)
    requires |p.hist.log| < |Selected(w0.users, p.since)| && Undisturbed(w0, w, p.since, |p.hist.log|)
    requires p.pending[0].user == Selected(w0.users, p.since)[|p.hist.log|]
    requires v == Visit(c, p.full, w, p.tally, p.pending[0].user, NoFault) && v.ok
    ensures Undisturbed(w0, v.w, p.since, |p.hist.log| + 1)
  {
    hide Visit, Undisturbed, DistinctIds, Agrees;
    var u := p.pending[0].user;
    if c.dryRun { DryVisit(c, p.full, w, p.tally, u, NoFault); }
    else { VisitConfined(c, p.full, w, p.tally, u, NoFault); }
    StillUndisturbed(w0, w, p.since, |p.hist.log|, v.w);
  }

  lemma QuietInPage(c: Config, w0: World, p: Phase, t: Tally)
    requires c.pageSize > 0 && p.Walking? && p.pending != []
    requires |p.hist.log| < |Selected(w0.users, p.since)| && InPage(c, w0, p)
    ensures InPage(c, w0, Logged(p, t))
  {}

  lemma QuietVisit(c: Config, w0: World, s: Sys)
    requires c.pageSize > 0 && QuietInv(c, w0, s) && Visiting(s.phase) && DistinctIds(w0.users)
    ensures QuietInv(c, w0, NextVisit(c, s, NoFault))
    ensures NextVisit(c, s, NoFault).phase.Walking?
            <==> Visit(c, s.phase.full, s.world, s.phase.tally, s.phase.pending[0].user, NoFault).ok
  {
    var p := s.phase;
    var v := Visit(c, p.full, s.world, p.tally, p.pending[0].user, NoFault);
    QuietApplied(c, w0, s.world, p);
    QuietInPage(c, w0, p, v.tally);
    if v.ok && |p.pending| == 1 { QuietEndOfPage(c, w0, v.w, Logged(p, v.tally)); }
    hide Visit, Applied, DistinctIds, Selected, EndOfPage, InPage;
  }

  lemma QuietEndOfPage(c: Config, w0: World, w: World, p: Phase)
    requires c.pageSize > 0 && p.Walking? && !p.done && p.pending == [] && p.page != [] && DistinctIds(w0.users)
    requires Applied(c, w0, w, p) && InPage(c, w0, p)
    ensures EndOfPage(c, w, p).phase.Walking? && QuietInv(c, w0, EndOfPage(c, w, p))
  {
    var snap, at := Selected(w0.users, p.since), p.pager.startIndex - 1;
    SelectedDistinct(w0.users, p.since);
    PageBoundary(c.pageSize, p.pager, snap, at + |p.page|);
    hide Undisturbed, DistinctIds, OnTrack, Scan, AfterPage, UsersOf, Selected;
  }

  // ---- the theorem ----

  lemma BeginsApplied(c: Config, s: Sys, full: bool)
    requires c.pageSize > 0 && s.phase.Idle?
    ensures QuietInv(c, s.world, NextBegin(c, s, full))
  {}

  /** A quiet walk, as far as it has come: it has applied a prefix of its snapshot and is
      where the snapshot scan is after that prefix. When it is over it has applied all of
      it; it stops early only if the snapshot scan itself fails. */
  lemma {:induction false} AppliesPrefix(c: Config, s: Sys, full: bool, es: seq<Event>)
    requires c.pageSize > 0 && s.phase.Idle? && DistinctIds(s.world.users)
    requires forall k :: 0 <= k < |es| ==> Quiet(es[k])
    ensures QuietInv(c, s.world, Run(c, NextBegin(c, s, full), es))
  {
    hide NextReadPage, NextVisit, DistinctIds, Scan, NextTouch, NextFinish, Failed;
    if es == [] {
      BeginsApplied(c, s, full);
    } else {
      var n := |es| - 1;
      AppliesPrefix(c, s, full, es[..n]);
      var r := Run(c, NextBegin(c, s, full), es[..n]);
      if es[n].ReadPage? { if Reading(r.phase) { QuietRead(c, s.world, r); } }
      else if Visiting(r.phase) { QuietVisit(c, s.world, r); }
    }
  }

  /** Once over, a quiet walk has applied exactly its snapshot, once each and in order. */
  lemma QuietWalkAppliesSnapshot(c: Config, s: Sys, full: bool, es: seq<Event>)
    requires c.pageSize > 0 && s.phase.Idle? && DistinctIds(s.world.users)
    requires forall k :: 0 <= k < |es| ==> Quiet(es[k])
    ensures
      var r := Run(c, NextBegin(c, s, full), es);
      r.phase.Walking? && r.phase.done ==>
        var snap := Selected(s.world.users, r.phase.since);
        UsersOf(r.phase.hist.log) == snap
        && Scan(c, r.phase.full, s.world, NO_TALLY, snap) == Visited(r.world, r.phase.tally, true)
  {
    hide Scan, Run, OnTrack, Undisturbed, InPage, DistinctIds, NextBegin;
    AppliesPrefix(c, s, full, es);
    var r := Run(c, NextBegin(c, s, full), es);
    if r.phase.Walking? && r.phase.done {
      var snap := Selected(s.world.users, r.phase.since);
      assert snap[..|snap|] == snap;
    }
  }

  lemma SelectedReady(w: World, since: int)
    requires ValidStore(w)
    ensures Ready(w, Selected(w.users, since))
  {}

  lemma {:induction false} SinceKept(c: Config, s: Sys, full: bool, es: seq<Event>)
    requires c.pageSize > 0 && s.phase.Idle? && forall k :: 0 <= k < |es| ==> Quiet(es[k])
    ensures
      var r := Run(c, NextBegin(c, s, full), es);
      && r.world.checkpoint == s.world.checkpoint
      && (r.phase.Walking? ==> r.phase.full == full && r.phase.since == Since(c, s.world.checkpoint, full))
  {
    hide Visit, AfterPage, Remember, Fetch;
    if es != [] {
      SinceKept(c, s, full, es[..|es| - 1]);
      var q := Run(c, NextBegin(c, s, full), es[..|es| - 1]);
      if Visiting(q.phase) {
        VisitKeepsCheckpoint(c, q.phase.full, q.world, q.phase.tally, q.phase.pending[0].user, NoFault);
      }
    }
  }

  lemma VisitKeepsCheckpoint(c: Config, full: bool, w: World, t: Tally, u: User, f: Fault)
    ensures Visit(c, full, w, t, u, f).w.checkpoint == w.checkpoint
  {}
}
