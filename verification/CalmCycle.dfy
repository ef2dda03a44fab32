/** What the reconciler's cycles achieve when nothing fails and nobody edits the directory:
    exactly the snapshot is applied, and the cycle succeeds unless the feed looks broken. */
module CalmCycle {
  import opened Records
  import opened Protocol
  import opened Pager
  import opened Effects
  import opened Snapshot
  import opened QuietWalk
  import opened Cycle
  import opened Environs
  import opened Syncer
  import opened NoLostUpdate

  lemma {:induction false} ScanOkPrefix(c: Config, full: bool, w: World, us: seq<User>, j: nat)
    requires j <= |us| && Scan(c, full, w, NO_TALLY, us).ok
    ensures Scan(c, full, w, NO_TALLY, us[..j]).ok
  {
    if j == |us| {
      assert us[..j] == us;
    } else {
      ScanOkPrefix(c, full, w, us[..|us| - 1], j);
      assert us[..|us| - 1][..j] == us[..j];
    }
  }

  /** The next record of a quiet walk is applied without a failure if the snapshot is. */
  lemma NextIsFine(c: Config, w0: World, s: Sys)
    requires c.pageSize > 0 && QuietInv(c, w0, s) && Visiting(s.phase)
    requires Scan(c, s.phase.full, w0, NO_TALLY, Selected(w0.users, s.phase.since)).ok
    ensures Visit(c, s.phase.full, s.world, s.phase.tally, s.phase.pending[0].user, NoFault).ok
  {
    hide Visit, OnTrack, Undisturbed, Selected;
    var p := s.phase;
    var snap, n := Selected(w0.users, p.since), |p.hist.log|;
    assert p.pending[0].user == snap[n];
    assert snap[..n + 1] == snap[..n] + [snap[n]];
    ScanStep(c, p.full, w0, NO_TALLY, snap[..n], snap[n]);
    ScanOkPrefix(c, p.full, w0, snap, n + 1);
  }

  /** A quiet walk goes on until it is over, unless its snapshot cannot be applied, and then
      it is a failure. */
  lemma {:induction false} QuietGoesOn(c: Config, s: Sys, full: bool, es: seq<Event>)
    requires c.pageSize > 0 && s.phase.Idle? && DistinctIds(s.world.users)
    requires forall k :: 0 <= k < |es| ==> Quiet(es[k])
    ensures
      var r := Run(c, NextBegin(c, s, full), es);
      var us := Selected(s.world.users, Since(c, s.world.checkpoint, full));
      && (Scan(c, full, s.world, NO_TALLY, us).ok ==> r.phase.Walking?)
      && (r.phase.Idle? ==> !r.phase.last.ok)
  {
    hide Next, Scan, Selected, QuietInv, DistinctIds;
    if es != [] {
      var n := |es| - 1;
      QuietGoesOn(c, s, full, es[..n]);
      AppliesPrefix(c, s, full, es[..n]);
      SinceKept(c, s, full, es[..n]);
      QuietStep(c, s.world, Run(c, NextBegin(c, s, full), es[..n]), es[n]);
    }
  }

  lemma QuietStep(c: Config, w0: World, s: Sys, e: Event)
    requires c.pageSize > 0 && QuietInv(c, w0, s) && Quiet(e) && DistinctIds(w0.users)
    ensures
      var p, s' := s.phase, Next(c, s, e);
      && (p.Idle? ==> s' == s)
      && (p.Walking? && Scan(c, p.full, w0, NO_TALLY, Selected(w0.users, p.since)).ok ==> s'.phase.Walking?)
      && (p.Walking? && s'.phase.Idle? ==> !s'.phase.last.ok)
  {
    hide Scan, Selected, QuietInv, NextVisit, Fetch, PageIx, DistinctIds;
    if Visiting(s.phase) && e.VisitNext? {
      VisitFails(c, s, NoFault);
      QuietVisit(c, w0, s);
      if Scan(c, s.phase.full, w0, NO_TALLY, Selected(w0.users, s.phase.since)).ok { NextIsFine(c, w0, s); }
    }
  }

  lemma VisitFails(c: Config, s: Sys, f: Fault)
    requires c.pageSize > 0 && Visiting(s.phase)
    ensures NextVisit(c, s, f).phase.Idle? ==> !NextVisit(c, s, f).phase.last.ok
  {}

  // ---- the reconciler ----

  /** No edit and no failure. */
  ghost predicate Calm(env: Env) {
    && !env.listFails
    && forall m: nat :: env.edits(m) == [] && !env.pageFails(m) && env.fault(m) == NoFault
  }

  lemma CalmIsQuiet(env: Env, full: bool, trace: seq<Event>)
    requires Calm(env) && Within(env, full, trace)
    ensures forall k :: 0 <= k < |trace| ==> Quiet(trace[k])
  {}

  /** A calm cycle that is over succeeds exactly when its snapshot holds no more unusable
      records than the limit allows; it has then applied all of it, once each and in order,
      and a real one leaves every usable record's account as the record asks. The trace is what
      `Incremental` and `Full` promise of theirs. */
  lemma CalmCycleSucceedsIff(c: Config, s: Sys, env: Env, full: bool, now: int, trace: seq<Event>)
    requires c.pageSize > 0 && s.phase.Idle? && DistinctIds(s.world.users) && ValidStore(s.world)
    requires Calm(env) && OneCycle(env, full, now, true, trace) && Run(c, s, trace).phase.Idle?
    ensures
      var r, us := Run(c, s, trace), Selected(s.world.users, Since(c, s.world.checkpoint, full));
      && r.phase.last.ok == WithinLimit(c, Count(us, IsUnusable()))
      && (r.phase.last.ok ==>
            var v := Scan(c, full, s.world, NO_TALLY, us);
            && v.ok && r.world == v.w.(checkpoint := r.world.checkpoint) && r.phase.last.stats == v.tally.stats
            && (!c.dryRun ==> forall i :: 0 <= i < |us| && Usable(us[i]) ==> Agrees(us[i], r.world.helpers)))
  {
    hide Next, DistinctIds, ValidStore, Calm, Within, NextBegin, Scan, Selected, Count, Ready, Agrees, Usable;
    var us := Selected(s.world.users, Since(c, s.world.checkpoint, full));
    SelectedReady(s.world, Since(c, s.world.checkpoint, full));
    ScanSucceeds(c, full, s.world, us);
    SelectedDistinct(s.world.users, Since(c, s.world.checkpoint, full));
    if !c.dryRun && WithinLimit(c, Count(us, IsUnusable())) { ScanHelppers(c, full, s.world, NO_TALLY, us); }
    var ends := |trace| > 1 && Within(env, full, trace[1..|trace| - 1]) && trace[|trace| - 1] == Finish(now, true);
    var mid := if ends then trace[1..|trace| - 1] else trace[1..];
    CalmIsQuiet(env, full, mid);
    CycleBegins(c, s, full, mid);
    QuietGoesOn(c, s, full, mid);
    QuietWalkAppliesSnapshot(c, s, full, mid);
    SinceKept(c, s, full, mid);
    if ends {
      assert trace == ([Begin(full)] + mid) + [Finish(now, true)];
      RunOne(c, s, [Begin(full)] + mid, Finish(now, true));
      FinishEnds(c, Run(c, s, [Begin(full)] + mid), now);
    } else {
      assert trace == [Begin(full)] + mid;
    }
  }

  lemma FinishEnds(c: Config, s: Sys, now: int)
    requires c.pageSize > 0
    ensures
      var r := Next(c, s, Finish(now, true));
      if s.phase.Walking? && s.phase.done
      then
        && r.phase.Idle? && r.phase.last.ok && r.phase.last.stats == s.phase.tally.stats
        && r.world == s.world.(checkpoint := r.world.checkpoint)
      else r == s
  {}

  /** A calm real cycle that has succeeded leaves the account of a usable record as the record
      asks, if the cycle was a full one or the record was not lost before. */
  lemma CalmCycleReconciles(c: Config, s: Sys, env: Env, full: bool, now: int, trace: seq<Event>, i: nat)
    requires c.pageSize > 0 && !c.dryRun && s.phase.Idle? && DistinctIds(s.world.users) && ValidStore(s.world)
    requires Calm(env) && OneCycle(env, full, now, true, trace)
    requires var r := Run(c, s, trace); r.phase.Idle? && r.phase.last.ok
    requires i < |s.world.users| && Usable(s.world.users[i])
    requires full || (s.world.users[i].lastModified != 0 && SoundAt(c, s.world, i))
    ensures Agrees(s.world.users[i], Run(c, s, trace).world.helpers)
  {
    hide Run, Scan, Selected, Agrees, Usable, ValidStore, OneCycle, Calm, Count, AllMatches, Rank;
    var since := Since(c, s.world.checkpoint, full);
    var u, us := s.world.users[i], Selected(s.world.users, since);
    CalmCycleSucceedsIff(c, s, env, full, now, trace);
    if Matches(u, since) {
      RankIsPosition(s.world.users, since, i);
      assert us[Rank(s.world.users, since, i)] == u;
    } else {
      UnselectedIsUnnamed(s.world.users, since, i);
      SelectedDistinct(s.world.users, since);
      ScanHelppers(c, full, s.world, NO_TALLY, us);
      SameAccountAgrees(u, s.world.helpers, Run(c, s, trace).world.helpers);
    }
  }

  lemma SameAccountAgrees(u: User, h: Helppers, h': Helppers)
    requires Get(h, u.id) == Get(h', u.id) && Agrees(u, h)
    ensures Agrees(u, h')
  {}

  lemma UnselectedIsUnnamed(users: seq<User>, since: int, i: nat)
    requires DistinctIds(users) && i < |users| && Usable(users[i]) && !Matches(users[i], since)
    ensures Unnamed(Selected(users, since), users[i].id)
  {
    var us, ix := Selected(users, since), AllMatches(users, since);
    forall k | 0 <= k < |us| && Usable(us[k]) ensures us[k].id != users[i].id {
      assert us[k] == users[ix[k]] && ix[k] != i;
    }
    hide AllMatches, Matches;
  }

  /** So after a calm incremental cycle over a sound state every stamped usable record agrees with
      its account. */
  lemma CalmCycleReconcilesAll(c: Config, s: Sys, env: Env, full: bool, now: int, trace: seq<Event>)
    requires c.pageSize > 0 && !c.dryRun && s.phase.Idle? && DistinctIds(s.world.users) && ValidStore(s.world)
    requires Calm(env) && OneCycle(env, full, now, true, trace) && Sound(c, s.world)
    requires var r := Run(c, s, trace); r.phase.Idle? && r.phase.last.ok
    ensures
      forall i :: 0 <= i < |s.world.users| && Usable(s.world.users[i]) && s.world.users[i].lastModified != 0
        ==> Agrees(s.world.users[i], Run(c, s, trace).world.helpers)
  {
    hide Run, Agrees, Usable, ValidStore, OneCycle, Calm, DistinctIds;
    forall i | 0 <= i < |s.world.users| && Usable(s.world.users[i]) && s.world.users[i].lastModified != 0
      ensures Agrees(s.world.users[i], Run(c, s, trace).world.helpers)
    {
      assert SoundAt(c, s.world, i);
      CalmCycleReconciles(c, s, env, full, now, trace, i);
    }
  }
}
