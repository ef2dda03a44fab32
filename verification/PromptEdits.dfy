/** The premise of no lost update in terms of events alone: every edit is stamped less than the
    overlap behind the newest stamp served by the end of any walk it falls in. */
module PromptEdits {
  import opened Records
  import opened Protocol
  import opened Pager
  import opened Cycle
  import opened NoLostUpdate
  import opened UnusableInView
  import opened Frontier

  /** One walk is under way from event `k` of the run up to event `n`. */
  ghost predicate SameWalk(c: Config, s: Sys, es: seq<Event>, k: nat, n: nat)
    requires c.pageSize > 0 && n <= |es|
  {
    forall x :: k <= x <= n ==> Run(c, s, es[..x]).phase.Walking?
  }

  lemma SameWalkShorter(c: Config, s: Sys, es: seq<Event>, k: nat)
    requires c.pageSize > 0 && es != [] && k < |es| && Run(c, s, es).phase.Walking?
    requires SameWalk(c, s, es[..|es| - 1], k, |es| - 1)
    ensures SameWalk(c, s, es, k, |es|)
  {
    hide Run;
    assert es[..|es|] == es;
    forall x | k <= x <= |es| ensures Run(c, s, es[..x]).phase.Walking? {
      if x < |es| { assert es[..|es| - 1][..x] == es[..x]; }
    }
  }

  // ---- edits behind a walk ----

  /** Edit `k`, made to record `i` during the walk under way at the end of the run, is no newer
      than what the record is stamped by then. */
  ghost predicate EditedIn(c: Config, s: Sys, es: seq<Event>, i: nat, k: nat)
    requires c.pageSize > 0
  {
    var r := Run(c, s, es);
    && k < |es| && Edits(Run(c, s, es[..k]), es[k]) && SameWalk(c, s, es, k, |es|)
    && i < |r.world.users| && r.world.users[i].id == es[k].id && r.world.users[i].lastModified >= es[k].at
  }

  lemma LateStep(c: Config, s: Sys, e: Event, i: nat)
    requires c.pageSize > 0
    requires var q := Next(c, s, e); q.phase.Walking? && i in q.phase.hist.late && i < |q.world.users|
    ensures s.phase.Walking? && i < |s.world.users|
    ensures
      var lm := Next(c, s, e).world.users[i].lastModified;
      || (Edits(s, e) && IndexOf(s.world.users, e.id) == i && lm == e.at)
      || (i in s.phase.hist.late && lm >= s.world.users[i].lastModified)
  {
    hide NextVisit, FinalDrift, Fetch, PageIx, AllMatches, Served;
    if e.VisitNext? && Visiting(s.phase) { LateVisit(c, s, e.fault, i); }
  }

  lemma LateVisit(c: Config, s: Sys, f: Fault, i: nat)
    requires c.pageSize > 0 && Visiting(s.phase)
    requires var q := NextVisit(c, s, f); q.phase.Walking? && i in q.phase.hist.late && i < |q.world.users|
    ensures i in s.phase.hist.late && i < |s.world.users|
    ensures NextVisit(c, s, f).world.users[i].lastModified >= s.world.users[i].lastModified
  {
    hide Visit, AfterPage;
    VisitMoves(c, s.phase.full, s.world, s.phase.tally, s.phase.pending[0].user, f);
  }

  /** A record edited behind the walk carries the stamp of such an edit, or a later one. */
  lemma {:induction false} LateHasEdit(c: Config, s: Sys, es: seq<Event>, i: nat) returns (k: nat)
    requires c.pageSize > 0 && !c.dryRun && s.phase.Idle? && KeepsFilterRun(c, s, es)
    requires var r := Run(c, s, es); r.phase.Walking? && i in r.phase.hist.late && i < |r.world.users|
    ensures EditedIn(c, s, es, i, k)
  {
    hide Next, KeepsFilter;
    var n := |es| - 1;
    var q := Run(c, s, es[..n]);
    LateStep(c, q, es[n], i);
    assert forall k :: 0 <= k < n ==> es[..n][..k] == es[..k];
    StepKeepsIds(c, q, es[n]);
    if Edits(q, es[n]) && IndexOf(q.world.users, es[n].id) == i
       && Run(c, s, es).world.users[i].lastModified == es[n].at {
      k := n;
      assert es[..|es|] == es;
    } else {
      k := LateHasEdit(c, s, es[..n], i);
      SameWalkShorter(c, s, es, k);
    }
  }

  // ---- stamps served in a walk ----

  lemma LogStep(c: Config, s: Sys, e: Event, r: Rec)
    requires c.pageSize > 0
    requires var p := Next(c, s, e).phase; p.Walking? && (r in p.hist.log || r in p.pending)
    ensures s.phase.Walking?
    ensures r in s.phase.hist.log || r in s.phase.pending || (e.ReadPage? && r in Next(c, s, e).phase.page)
  {
    hide Visit, AfterPage, FinalDrift, Fetch, PageIx, AllMatches, Touched, Matches;
  }

  /** What a walk has applied was on a page read in that walk. */
  lemma {:induction false} LogServedHere(c: Config, s: Sys, es: seq<Event>, r: Rec) returns (j: nat)
    requires c.pageSize > 0 && s.phase.Idle?
    requires var p := Run(c, s, es).phase; p.Walking? && (r in p.hist.log || r in p.pending)
    ensures j < |es| && es[j].ReadPage? && SameWalk(c, s, es, j, |es|)
    ensures r in Run(c, s, es[..j + 1]).phase.page
  {
    hide Next;
    var n := |es| - 1;
    var q := Run(c, s, es[..n]);
    LogStep(c, q, es[n], r);
    assert es[..n + 1] == es;
    if r in q.phase.hist.log || r in q.phase.pending {
      j := LogServedHere(c, s, es[..n], r);
      SameWalkShorter(c, s, es, j);
      assert es[..n][..j + 1] == es[..j + 1];
    } else {
      j := n;
    }
  }

  lemma {:induction false} CurrentAlong(c: Config, s: Sys, es: seq<Event>, k: nat)
    requires c.pageSize > 0 && k <= |es| && SameWalk(c, s, es, k, |es|)
    ensures Run(c, s, es[..k]).phase.Walking? && Run(c, s, es).phase.Walking?
    ensures Run(c, s, es[..k]).phase.current == Run(c, s, es).phase.current
    decreases |es|
  {
    hide Next;
    assert es[..|es|] == es;
    if k < |es| {
      var n := |es| - 1;
      forall x | k <= x <= n ensures Run(c, s, es[..n][..x]).phase.Walking? { assert es[..n][..x] == es[..x]; }
      CurrentAlong(c, s, es[..n], k);
      assert es[..n][..k] == es[..k];
      assert Run(c, s, es[..n]).phase.Walking? by { assert es[..n][..n] == es[..n]; }
      CurrentStep(c, Run(c, s, es[..n]), es[n]);
    }
  }

  lemma CurrentStep(c: Config, s: Sys, e: Event)
    requires c.pageSize > 0 && s.phase.Walking? && Next(c, s, e).phase.Walking?
    ensures Next(c, s, e).phase.current == s.phase.current
  {
    hide Visit, AfterPage, FinalDrift, Fetch, PageIx, Touched;
  }

  // ---- the premise ----

  /** Edit `k` is within the reach of the filter, both from the checkpoint in force and, for every
      end of the walk it falls in, from each stamp that walk has served. */
  ghost predicate PromptEdit(c: Config, s: Sys, es: seq<Event>, k: nat)
    requires c.pageSize > 0 && k < |es| && es[k].Touch?
  {
    && Reaches(c, es[k].at, Run(c, s, es[..k]).world.checkpoint)
    && forall f: nat, j: nat :: InOneWalk(c, s, es, k, j, f)
         ==> ReachesFromAll(c, es[k].at, Run(c, s, es[..j + 1]).phase)
  }

  /** Event `k` and the page read `j` fall in the walk that event `f` ends. */
  ghost predicate InOneWalk(c: Config, s: Sys, es: seq<Event>, k: nat, j: nat, f: nat)
    requires c.pageSize > 0
  {
    && k < f < |es| && j < f && es[j].ReadPage? && es[f].Finish?
    && SameWalk(c, s, es, k, f) && SameWalk(c, s, es, j, f)
  }

  ghost predicate ReachesFromAll(c: Config, at: int, p: Phase) {
    p.Walking? ==> forall r :: r in p.page ==> Reaches(c, at, r.user.lastModified)
  }

  /** Every edit keeps the ids and the filter of a walk under way; those of records with other ids
      than `ids` are prompt. */
  ghost predicate Prompt(c: Config, s: Sys, es: seq<Event>, ids: set<string>)
    requires c.pageSize > 0
  {
    && KeepsFilterRun(c, s, es)
    && forall k :: 0 <= k < |es| && Edits(Run(c, s, es[..k]), es[k]) && es[k].id !in ids ==> PromptEdit(c, s, es, k)
  }

  lemma SameWalkPrefix(c: Config, s: Sys, es: seq<Event>, k: nat, f: nat)
    requires c.pageSize > 0 && f <= |es| && SameWalk(c, s, es[..f], k, f)
    ensures SameWalk(c, s, es, k, f)
  {
    hide Run;
    forall x | k <= x <= f ensures Run(c, s, es[..x]).phase.Walking? { assert es[..f][..x] == es[..x]; }
  }

  lemma MovedToStamp(c: Config, s: Sys, now: int) returns (r: Rec)
    requires s.phase.Walking? && MarksAreStamps(s) && Target(c, s.phase, now) != s.phase.current
    ensures r in s.phase.hist.log && r.user.lastModified == Target(c, s.phase, now)
  {
    var k :| 0 <= k < |s.phase.hist.log| && s.phase.hist.log[k].user.lastModified == Target(c, s.phase, now);
    r := s.phase.hist.log[k];
  }

  lemma ReachesLater(c: Config, at: int, later: int, checkpoint: int)
    requires Reaches(c, at, checkpoint) && at <= later
    ensures Reaches(c, later, checkpoint)
  {}

  /** At the end of a walk no record whose edits are prompt is out of the next filter's reach. */
  lemma PromptFinish(c: Config, s: Sys, es: seq<Event>, f: nat, i: nat, ids: set<string>)
    requires c.pageSize > 0 && !c.dryRun && s.phase.Idle? && Prompt(c, s, es, ids) && f < |es| && es[f].Finish?
    requires
      var q := Run(c, s, es[..f]);
      q.phase.Walking? && i in q.phase.hist.late && i < |q.world.users| && q.world.users[i].id !in ids
    ensures
      var q := Run(c, s, es[..f]);
      Reaches(c, q.world.users[i].lastModified, Target(c, q.phase, es[f].now))
  {
    hide Run, SameWalk, StampIn, Reaches, KeepsFilterRun;
    var q := Run(c, s, es[..f]);
    PrefixKeepsFilter(c, s, es, f);
    var k := LateHasEdit(c, s, es[..f], i);
    SameWalkPrefix(c, s, es, k, f);
    assert es[..f][k] == es[k] && es[..f][..k] == es[..k];
    assert PromptEdit(c, s, es, k);
    if Target(c, q.phase, es[f].now) == q.phase.current {
      CurrentAlong(c, s, es[..f], k);
      NeverRetreats(c, s, es[..k]);
    } else {
      RunStamps(c, s, es[..f]);
      var r := MovedToStamp(c, q, es[f].now);
      var j := LogServedHere(c, s, es[..f], r);
      SameWalkPrefix(c, s, es, j, f);
      assert es[..f][j] == es[j] && es[..f][..j + 1] == es[..j + 1];
      assert InOneWalk(c, s, es, k, j, f);
      assert Run(c, s, es[..j + 1]).phase.Walking? by { SameWalkAt(c, s, es, j, f); }
      assert ReachesFromAll(c, es[k].at, Run(c, s, es[..j + 1]).phase);
    }
    ReachesLater(c, es[k].at, q.world.users[i].lastModified, Target(c, q.phase, es[f].now));
  }

  lemma SameWalkAt(c: Config, s: Sys, es: seq<Event>, j: nat, f: nat)
    requires c.pageSize > 0 && j < f <= |es| && SameWalk(c, s, es, j, f)
    ensures Run(c, s, es[..j + 1]).phase.Walking?
  {}

  lemma PromptIsTimely(c: Config, s: Sys, es: seq<Event>, ids: set<string>)
    requires c.pageSize > 0 && !c.dryRun && s.phase.Idle? && Prompt(c, s, es, ids)
    ensures TimelyRun(c, s, es, Named(s.world.users, ids))
  {
    hide Run, PromptEdit, Reaches, KeepsFilter, KeepsFilterRun, Target, Reconciled;
    forall k | 0 <= k < |es| ensures Timely(c, Run(c, s, es[..k]), es[k], Named(s.world.users, ids)) {
      var q := Run(c, s, es[..k]);
      assert KeepsFilter(q, es[k]) by { KeepsFilterAt(c, s, es, k); }
      PrefixKeepsFilter(c, s, es, k);
      RunKeepsIds(c, s, es[..k]);
      if Edits(q, es[k]) && es[k].id !in ids { PromptTouch(c, s, es, k); }
      forall i: nat | i !in Named(s.world.users, ids) ensures !PassesOver(c, q, es[k], i) {
        if es[k].Finish? && q.phase.Walking? && i in q.phase.hist.late && i < |q.world.users| {
          PromptFinish(c, s, es, k, i, ids);
        }
      }
    }
  }

  lemma KeepsFilterAt(c: Config, s: Sys, es: seq<Event>, k: nat)
    requires c.pageSize > 0 && k < |es| && KeepsFilterRun(c, s, es)
    ensures KeepsFilter(Run(c, s, es[..k]), es[k])
  {}

  lemma PromptTouch(c: Config, s: Sys, es: seq<Event>, k: nat)
    requires c.pageSize > 0 && k < |es| && es[k].Touch? && PromptEdit(c, s, es, k)
    ensures Reaches(c, es[k].at, Run(c, s, es[..k]).world.checkpoint)
  {}

  /** No update is lost of a record whose edits are prompt, whatever happens to the others; the
      premise speaks of the events of the run only. */
  lemma PromptEditsAreNotLost(c: Config, s: Sys, es: seq<Event>, ids: set<string>)
    requires c.pageSize > 0 && c.overlap > 0 && !c.dryRun
    requires s.phase.Idle? && DistinctIds(s.world.users) && SoundExcept(c, s.world, Named(s.world.users, ids))
    requires Prompt(c, s, es, ids)
    ensures SoundExcept(c, Run(c, s, es).world, Named(s.world.users, ids))
  {
    PromptIsTimely(c, s, es, ids);
    NoneElseIsLost(c, s, es, Named(s.world.users, ids));
  }
}
