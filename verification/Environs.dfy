/** What a cycle of the reconciler does not decide, and the trace it leaves. */
module Environs {
  import opened Records
  import opened Protocol
  import opened Pager
  import opened Cycle
  import opened NoLostUpdate
  import opened PromptEdits
  import opened Frontier
  import opened QuietWalk

  /** One edit of the directory by somebody else. */
  datatype Edit = Edit(id: string, at: int, mutate: User -> User)

  /** Everything a cycle does not decide, moment by moment: the edits that happen before a
      page read, a record or the end, whether a page can be read, and which effect of a
      record fails. */
  datatype Env = Env(edits: nat -> seq<Edit>, pageFails: nat -> bool, fault: nat -> Fault, listFails: bool)

  /** An event the environment accounts for: an edit it makes of a record with that id, a page it
      cannot serve, a list of accounts it cannot read, or a record with the fault it chose. */
  ghost predicate Allowed(env: Env, full: bool, e: Event) {
    match e
    case Touch(_, _, _) => exists m: nat, k: nat, u: User :: Makes(env, m, k, u, e)
    case ReadPage => true
    case VisitNext(f) => exists m: nat :: env.fault(m) == f
    case Abort => (full && env.listFails) || exists m: nat :: env.pageFails(m)
    case _ => false
  }

  /** Edit `k` of moment `m`, applied to record `u`, is event `e`. */
  ghost predicate Makes(env: Env, m: nat, k: nat, u: User, e: Event) {
    k < |env.edits(m)| && u.id == env.edits(m)[k].id
    && e == Touch(env.edits(m)[k].id, env.edits(m)[k].at, env.edits(m)[k].mutate(u))
  }

  lemma EditAllowed(env: Env, full: bool, m: nat, k: nat, u: User)
    requires k < |env.edits(m)| && u.id == env.edits(m)[k].id
    ensures Allowed(env, full, Touch(env.edits(m)[k].id, env.edits(m)[k].at, env.edits(m)[k].mutate(u)))
  {
    assert Makes(env, m, k, u, Touch(env.edits(m)[k].id, env.edits(m)[k].at, env.edits(m)[k].mutate(u)));
  }

  lemma FaultAllowed(env: Env, full: bool, moment: nat)
    ensures Allowed(env, full, VisitNext(env.fault(moment)))
  {}

  lemma StepsAllowed(env: Env, full: bool, moment: nat)
    ensures Allowed(env, full, ReadPage)
    ensures env.pageFails(moment) ==> Allowed(env, full, Abort)
  {}

  /** The trace of a walk under way: it neither starts nor ends a cycle, and gives up only
      where the environment fails. */
  ghost predicate Within(env: Env, full: bool, trace: seq<Event>) {
    forall k :: 0 <= k < |trace| ==> Allowed(env, full, trace[k])
  }

  /** One cycle's trace: its beginning, what the environment accounts for, and at most one
      end, with the time and the store's answer it was given. */
  ghost predicate OneCycle(env: Env, full: bool, now: int, saved: bool, trace: seq<Event>) {
    && trace != [] && trace[0] == Begin(full)
    && (Within(env, full, trace[1..])
        || (|trace| > 1 && Within(env, full, trace[1..|trace| - 1]) && trace[|trace| - 1] == Finish(now, saved)))
  }

  lemma TraceIsOneCycle(env: Env, full: bool, now: int, saved: bool, more: seq<Event>)
    requires Within(env, full, more)
    ensures
      var trace := [Begin(full)] + more;
      && OneCycle(env, full, now, saved, trace) && OneCycle(env, full, now, saved, trace + [Finish(now, saved)])
      && trace[|trace| - 1] != Finish(now, saved)
      && (full && env.listFails ==> OneCycle(env, full, now, saved, trace + [Abort]))
  {
    var trace := [Begin(full)] + more;
    assert trace[1..] == more;
    assert (trace + [Finish(now, saved)])[1..|trace|] == more;
    assert (trace + [Abort])[1..] == more + [Abort];
    assert Allowed(env, full, Abort) || !(full && env.listFails);
    assert more != [] ==> Allowed(env, full, more[|more| - 1]);
    hide Allowed;
  }

  lemma OneCycleAt(env: Env, full: bool, now: int, saved: bool, trace: seq<Event>, k: nat)
    requires OneCycle(env, full, now, saved, trace) && k < |trace|
    ensures
      || (k == 0 && trace[k].Begin?) || Allowed(env, full, trace[k])
      || (k == |trace| - 1 && trace[k] == Finish(now, saved))
  {
    hide Allowed;
    if k > 0 {
      if Within(env, full, trace[1..]) { assert trace[1..][k - 1] == trace[k]; }
      else if k < |trace| - 1 { assert trace[1..|trace| - 1][k - 1] == trace[k]; }
    }
  }

  // ---- no lost update, from the environment ----

  /** The edits keep the ids of the records they are made to. */
  ghost predicate KeepsIds(env: Env) {
    forall m: nat, k: nat, u: User :: k < |env.edits(m)| && u.id == env.edits(m)[k].id
                                      ==> env.edits(m)[k].mutate(u).id == u.id
  }

  /** The edits are stamped within the filter of a cycle that starts from `checkpoint`. */
  ghost predicate InFilter(c: Config, env: Env, full: bool, checkpoint: int) {
    forall m: nat, k: nat :: k < |env.edits(m)| ==> After(env.edits(m)[k].at, Since(c, checkpoint, full))
  }

  /** The edits of records with other ids than `ids` reach the filter from `checkpoint`. */
  ghost predicate InTime(c: Config, env: Env, ids: set<string>, checkpoint: int) {
    forall m: nat, k: nat :: k < |env.edits(m)| && env.edits(m)[k].id !in ids
                             ==> Reaches(c, env.edits(m)[k].at, checkpoint)
  }

  /** A real cycle that takes `w` to `w'`, among edits that keep ids and do not leave its filter;
      those of records with other ids than `ids` are in view before it and after it. */
  ghost predicate Tended(c: Config, w: World, env: Env, full: bool, w': World, ids: set<string>) {
    && c.overlap > 0 && !c.dryRun && DistinctIds(w.users) && SoundExcept(c, w, Named(w.users, ids))
    && KeepsIds(env) && InFilter(c, env, full, w.checkpoint)
    && InTime(c, env, ids, w.checkpoint) && InTime(c, env, ids, w'.checkpoint)
  }

  lemma EditInTime(c: Config, env: Env, full: bool, e: Event, ids: set<string>, checkpoint: int)
    requires Allowed(env, full, e) && e.Touch? && e.id !in ids && InTime(c, env, ids, checkpoint)
    ensures Reaches(c, e.at, checkpoint)
  {
    var m: nat, k: nat, u: User :| Makes(env, m, k, u, e);
  }

  lemma EditInFilter(c: Config, env: Env, full: bool, e: Event, checkpoint: int)
    requires Allowed(env, full, e) && e.Touch? && KeepsIds(env) && InFilter(c, env, full, checkpoint)
    ensures e.after.id == e.id && After(e.at, Since(c, checkpoint, full))
  {
    var m: nat, k: nat, u: User :| Makes(env, m, k, u, e);
  }

  /** A walk under way keeps the bound it sends, and the checkpoint it set out from. */
  lemma WalkKeepsBound(c: Config, s: Sys, e: Event)
    requires c.pageSize > 0 && !e.Begin? && !e.Finish?
    ensures Next(c, s, e).world.checkpoint == s.world.checkpoint
    ensures Next(c, s, e).phase.Walking? ==> s.phase.Walking? && Next(c, s, e).phase.since == s.phase.since
  {
    hide Visit, AfterPage, Fetch, PageIx, Touched, Remember;
    if e.VisitNext? && Visiting(s.phase) {
      VisitKeepsCheckpoint(c, s.phase.full, s.world, s.phase.tally, s.phase.pending[0].user, e.fault);
    }
  }

  lemma {:induction false} BoundSoFar(
    c: Config, s: Sys, env: Env, full: bool, now: int, saved: bool, trace: seq<Event>, k: nat)
    requires c.pageSize > 0 && s.phase.Idle? && OneCycle(env, full, now, saved, trace) && k < |trace|
    ensures
      var q := Run(c, s, trace[..k]);
      && q.world.checkpoint == s.world.checkpoint
      && (q.phase.Walking? ==> q.phase.since == Since(c, s.world.checkpoint, full))
  {
    hide Next, Allowed, Within;
    if k > 0 {
      var e := trace[k - 1];
      BoundSoFar(c, s, env, full, now, saved, trace, k - 1);
      OneCycleAt(env, full, now, saved, trace, k - 1);
      assert trace[..k][..k - 1] == trace[..k - 1];
      if k == 1 {
        BeginsBound(c, s, full);
      } else {
        NotAllowed(env, full, e);
        WalkKeepsBound(c, Run(c, s, trace[..k - 1]), e);
      }
    }
  }

  lemma BeginsBound(c: Config, s: Sys, full: bool)
    requires c.pageSize > 0 && s.phase.Idle?
    ensures
      var q := Next(c, s, Begin(full));
      q.world == s.world && q.phase.Walking? && q.phase.since == Since(c, s.world.checkpoint, full)
  {}

  lemma NotAllowed(env: Env, full: bool, e: Event)
    ensures e.Finish? || e.Begin? ==> !Allowed(env, full, e)
  {}

  /** The edits of a cycle's trace keep the filter of its walk. */
  lemma TraceKeepsFilter(c: Config, s: Sys, env: Env, full: bool, now: int, saved: bool, trace: seq<Event>)
    requires c.pageSize > 0 && s.phase.Idle? && OneCycle(env, full, now, saved, trace)
    requires KeepsIds(env) && InFilter(c, env, full, s.world.checkpoint)
    ensures KeepsFilterRun(c, s, trace)
  {
    hide Run, Allowed, KeepsIds, InFilter, OneCycle, After, Since;
    forall k | 0 <= k < |trace| ensures KeepsFilter(Run(c, s, trace[..k]), trace[k]) {
      if trace[k].Touch? {
        OneCycleAt(env, full, now, saved, trace, k);
        BoundSoFar(c, s, env, full, now, saved, trace, k);
        EditInFilter(c, env, full, trace[k], s.world.checkpoint);
      }
    }
  }

  /** Where a cycle that has gone through leaves the checkpoint. */
  lemma FinishTarget(c: Config, s: Sys, now: int, saved: bool)
    requires c.pageSize > 0 && Anchored(s) && s.phase.Walking? && s.phase.done && saved
    ensures Next(c, s, Finish(now, saved)).world.checkpoint == Target(c, s.phase, now)
  {
    hide FinalDrift;
  }

  lemma LateInTime(
    c: Config, s: Sys, env: Env, full: bool, now: int, saved: bool, trace: seq<Event>, i: nat, ids: set<string>)
    requires c.pageSize > 0 && !c.dryRun && s.phase.Idle? && trace != [] && OneCycle(env, full, now, saved, trace)
    requires KeepsFilterRun(c, s, trace) && InTime(c, env, ids, Run(c, s, trace).world.checkpoint)
    requires
      var q := Run(c, s, trace[..|trace| - 1]);
      q.phase.Walking? && i in q.phase.hist.late && i < |q.world.users| && q.world.users[i].id !in ids
    ensures
      Reaches(c, Run(c, s, trace[..|trace| - 1]).world.users[i].lastModified, Run(c, s, trace).world.checkpoint)
  {
    hide Run, SameWalk, Allowed, InTime, OneCycle, Reaches, KeepsFilterRun;
    var n := |trace| - 1;
    PrefixKeepsFilter(c, s, trace, n);
    var k := LateHasEdit(c, s, trace[..n], i);
    assert trace[..n][k] == trace[k];
    OneCycleAt(env, full, now, saved, trace, k);
    EditInTime(c, env, full, trace[k], ids, Run(c, s, trace).world.checkpoint);
    ReachesLater(c, trace[k].at, Run(c, s, trace[..n]).world.users[i].lastModified, Run(c, s, trace).world.checkpoint);
  }

  lemma NothingPassedOver(
    c: Config, s: Sys, env: Env, full: bool, now: int, saved: bool, trace: seq<Event>, k: nat, i: nat, ids: set<string>)
    requires c.pageSize > 0 && !c.dryRun && s.phase.Idle? && OneCycle(env, full, now, saved, trace) && k < |trace|
    requires KeepsFilterRun(c, s, trace) && InTime(c, env, ids, Run(c, s, trace).world.checkpoint)
    requires i !in Named(s.world.users, ids)
    ensures !PassesOver(c, Run(c, s, trace[..k]), trace[k], i)
  {
    hide Run, Allowed, InTime, OneCycle, Target, Reaches, KeepsFilterRun, Reconciled;
    var q := Run(c, s, trace[..k]);
    if PassesOver(c, q, trace[k], i) {
      NotAllowed(env, full, trace[k]);
      OneCycleAt(env, full, now, saved, trace, k);
      PrefixKeepsFilter(c, s, trace, k);
      RunKeepsIds(c, s, trace[..k]);
      RunLast(c, s, trace);
      NeverRetreats(c, s, trace[..k]);
      FinishTarget(c, q, now, saved);
      LateInTime(c, s, env, full, now, saved, trace, i, ids);
    }
  }

  lemma TendedIsTimely(
    c: Config, s: Sys, env: Env, full: bool, now: int, saved: bool, trace: seq<Event>, ids: set<string>)
    requires c.pageSize > 0 && s.phase.Idle? && OneCycle(env, full, now, saved, trace)
    requires Tended(c, s.world, env, full, Run(c, s, trace).world, ids)
    ensures TimelyRun(c, s, trace, Named(s.world.users, ids))
  {
    hide Run, Allowed, KeepsIds, InTime, InFilter, OneCycle, Reaches, KeepsFilter, PassesOver, DistinctIds, SoundExcept;
    TraceKeepsFilter(c, s, env, full, now, saved, trace);
    forall k | 0 <= k < |trace| ensures Timely(c, Run(c, s, trace[..k]), trace[k], Named(s.world.users, ids)) {
      var q := Run(c, s, trace[..k]);
      PrefixKeepsFilter(c, s, trace, k);
      RunKeepsIds(c, s, trace[..k]);
      if Edits(q, trace[k]) && IndexOf(q.world.users, trace[k].id) !in Named(s.world.users, ids) {
        OneCycleAt(env, full, now, saved, trace, k);
        BoundSoFar(c, s, env, full, now, saved, trace, k);
        EditInTime(c, env, full, trace[k], ids, s.world.checkpoint);
      }
      forall i: nat | i !in Named(s.world.users, ids) ensures !PassesOver(c, q, trace[k], i) {
        NothingPassedOver(c, s, env, full, now, saved, trace, k, i, ids);
      }
    }
  }

  lemma RunLast(c: Config, s: Sys, es: seq<Event>)
    requires c.pageSize > 0 && es != []
    ensures Run(c, s, es) == Next(c, Run(c, s, es[..|es| - 1]), es[|es| - 1])
  {}

  /** No lost update for a cycle of the reconciler, from what its environment does: of no record
      whose edits are in view before it and after it, whatever happens to the others. */
  lemma CycleKeepsSound(c: Config, s: Sys, env: Env, full: bool, now: int, saved: bool, trace: seq<Event>)
    requires c.pageSize > 0 && s.phase.Idle? && OneCycle(env, full, now, saved, trace)
    ensures
      forall ids: set<string> :: Tended(c, s.world, env, full, Run(c, s, trace).world, ids)
        ==> SoundExcept(c, Run(c, s, trace).world, Named(s.world.users, ids))
  {
    hide OneCycle, KeepsIds, InTime, InFilter, SoundExcept, DistinctIds, Run;
    forall ids: set<string> | Tended(c, s.world, env, full, Run(c, s, trace).world, ids)
      ensures SoundExcept(c, Run(c, s, trace).world, Named(s.world.users, ids))
    {
      TendedIsTimely(c, s, env, full, now, saved, trace, ids);
      NoneElseIsLost(c, s, trace, Named(s.world.users, ids));
    }
  }
}
