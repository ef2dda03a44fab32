/** A cycle that succeeds has written back: every externalId it found wanting is accepted, and stays
    bound, or is in conflict. */
module WrittenBack {
  import opened Records
  import opened Protocol
  import opened Pager
  import opened Cycle
  import opened Effects
  import opened Snapshot

  /** `d`'s account id is in the directory as its externalId. */
  ghost predicate Delivered(w: World, d: string) {
    && d in w.helpers && w.helpers[d].id in w.bound && w.bound[w.helpers[d].id] == d
    && forall i :: 0 <= i < |w.users| && w.users[i].id == d ==> w.users[i].externalId == w.helpers[d].id
  }

  /** Another identity holds it. */
  ghost predicate InConflict(w: World, d: string) {
    d in w.helpers && w.helpers[d].id in w.bound && w.bound[w.helpers[d].id] != d
  }

  lemma WriteBackDelivers(w: World, d: string, v: string, f: Fault, s: Stats)
    requires d in w.helpers && w.helpers[d].id == v
    ensures
      var r := WriteBack(false, w, d, v, f, s);
      r.ok ==> r.w.helpers == w.helpers && (Delivered(r.w, d) || InConflict(r.w, d))
  {}

  /** A PATCH whose reply is lost has been performed all the same, and is a failure. */
  lemma LostReplyIsPerformed(w: World, d: string, v: string, s: Stats)
    requires v != ""
    ensures
      var r := WriteBack(false, w, d, v, PatchReplyLost, s);
      !r.ok && r.stats == s && r.w == WriteBack(false, w, d, v, NoFault, s).w
  {}

  /** An accepted value is on every record of the identity, each stamped one second later, so that
      the write-back comes back as an echo; nothing else of any record changes. */
  lemma AcceptedIsStamped(w: World, d: string, v: string, i: nat)
    requires i < |w.users| && PatchOutcome(w.users, w.bound, d, v) == Accepted
    ensures
      var u, u' := w.users[i], Patched(w, d, v).users[i];
      if u.id == d then u' == u.(externalId := v, lastModified := u.lastModified + 1_000_000_000) else u' == u
  {}

  lemma WriteBackCountsOnce(dry: bool, w: World, d: string, v: string, f: Fault, s: Stats)
    ensures
      var r := WriteBack(dry, w, d, v, f, s);
      r.ok ==> r.stats.wroteBack + r.stats.conflicts == s.wroteBack + s.conflicts + 1
  {}

  lemma SyncIsNoWriteBack(dry: bool, w: World, u: User, p: Helpper, f: Fault, s: Stats)
    requires u.active.Some? && Get(w.helpers, u.id) == Some(p)
    ensures
      var r := SyncState(dry, w, u, p, f, s);
      && r.stats.wroteBack == s.wroteBack && r.stats.conflicts == s.conflicts
      && u.id in r.w.helpers && r.w.helpers[u.id].id == p.id
  {
    hide PrimaryEmail;
  }

  lemma KnownDelivers(dry: bool, w: World, u: User, p: Helpper, f: Fault, s: Stats)
    requires Usable(u) && u.active.Some? && Get(w.helpers, u.id) == Some(p)
    ensures
      var a := ApplyKnown(dry, w, u, p, f, s);
      a.ok ==>
        && a.stats.wroteBack + a.stats.conflicts == s.wroteBack + s.conflicts + (if Wants(w.helpers, u) then 1 else 0)
        && (!dry && Wants(w.helpers, u) ==> Delivered(a.w, u.id) || InConflict(a.w, u.id))
  {
    hide WriteBack, SyncState, Delivered, InConflict, Validate;
    var synced := SyncState(dry, w, u, p, f, s);
    SyncIsNoWriteBack(dry, w, u, p, f, s);
    WriteBackCountsOnce(dry, synced.w, u.id, p.id, f, synced.stats);
    WriteBackDelivers(synced.w, u.id, p.id, f, synced.stats);
  }

  lemma NewDelivers(dry: bool, w: World, u: User, f: Fault, s: Stats)
    requires Usable(u) && u.active.Some? && u.id !in w.helpers
    ensures
      var a := ApplyNew(dry, w, u, f, s);
      a.ok ==>
        && a.stats.wroteBack + a.stats.conflicts == s.wroteBack + s.conflicts + (if Wants(w.helpers, u) then 1 else 0)
        && (!dry && Wants(w.helpers, u) ==> Delivered(a.w, u.id) || InConflict(a.w, u.id))
  {
    hide WriteBack, Delivered, InConflict, Validate, PrimaryEmail;
    var w', s' := WithAccount(w, u.id, PrimaryEmail(u), u.displayName), s.(created := s.created + 1);
    WriteBackCountsOnce(dry, w', u.id, w'.helpers[u.id].id, f, s');
    WriteBackCountsOnce(dry, w, u.id, DRY_RUN_ID, f, s');
    WriteBackDelivers(w', u.id, w'.helpers[u.id].id, f, s');
  }

  /** Whatever fails, a record that is applied with success has had one write-back or conflict
      counted exactly if it wanted one; in a real run its value is then in the directory, or held
      by another identity. */
  lemma ApplyDelivers(dry: bool, w: World, u: User, f: Fault, s: Stats)
    ensures
      var a := Apply(dry, w, u, f, s);
      a.ok ==>
        && a.stats.wroteBack + a.stats.conflicts == s.wroteBack + s.conflicts + (if Wants(w.helpers, u) then 1 else 0)
        && (!dry && Wants(w.helpers, u) ==> Delivered(a.w, u.id) || InConflict(a.w, u.id))
  {
    hide ApplyKnown, ApplyNew, Delivered, InConflict, Validate;
    if Usable(u) && f != LookupFails {
      UsableHasFlag(u);
      var s1 := s.(scanned := s.scanned + 1);
      match Get(w.helpers, u.id)
      case Some(p) => KnownDelivers(dry, w, u, p, f, s1);
      case None => NewDelivers(dry, w, u, f, s1);
    }
  }

  /** A record that is usable and was applied with success, and wanted nothing, carries its
      account's id or has no account. */
  lemma WantsNothing(h: Helppers, u: User)
    requires Usable(u) && !Wants(h, u)
    ensures if u.id in h then u.externalId == h[u.id].id else u.active == Some(false)
  {
    UsableHasFlag(u);
  }

  lemma VisitDelivers(c: Config, full: bool, w: World, t: Tally, u: User, f: Fault)
    ensures
      var v := Visit(c, full, w, t, u, f);
      v.ok ==>
        && v.tally.stats.wroteBack + v.tally.stats.conflicts
           == t.stats.wroteBack + t.stats.conflicts + (if Wants(w.helpers, u) then 1 else 0)
        && (!c.dryRun && Wants(w.helpers, u) ==> Delivered(v.w, u.id) || InConflict(v.w, u.id))
  {
    hide Apply, Wants, Delivered, InConflict;
    ApplyDelivers(c.dryRun, w, u, f, t.stats);
  }

  // ---- what is bound stays bound ----

  /** `d`'s account id is bound to it. */
  ghost predicate Bound(w: World, d: string) {
    d in w.helpers && w.helpers[d].id in w.bound && w.bound[w.helpers[d].id] == d
  }

  lemma WriteBackKeepsBound(w: World, e: string, v: string, f: Fault, s: Stats, d: string)
    requires Bound(w, d) && (e == d <==> v == w.helpers[d].id)
    ensures Bound(WriteBack(false, w, e, v, f, s).w, d)
  {}

  lemma KnownKeepsBound(w: World, u: User, p: Helpper, f: Fault, s: Stats, d: string)
    requires ValidStore(w) && u.active.Some? && Get(w.helpers, u.id) == Some(p) && Bound(w, d)
    ensures Bound(ApplyKnown(false, w, u, p, f, s).w, d)
  {
    hide WriteBack, PrimaryEmail, Issued;
    var synced := SyncState(false, w, u, p, f, s);
    WriteBackKeepsBound(synced.w, u.id, p.id, f, synced.stats, d);
  }

  lemma NewKeepsBound(w: World, u: User, f: Fault, s: Stats, d: string)
    requires ValidStore(w) && u.active.Some? && u.id !in w.helpers && Bound(w, d)
    ensures Bound(ApplyNew(false, w, u, f, s).w, d)
  {
    hide WriteBack, PrimaryEmail, Issued;
    var w' := WithAccount(w, u.id, PrimaryEmail(u), u.displayName);
    NextIdIsNew(w.helpers[d].id, w.nextID);
    WriteBackKeepsBound(w', u.id, w'.helpers[u.id].id, f, s.(created := s.created + 1), d);
  }

  lemma ApplyKeepsBound(w: World, u: User, f: Fault, s: Stats, d: string)
    requires ValidStore(w) && Bound(w, d)
    ensures Bound(Apply(false, w, u, f, s).w, d)
  {
    hide ApplyKnown, ApplyNew, ValidStore, Bound;
    if Usable(u) && f != LookupFails {
      UsableHasFlag(u);
      var s1 := s.(scanned := s.scanned + 1);
      match Get(w.helpers, u.id)
      case Some(p) => KnownKeepsBound(w, u, p, f, s1, d);
      case None => NewKeepsBound(w, u, f, s1, d);
    }
  }

  lemma StepKeepsBound(c: Config, s: Sys, e: Event, d: string)
    requires c.pageSize > 0 && !c.dryRun && ValidStore(s.world) && Bound(s.world, d)
    ensures ValidStore(Next(c, s, e).world) && Bound(Next(c, s, e).world, d)
  {
    hide Apply, AfterPage, FinalDrift, Fetch, PageIx, AllMatches, Touched, Remember, ValidHelpers;
    if e.VisitNext? && Visiting(s.phase) {
      var u := s.phase.pending[0].user;
      ApplyKeepsBound(s.world, u, e.fault, s.phase.tally.stats, d);
      ApplyValid(false, s.world, u, e.fault, s.phase.tally.stats);
    }
  }

  lemma {:induction false} BoundStays(c: Config, s: Sys, es: seq<Event>, d: string)
    requires c.pageSize > 0 && !c.dryRun && ValidStore(s.world) && Bound(s.world, d)
    ensures ValidStore(Run(c, s, es).world) && Bound(Run(c, s, es).world, d)
  {
    hide Next, ValidStore, Bound;
    if es != [] {
      BoundStays(c, s, es[..|es| - 1], d);
      StepKeepsBound(c, Run(c, s, es[..|es| - 1]), es[|es| - 1], d);
    }
  }

  lemma StepKeepsStore(c: Config, s: Sys, e: Event)
    requires c.pageSize > 0 && ValidStore(s.world)
    ensures ValidStore(Next(c, s, e).world)
  {
    hide Apply, AfterPage, FinalDrift, Fetch, PageIx, Touched, Remember, ValidHelpers;
    if e.VisitNext? && Visiting(s.phase) {
      ApplyValid(c.dryRun, s.world, s.phase.pending[0].user, e.fault, s.phase.tally.stats);
    }
  }

  lemma {:induction false} RunKeepsStore(c: Config, s: Sys, es: seq<Event>)
    requires c.pageSize > 0 && ValidStore(s.world)
    ensures ValidStore(Run(c, s, es).world)
  {
    hide Next, ValidStore;
    if es != [] {
      RunKeepsStore(c, s, es[..|es| - 1]);
      StepKeepsStore(c, Run(c, s, es[..|es| - 1]), es[|es| - 1]);
    }
  }

  // ---- over runs ----

  /** Event `k` of the run applied entry `r` with success. */
  ghost predicate AppliedWell(c: Config, s: Sys, es: seq<Event>, k: nat, r: Rec)
    requires c.pageSize > 0
  {
    && k < |es| && es[k].VisitNext?
    && var q := Run(c, s, es[..k]);
    && Visiting(q.phase) && q.phase.pending[0] == r
    && Visit(c, q.phase.full, q.world, q.phase.tally, r.user, es[k].fault).ok
  }

  lemma LogGrowsByVisit(c: Config, s: Sys, e: Event, r: Rec)
    requires c.pageSize > 0
    requires var p := Next(c, s, e).phase; p.Walking? && r in p.hist.log
    ensures s.phase.Walking?
    ensures
      r in s.phase.hist.log ||
      (e.VisitNext? && Visiting(s.phase) && s.phase.pending[0] == r
       && Visit(c, s.phase.full, s.world, s.phase.tally, r.user, e.fault).ok)
  {
    hide Visit, AfterPage, FinalDrift, Fetch, PageIx, AllMatches, Touched, Matches;
  }

  lemma {:induction false} LoggedWasApplied(c: Config, s: Sys, es: seq<Event>, r: Rec) returns (k: nat)
    requires c.pageSize > 0 && s.phase.Idle?
    requires var p := Run(c, s, es).phase; p.Walking? && r in p.hist.log
    ensures AppliedWell(c, s, es, k, r)
  {
    hide Next, Visit;
    var n := |es| - 1;
    var q := Run(c, s, es[..n]);
    LogGrowsByVisit(c, q, es[n], r);
    if q.phase.Walking? && r in q.phase.hist.log {
      k := LoggedWasApplied(c, s, es[..n], r);
      assert es[..n][..k] == es[..k];
    } else {
      k := n;
    }
  }

  /** Whatever a walk has applied and wanted written back was in conflict when it was applied, or is
      bound now. In particular this holds of every record of a cycle that succeeds. */
  lemma AppliedIsBound(c: Config, s: Sys, es: seq<Event>, r: Rec) returns (k: nat)
    requires c.pageSize > 0 && !c.dryRun && s.phase.Idle? && ValidStore(s.world)
    requires var p := Run(c, s, es).phase; p.Walking? && r in p.hist.log
    ensures AppliedWell(c, s, es, k, r)
    ensures
      Wants(Run(c, s, es[..k]).world.helpers, r.user) ==>
        InConflict(Run(c, s, es[..k + 1]).world, r.user.id) || Bound(Run(c, s, es).world, r.user.id)
  {
    hide Next, Visit, Wants, InConflict, ValidStore, Delivered;
    k := LoggedWasApplied(c, s, es, r);
    var q := Run(c, s, es[..k]);
    VisitDelivers(c, q.phase.full, q.world, q.phase.tally, r.user, es[k].fault);
    assert es[..k + 1][..k] == es[..k];
    VisitIsNext(c, q, es[k]);
    if Wants(q.world.helpers, r.user) && !InConflict(Run(c, s, es[..k + 1]).world, r.user.id) {
      RunKeepsStore(c, s, es[..k + 1]);
      DeliveredIsBound(Run(c, s, es[..k + 1]).world, r.user.id);
      RunAppend(c, s, es[..k + 1], es[k + 1..]);
      assert es[..k + 1] + es[k + 1..] == es;
      BoundStays(c, Run(c, s, es[..k + 1]), es[k + 1..], r.user.id);
    }
  }

  lemma DeliveredIsBound(w: World, d: string)
    requires Delivered(w, d)
    ensures Bound(w, d)
  {}

  lemma VisitIsNext(c: Config, s: Sys, e: Event)
    requires c.pageSize > 0 && e.VisitNext? && Visiting(s.phase)
    ensures
      Next(c, s, e).world == Visit(c, s.phase.full, s.world, s.phase.tally, s.phase.pending[0].user, e.fault).w
  {
    hide Visit, AfterPage;
  }

  // ---- the counters ----

  /** The event applies, with success, a record that wants a write-back. */
  predicate WishGranted(c: Config, s: Sys, e: Event) {
    && e.VisitNext? && Visiting(s.phase) && Wants(s.world.helpers, s.phase.pending[0].user)
    && Visit(c, s.phase.full, s.world, s.phase.tally, s.phase.pending[0].user, e.fault).ok
  }

  /** How many of the records applied with success since the walk began wanted a write-back. */
  ghost function Wished(c: Config, s: Sys, es: seq<Event>): nat
    requires c.pageSize > 0
    decreases |es|
  {
    if es == [] then 0
    else
      var n := |es| - 1;
      var q, e := Run(c, s, es[..n]), es[n];
      if q.phase.Idle? then 0
      else Wished(c, s, es[..n]) + (if WishGranted(c, q, e) then 1 else 0)
  }

  lemma StepCountsWishes(c: Config, s: Sys, e: Event)
    requires c.pageSize > 0 && Next(c, s, e).phase.Walking?
    ensures
      var t := Next(c, s, e).phase.tally.stats;
      if s.phase.Idle? then t.wroteBack + t.conflicts == 0
      else if e.VisitNext? && Visiting(s.phase) then
        var v := Visit(c, s.phase.full, s.world, s.phase.tally, s.phase.pending[0].user, e.fault);
        && v.ok
        && t.wroteBack + t.conflicts == s.phase.tally.stats.wroteBack + s.phase.tally.stats.conflicts
             + (if Wants(s.world.helpers, s.phase.pending[0].user) then 1 else 0)
      else t == s.phase.tally.stats
  {
    hide Visit, AfterPage, FinalDrift, Fetch, PageIx, AllMatches, Touched, Remember, Wants;
    if e.VisitNext? && Visiting(s.phase) {
      VisitDelivers(c, s.phase.full, s.world, s.phase.tally, s.phase.pending[0].user, e.fault);
    }
  }

  /** A walk under way has counted exactly its wishes, as written back or in conflict, whatever
      failed in other walks. */
  lemma {:induction false} WishesAreCounted(c: Config, s: Sys, es: seq<Event>)
    requires c.pageSize > 0 && s.phase.Idle?
    ensures
      var p := Run(c, s, es).phase;
      p.Walking? ==> p.tally.stats.wroteBack + p.tally.stats.conflicts == Wished(c, s, es)
  {
    hide Next, Visit, Wants;
    if es != [] && Run(c, s, es).phase.Walking? {
      WishesAreCounted(c, s, es[..|es| - 1]);
      StepCountsWishes(c, Run(c, s, es[..|es| - 1]), es[|es| - 1]);
    }
  }

  /** When a cycle ends well, its write-backs and conflicts are as many as the records it applied
      that wanted one, and each of those is bound or was in conflict when it was applied. */
  lemma SuccessWritesBack(c: Config, s: Sys, es: seq<Event>, e: Event)
    requires c.pageSize > 0 && !c.dryRun && s.phase.Idle? && ValidStore(s.world)
    requires Run(c, s, es).phase.Walking? && Next(c, Run(c, s, es), e).phase.Idle?
    requires Next(c, Run(c, s, es), e).phase.last.ok
    ensures
      var st := Next(c, Run(c, s, es), e).phase.last.stats;
      st.wroteBack + st.conflicts == Wished(c, s, es)
    ensures
      forall r :: r in Run(c, s, es).phase.hist.log ==> IsBound(c, s, es, r, Next(c, Run(c, s, es), e).world)
  {
    hide Run, Wished;
    WishesAreCounted(c, s, es);
    EndsByFinish(c, Run(c, s, es), e);
    forall r | r in Run(c, s, es).phase.hist.log
      ensures IsBound(c, s, es, r, Next(c, Run(c, s, es), e).world)
    {
      var k := AppliedIsBound(c, s, es, r);
      hide *;
      SameBound(Run(c, s, es).world, Next(c, Run(c, s, es), e).world, r.user.id);
      IsBoundBy(c, s, es, r, Next(c, Run(c, s, es), e).world, k);
    }
  }

  /** Some event applied the record with success, and if it wanted a write-back it was in conflict
      then or is bound in `w`. */
  ghost predicate IsBound(c: Config, s: Sys, es: seq<Event>, r: Rec, w: World)
    requires c.pageSize > 0
  {
    exists k: nat :: AppliedWell(c, s, es, k, r) &&
      (Wants(Run(c, s, es[..k]).world.helpers, r.user) ==>
         InConflict(Run(c, s, es[..k + 1]).world, r.user.id) || Bound(w, r.user.id))
  }

  lemma IsBoundBy(c: Config, s: Sys, es: seq<Event>, r: Rec, w: World, k: nat)
    requires c.pageSize > 0 && AppliedWell(c, s, es, k, r)
    requires
      Wants(Run(c, s, es[..k]).world.helpers, r.user) ==>
        InConflict(Run(c, s, es[..k + 1]).world, r.user.id) || Bound(w, r.user.id)
    ensures IsBound(c, s, es, r, w)
  {}

  lemma SameBound(w: World, w': World, d: string)
    requires w'.helpers == w.helpers && w'.bound == w.bound
    ensures Bound(w, d) == Bound(w', d)
  {}

  /** Only the end of a walk that has gone through is a success. */
  lemma EndsByFinish(c: Config, s: Sys, e: Event)
    requires c.pageSize > 0 && s.phase.Walking? && Next(c, s, e).phase.Idle? && Next(c, s, e).phase.last.ok
    ensures e.Finish? && s.phase.done && Next(c, s, e).phase.last.stats == s.phase.tally.stats
    ensures Next(c, s, e).world.helpers == s.world.helpers && Next(c, s, e).world.bound == s.world.bound
  {
    hide Visit, AfterPage, FinalDrift, Fetch, PageIx, Touched, Remember, Target;
  }
}
