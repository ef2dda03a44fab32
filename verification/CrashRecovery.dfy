/** Stopping a cycle anywhere and running it again costs nothing. */
module CrashRecovery {
  import opened Records
  import opened Protocol
  import opened Pager
  import opened Effects
  import opened Bindings
  import opened Snapshot
  import opened QuietWalk
  import opened Cycle

  // ---- states that differ in directory stamps only ----

  function Unstamped(u: User): User { u.(lastModified := 0) }

  ghost predicate SameUsers(a: seq<User>, b: seq<User>) {
    |a| == |b| && forall i :: 0 <= i < |a| ==> Unstamped(a[i]) == Unstamped(b[i])
  }

  ghost predicate SameButStamps(a: World, b: World) {
    a.helpers == b.helpers && a.nextID == b.nextID && a.bound == b.bound && SameUsers(a.users, b.users)
  }

  lemma UnstampedParts(u: User, v: User)
    requires Unstamped(u) == Unstamped(v)
    ensures u.id == v.id && u.externalId == v.externalId && u.userName == v.userName
         && u.displayName == v.displayName && u.emails == v.emails && u.active == v.active
    ensures Validate(u) == Validate(v) && PrimaryEmail(u) == PrimaryEmail(v)
  {}

  lemma PatchedSame(a: World, b: World, d: string, v: string)
    requires SameButStamps(a, b)
    ensures SameButStamps(Patched(a, d, v), Patched(b, d, v))
    ensures PatchOutcome(a.users, a.bound, d, v) == PatchOutcome(b.users, b.bound, d, v)
  {}

  lemma WriteBackSame(a: World, b: World, d: string, v: string, f: Fault, s: Stats, s': Stats)
    requires SameButStamps(a, b)
    ensures
      var x, y := WriteBack(false, a, d, v, f, s), WriteBack(false, b, d, v, f, s');
      SameButStamps(x.w, y.w) && x.ok == y.ok && x.stats.conflicts - s.conflicts == y.stats.conflicts - s'.conflicts
  {
    PatchedSame(a, b, d, v);
    hide SameUsers, Patched, PatchOutcome;
  }

  /** Outcomes alike: the same effects up to stamps, the same success, the same conflicts. */
  ghost predicate SameOutcome(x: Applied, s: Stats, y: Applied, s': Stats) {
    SameButStamps(x.w, y.w) && x.ok == y.ok && x.stats.conflicts - s.conflicts == y.stats.conflicts - s'.conflicts
  }

  lemma KnownSame(a: World, b: World, u: User, v: User, p: Helpper, f: Fault, s: Stats, s': Stats)
    requires SameButStamps(a, b) && Unstamped(u) == Unstamped(v) && Usable(u) && u.active.Some? && v.active.Some?
    ensures SameOutcome(ApplyKnown(false, a, u, p, f, s), s, ApplyKnown(false, b, v, p, f, s'), s')
  {
    UnstampedParts(u, v);
    var x, y := SyncState(false, a, u, p, f, s), SyncState(false, b, v, p, f, s');
    WriteBackSame(x.w, y.w, u.id, p.id, f, x.stats, y.stats);
    hide WriteBack, PrimaryEmail, SameUsers, Validate;
  }

  lemma NewSame(a: World, b: World, u: User, v: User, f: Fault, s: Stats, s': Stats)
    requires SameButStamps(a, b) && Unstamped(u) == Unstamped(v) && u.active.Some? && v.active.Some?
    ensures SameOutcome(ApplyNew(false, a, u, f, s), s, ApplyNew(false, b, v, f, s'), s')
  {
    UnstampedParts(u, v);
    var x := WithAccount(a, u.id, PrimaryEmail(u), u.displayName);
    var y := WithAccount(b, v.id, PrimaryEmail(v), v.displayName);
    WriteBackSame(x, y, u.id, x.helpers[u.id].id, f, s.(created := s.created + 1), s'.(created := s'.created + 1));
    hide WriteBack, PrimaryEmail, SameUsers, Validate;
  }

  lemma ApplySame(a: World, b: World, u: User, v: User, f: Fault, s: Stats, s': Stats)
    requires SameButStamps(a, b) && Unstamped(u) == Unstamped(v)
    ensures SameOutcome(Apply(false, a, u, f, s), s, Apply(false, b, v, f, s'), s')
  {
    hide ApplyKnown, ApplyNew, PrimaryEmail, SameUsers, Unstamped;
    UnstampedParts(u, v);
    if Usable(u) && f != LookupFails {
      var t, t' := s.(scanned := s.scanned + 1), s'.(scanned := s'.scanned + 1);
      match Get(a.helpers, u.id)
      case Some(p) => KnownSame(a, b, u, v, p, f, t, t');
      case None => NewSame(a, b, u, v, f, t, t');
    }
  }

  // ---- redoing a record that was stopped half-way ----

  /** The record asks for nothing more. */
  predicate Done(w: World, u: User) {
    Usable(u) ==>
      if u.id in w.helpers then InState(w.helpers[u.id], u) && u.externalId == w.helpers[u.id].id else !u.active.value
  }

  lemma DoneIsNoop(w: World, u: User, s: Stats)
    requires Done(w, u)
    ensures var a := Apply(false, w, u, NoFault, s); a.w == w && a.ok && a.stats.conflicts == s.conflicts
  {}

  /** Applied in full, with no fault and no conflict. */
  ghost predicate Clean(w: World, u: User) {
    var a := Apply(false, w, u, NoFault, NO_STATS);
    a.ok && a.stats.conflicts == 0
  }

  lemma CleanWriteBack(w: World, x: nat, v: string, s: Stats)
    requires x < |w.users| && v != ""
    requires var r := WriteBack(false, w, w.users[x].id, v, NoFault, s); r.ok && r.stats.conflicts == s.conflicts
    ensures WriteBack(false, w, w.users[x].id, v, NoFault, s).w == Patched(w, w.users[x].id, v)
    ensures Patched(w, w.users[x].id, v).users[x] == Stamped(w.users[x], v)
  {}

  lemma KnownGetsDone(w: World, x: nat, s: Stats)
    requires ValidStore(w) && x < |w.users| && Usable(w.users[x]) && w.users[x].id in w.helpers
    requires
      var u := w.users[x];
      var a := ApplyKnown(false, w, u, w.helpers[u.id], NoFault, s); a.ok && a.stats.conflicts == s.conflicts
    ensures
      var u := w.users[x];
      var w' := ApplyKnown(false, w, u, w.helpers[u.id], NoFault, s).w;
      |w'.users| == |w.users| && Done(w', w'.users[x])
  {}

  lemma NewGetsDone(w: World, x: nat, s: Stats)
    requires x < |w.users| && Usable(w.users[x]) && w.users[x].id !in w.helpers
    requires
      var a := ApplyNew(false, w, w.users[x], NoFault, s); a.ok && a.stats.conflicts == s.conflicts
    ensures
      var w' := ApplyNew(false, w, w.users[x], NoFault, s).w;
      |w'.users| == |w.users| && Done(w', w'.users[x])
  {}

  lemma CleanGetsDone(w: World, x: nat)
    requires ValidStore(w) && x < |w.users| && Clean(w, w.users[x])
    ensures var w' := Apply(false, w, w.users[x], NoFault, NO_STATS).w; |w'.users| == |w.users| && Done(w', w'.users[x])
  {
    hide PrimaryEmail, ApplyKnown, ApplyNew, ValidStore;
    var u, s1 := w.users[x], NO_STATS.(scanned := 1);
    if Usable(u) {
      if u.id in w.helpers { KnownGetsDone(w, x, s1); } else { NewGetsDone(w, x, s1); }
    }
  }

  lemma PatchedKeepsHelpers(w: World, d: string, v: string)
    ensures Patched(w, d, v).helpers == w.helpers && |Patched(w, d, v).users| == |w.users|
  {}

  /** The state after the store's part of a record, before the directory's. */
  function AfterStore(w: World, u: User): World
    requires Usable(u)
  {
    if u.id in w.helpers
    then w.(helpers := w.helpers[u.id := Restated(w.helpers[u.id], u.active.value, u.displayName, PrimaryEmail(u))])
    else if u.active.value then WithAccount(w, u.id, PrimaryEmail(u), u.displayName)
    else w
  }

  /** The three states a record can be left in. */
  lemma StoppedSomewhere(w: World, u: User, f: Fault)
    requires Clean(w, u)
    ensures
      var x := Apply(false, w, u, f, NO_STATS).w;
      x == w || x == Apply(false, w, u, NoFault, NO_STATS).w || (Usable(u) && x == AfterStore(w, u))
  {}

  lemma WriteBackIgnoresStats(w: World, d: string, v: string, s: Stats, s': Stats)
    ensures
      var x, y := WriteBack(false, w, d, v, NoFault, s), WriteBack(false, w, d, v, NoFault, s');
      x.w == y.w && x.ok == y.ok && x.stats.conflicts - s.conflicts == y.stats.conflicts - s'.conflicts
  {}

  lemma RedoKnown(w: World, u: User)
    requires Usable(u) && u.id in w.helpers && Clean(w, u)
    ensures
      var a := Apply(false, AfterStore(w, u), u, NoFault, NO_STATS);
      a.ok && a.stats.conflicts == 0 && a.w == Apply(false, w, u, NoFault, NO_STATS).w
  {}

  lemma RedoNew(w: World, x: nat)
    requires DistinctIds(w.users) && Inverse(w.users, w.bound)
    requires x < |w.users| && Usable(w.users[x]) && w.users[x].id !in w.helpers && Clean(w, w.users[x])
    ensures
      var u := w.users[x];
      var a := Apply(false, AfterStore(w, u), u, NoFault, NO_STATS);
      a.ok && a.stats.conflicts == 0 && SameButStamps(a.w, Apply(false, w, u, NoFault, NO_STATS).w)
  {
    var u, s1 := w.users[x], NO_STATS.(scanned := 1);
    SameUsersReflexive(w.users);
    if u.active.value {
      var w1 := AfterStore(w, u);
      var v := w1.helpers[u.id].id;
      CleanWriteBack(w1, x, v, s1.(created := 1));
      WriteBackIgnoresStats(w1, u.id, v, s1.(created := 1), s1.(unmodified := 1));
      if u.externalId == v { ReboundSame(w1, x, v); SamePatched(w1, u.id, v, x); }
      SameUsersReflexive(Patched(w1, u.id, v).users);
    }
    hide WriteBack, PrimaryEmail, Validate, Rebound, PatchedUsers, SameUsers, Inverse, DistinctIds;
  }

  /** Redoing a record whose account is in place ends where doing it at once does. */
  lemma RedoAfterStore(w: World, x: nat)
    requires DistinctIds(w.users) && Inverse(w.users, w.bound)
    requires x < |w.users| && Usable(w.users[x]) && Clean(w, w.users[x])
    ensures
      var u := w.users[x];
      var a := Apply(false, AfterStore(w, u), u, NoFault, NO_STATS);
      a.ok && a.stats.conflicts == 0 && SameButStamps(a.w, Apply(false, w, u, NoFault, NO_STATS).w)
  {
    hide Apply, AfterStore, Validate;
    if w.users[x].id in w.helpers {
      RedoKnown(w, w.users[x]);
      SameUsersReflexive(Apply(false, w, w.users[x], NoFault, NO_STATS).w.users);
    } else {
      RedoNew(w, x);
    }
  }

  lemma SameUsersReflexive(a: seq<User>)
    ensures SameUsers(a, a)
  {}

  /** Writing back the value a record already holds changes only its stamp. */
  lemma SamePatched(w: World, d: string, v: string, x: nat)
    requires DistinctIds(w.users) && x < |w.users| && w.users[x].id == d != "" && w.users[x].externalId == v
    ensures SameUsers(w.users, Patched(w, d, v).users)
  {}

  // ---- the uninterrupted walk ----

  /** The walk over the whole snapshot, as far as its first `j` records. */
  function Upto(c: Config, full: bool, w: World, since: int, j: nat): Visited
    requires j <= |Selected(w.users, since)|
  {
    Scan(c, full, w, NO_TALLY, Selected(w.users, since)[..j])
  }

  lemma UptoStep(c: Config, full: bool, w: World, since: int, j: nat)
    requires j < |Selected(w.users, since)|
    ensures
      var v := Upto(c, full, w, since, j);
      Upto(c, full, w, since, j + 1)
      == if v.ok then Visit(c, full, v.w, v.tally, Selected(w.users, since)[j], NoFault) else v
  {
    hide Selected, Visit;
    var snap := Selected(w.users, since);
    assert snap[..j + 1] == snap[..j] + [snap[j]];
    ScanStep(c, full, w, NO_TALLY, snap[..j], snap[j]);
  }

  /** The directory's half of a healthy state. */
  ghost predicate Consistent(w: World) { DistinctIds(w.users) && Inverse(w.users, w.bound) }

  /** Everything a healthy start guarantees. */
  ghost predicate Healthy(w: World) { ValidStore(w) && Consistent(w) }

  lemma WriteBackConsistent(w: World, d: string, v: string, f: Fault, s: Stats)
    requires Consistent(w) && d != ""
    ensures Consistent(WriteBack(false, w, d, v, f, s).w)
  {
    hide Inverse, DistinctIds, PatchOutcome;
    if v != "" && PatchOutcome(w.users, w.bound, d, v) == Accepted { PatchKeepsInverse(w, d, v); }
    PatchedDistinct(w, d, v);
  }

  lemma KnownConsistent(w: World, u: User, p: Helpper, f: Fault, s: Stats)
    requires Consistent(w) && u.id != "" && u.active.Some?
    ensures Consistent(ApplyKnown(false, w, u, p, f, s).w)
  {
    hide WriteBack, PrimaryEmail, Inverse, DistinctIds;
    var synced := SyncState(false, w, u, p, f, s);
    WriteBackConsistent(synced.w, u.id, p.id, f, synced.stats);
  }

  lemma NewConsistent(w: World, u: User, f: Fault, s: Stats)
    requires Consistent(w) && u.id != "" && u.active.Some?
    ensures Consistent(ApplyNew(false, w, u, f, s).w)
  {
    hide WriteBack, PrimaryEmail, Inverse, DistinctIds;
    var w' := WithAccount(w, u.id, PrimaryEmail(u), u.displayName);
    WriteBackConsistent(w', u.id, w'.helpers[u.id].id, f, s.(created := s.created + 1));
  }

  lemma ApplyHealthy(w: World, u: User, f: Fault, s: Stats)
    requires Healthy(w)
    ensures Healthy(Apply(false, w, u, f, s).w)
  {
    hide ApplyKnown, ApplyNew, PrimaryEmail, Consistent, ValidStore;
    ApplyValid(false, w, u, f, s);
    if Usable(u) && f != LookupFails {
      var s1 := s.(scanned := s.scanned + 1);
      match Get(w.helpers, u.id)
      case Some(p) => KnownConsistent(w, u, p, f, s1);
      case None => NewConsistent(w, u, f, s1);
    }
  }

  /** After `j` records without a conflict: they are settled, the others untouched. */
  ghost predicate Progress(c: Config, full: bool, w: World, since: int, j: nat)
    requires j <= |Selected(w.users, since)|
  {
    var v, ix := Upto(c, full, w, since, j), AllMatches(w.users, since);
    && v.ok && v.tally.stats.conflicts == 0 && Healthy(v.w)
    && Undisturbed(w, v.w, since, j)
    && (forall i :: 0 <= i < j ==> Done(v.w, v.w.users[ix[i]]))
  }

  lemma VisitIsApply(c: Config, full: bool, w: World, t: Tally, u: User, f: Fault)
    requires !c.dryRun
    ensures
      var v, a := Visit(c, full, w, t, u, f), Apply(false, w, u, f, NO_STATS);
      && v.w == a.w && v.tally.stats.conflicts == t.stats.conflicts + a.stats.conflicts
      && (v.ok ==> a.ok)
  {
    hide Apply;
    StatsDoNotMatter(w, u, f, t.stats);
  }

  lemma StatsDoNotMatter(w: World, u: User, f: Fault, s: Stats)
    ensures
      var a, b := Apply(false, w, u, f, s), Apply(false, w, u, f, NO_STATS);
      a.w == b.w && a.ok == b.ok && a.stats.conflicts == s.conflicts + b.stats.conflicts
  {
    hide PrimaryEmail, Validate, ApplyKnown, ApplyNew;
    if Validate(u) == None && f != LookupFails {
      UsableHasFlag(u);
      var s1, s2 := s.(scanned := s.scanned + 1), NO_STATS.(scanned := 1);
      match Get(w.helpers, u.id)
      case Some(p) => KnownStatsDoNotMatter(w, u, p, f, s1, s2);
      case None => NewStatsDoNotMatter(w, u, f, s1, s2);
    }
  }

  lemma KnownStatsDoNotMatter(w: World, u: User, p: Helpper, f: Fault, s: Stats, s': Stats)
    requires u.active.Some?
    ensures
      var a, b := ApplyKnown(false, w, u, p, f, s), ApplyKnown(false, w, u, p, f, s');
      a.w == b.w && a.ok == b.ok && a.stats.conflicts - s.conflicts == b.stats.conflicts - s'.conflicts
  {
    hide PrimaryEmail, Patched, PatchOutcome, InState;
  }

  lemma NewStatsDoNotMatter(w: World, u: User, f: Fault, s: Stats, s': Stats)
    requires u.active.Some?
    ensures
      var a, b := ApplyNew(false, w, u, f, s), ApplyNew(false, w, u, f, s');
      a.w == b.w && a.ok == b.ok && a.stats.conflicts - s.conflicts == b.stats.conflicts - s'.conflicts
  {}

  /** A record settled before another one is applied stays settled. */
  lemma StaysDone(w: World, x: nat, u: User, f: Fault, i: nat)
    requires DistinctIds(w.users) && x < |w.users| && i < |w.users| && i != x
    requires u.id == w.users[x].id
    ensures var w' := Apply(false, w, u, f, NO_STATS).w;
      |w'.users| == |w.users| && w'.users[i] == w.users[i] && (Done(w, w.users[i]) ==> Done(w', w.users[i]))
  {
    hide Apply, InState, Agrees, PrimaryEmail;
    ApplyConfined(w, u, f, NO_STATS);
    var w' := Apply(false, w, u, f, NO_STATS).w;
    assert Usable(w.users[i]) ==> w.users[i].id != u.id;
    assert Usable(w.users[i]) ==> Get(w'.helpers, w.users[i].id) == Get(w.helpers, w.users[i].id);
  }

  lemma {:induction false} CleanPrefix(c: Config, full: bool, w: World, since: int, j: nat)
    requires !c.dryRun && j <= |Selected(w.users, since)|
    requires var v := Upto(c, full, w, since, |Selected(w.users, since)|); v.ok && v.tally.stats.conflicts == 0
    ensures var v := Upto(c, full, w, since, j); v.ok && v.tally.stats.conflicts == 0
    decreases |Selected(w.users, since)| - j
  {
    hide Upto, Selected, Visit, Apply;
    if j < |Selected(w.users, since)| {
      CleanPrefix(c, full, w, since, j + 1);
      UptoStep(c, full, w, since, j);
      var v := Upto(c, full, w, since, j);
      VisitIsApply(c, full, v.w, v.tally, Selected(w.users, since)[j], NoFault);
    }
  }

  /** The walk is over the whole snapshot, with no conflict. */
  ghost predicate Uninterrupted(c: Config, full: bool, w: World, since: int) {
    && !c.dryRun && Healthy(w)
    && var v := Upto(c, full, w, since, |Selected(w.users, since)|); v.ok && v.tally.stats.conflicts == 0
  }

  lemma ProgressStep(c: Config, full: bool, w: World, since: int, j: nat)
    requires Uninterrupted(c, full, w, since) && j < |Selected(w.users, since)|
    requires Progress(c, full, w, since, j)
    ensures Progress(c, full, w, since, j + 1)
    ensures
      var v, x := Upto(c, full, w, since, j).w, AllMatches(w.users, since)[j];
      && v.users[x] == Selected(w.users, since)[j] && Clean(v, v.users[x])
      && Upto(c, full, w, since, j + 1).w == Apply(false, v, v.users[x], NoFault, NO_STATS).w
  {
    var v, ix := Upto(c, full, w, since, j), AllMatches(w.users, since);
    var x, u := ix[j], Selected(w.users, since)[j];
    assert v.w.users[x] == u && u.id == w.users[x].id;
    hide Upto, Visit, Apply, Healthy, Done, MatchIx, AllMatches;
    CleanPrefix(c, full, w, since, j + 1);
    UptoStep(c, full, w, since, j);
    VisitIsApply(c, full, v.w, v.tally, u, NoFault);
    assert Clean(v.w, u);
    ApplyHealthy(v.w, u, NoFault, NO_STATS);
    HealthyParts(v.w);
    ApplyConfined(v.w, u, NoFault, NO_STATS);
    var w' := Apply(false, v.w, u, NoFault, NO_STATS).w;
    HealthyParts(w);
    StillUndisturbed(w, v.w, since, j, w');
    CleanGetsDone(v.w, x);
    forall i | 0 <= i < j ensures Done(w', w'.users[ix[i]]) {
      AllMatchesSorted(w.users, since, i, j);
      StaysDone(v.w, x, u, NoFault, ix[i]);
    }
  }

  lemma HealthyParts(w: World)
    requires Healthy(w)
    ensures ValidStore(w) && DistinctIds(w.users) && Inverse(w.users, w.bound)
  {}

  lemma AllMatchesSorted(users: seq<User>, since: int, i: nat, j: nat)
    requires i < j < |AllMatches(users, since)|
    ensures AllMatches(users, since)[i] < AllMatches(users, since)[j]
  {
    MatchIxSorted(users, since, |users|);
  }

  lemma ProgressStarts(c: Config, full: bool, w: World, since: int)
    requires Uninterrupted(c, full, w, since)
    ensures Progress(c, full, w, since, 0)
  {}

  lemma {:induction false} ProgressAt(c: Config, full: bool, w: World, since: int, j: nat)
    requires Uninterrupted(c, full, w, since) && j <= |Selected(w.users, since)|
    ensures Progress(c, full, w, since, j)
  {
    hide Progress, Selected, Upto, Visit;
    if j == 0 {
      ProgressStarts(c, full, w, since);
    } else {
      ProgressAt(c, full, w, since, j - 1);
      ProgressStep(c, full, w, since, j - 1);
    }
  }

  // ---- the interrupted walk and its repetition ----

  /** The state left by stopping the walk at record `k`, `f` saying between which of its
      effects; `k` past the end stops it after the last record. */
  function Stopped(c: Config, full: bool, w: World, since: int, k: nat, f: Fault): World
    requires k <= |Selected(w.users, since)|
  {
    var v := Upto(c, full, w, since, k).w;
    if k < |Selected(w.users, since)| then Apply(false, v, Selected(w.users, since)[k], f, NO_STATS).w else v
  }

  /** What the repetition meets: settled records, then one to be redone, then the rest of
      the snapshot as it was. */
  ghost predicate Resumable(c: Config, full: bool, w: World, since: int, k: nat, x: World)
    requires k <= |Selected(w.users, since)|
  {
    var snap, ix := Selected(w.users, since), AllMatches(w.users, since);
    && Healthy(x) && Undisturbed(w, x, since, if k < |snap| then k + 1 else k)
    && (forall i :: 0 <= i < k ==> Done(x, x.users[ix[i]]))
    && (k < |snap| ==>
          var a := Apply(false, x, x.users[ix[k]], NoFault, NO_STATS);
          a.ok && a.stats.conflicts == 0 && SameButStamps(a.w, Upto(c, full, w, since, k + 1).w))
  }

  lemma Redo(w: World, x: nat, f: Fault)
    requires Healthy(w) && x < |w.users| && Clean(w, w.users[x])
    ensures
      var w' := Apply(false, w, w.users[x], f, NO_STATS).w;
      |w'.users| == |w.users|
      && var a := Apply(false, w', w'.users[x], NoFault, NO_STATS);
      a.ok && a.stats.conflicts == 0 && SameButStamps(a.w, Apply(false, w, w.users[x], NoFault, NO_STATS).w)
  {
    hide Apply, Done, PrimaryEmail, Validate;
    HealthyParts(w);
    var u := w.users[x];
    var done := Apply(false, w, u, NoFault, NO_STATS).w;
    SameUsersReflexive(done.users);
    StoppedSomewhere(w, u, f);
    var w' := Apply(false, w, u, f, NO_STATS).w;
    if w' == w {
    } else if w' == done {
      CleanGetsDone(w, x);
      DoneIsNoop(done, done.users[x], NO_STATS);
    } else {
      RedoAfterStore(w, x);
    }
  }

  lemma StoppedIsResumable(c: Config, full: bool, w: World, since: int, k: nat, f: Fault)
    requires Uninterrupted(c, full, w, since) && k <= |Selected(w.users, since)|
    ensures Resumable(c, full, w, since, k, Stopped(c, full, w, since, k, f))
  {
    ProgressAt(c, full, w, since, k);
    if k < |Selected(w.users, since)| {
      hide Upto, Visit, Apply, Healthy, Done, MatchIx, AllMatches, Clean, SameButStamps;
      ProgressStep(c, full, w, since, k);
      var v, ix := Upto(c, full, w, since, k).w, AllMatches(w.users, since);
      var x, u, w' := ix[k], Selected(w.users, since)[k], Stopped(c, full, w, since, k, f);
      Redo(v, x, f);
      HealthyParts(w);
      HealthyParts(v);
      ApplyHealthy(v, u, f, NO_STATS);
      ApplyConfined(v, u, f, NO_STATS);
      StillUndisturbed(w, v, since, k, w');
      forall i | 0 <= i < k ensures Done(w', w'.users[ix[i]]) {
        AllMatchesSorted(w.users, since, i, k);
        StaysDone(v, x, u, f, ix[i]);
      }
    }
  }

  lemma {:induction false} CountPointwise(us: seq<User>, vs: seq<User>, p: User -> bool)
    requires |us| == |vs| && forall i :: 0 <= i < |us| ==> p(us[i]) == p(vs[i])
    ensures Count(us, p) == Count(vs, p)
  {
    if us != [] { CountPointwise(us[..|us| - 1], vs[..|vs| - 1], p); }
  }

  /** The repetition meets as many unusable records as the interrupted walk would have. */
  lemma RepetitionSucceeds(c: Config, full: bool, w: World, since: int, k: nat, x: World)
    requires Uninterrupted(c, full, w, since) && k <= |Selected(w.users, since)|
    requires Resumable(c, full, w, since, k, x)
    ensures |Selected(x.users, since)| == |Selected(w.users, since)|
    ensures Upto(c, full, x, since, |Selected(x.users, since)|).ok
  {
    hide Scan, Usable, Done, Consistent, MatchIx, AllMatches, SameButStamps, Apply;
    var us, vs := Selected(w.users, since), Selected(x.users, since);
    assert us[..|us|] == us && vs[..|vs|] == vs;
    SelectedReady(w, since);
    SelectedReady(x, since);
    CountPointwise(us, vs, IsUnusable());
    ScanSucceeds(c, full, w, us);
    ScanSucceeds(c, full, x, vs);
  }

  lemma {:induction false} OkPrefix(c: Config, full: bool, w: World, since: int, j: nat)
    requires j <= |Selected(w.users, since)| && Upto(c, full, w, since, |Selected(w.users, since)|).ok
    ensures Upto(c, full, w, since, j).ok
    decreases |Selected(w.users, since)| - j
  {
    hide Upto, Selected, Visit;
    if j < |Selected(w.users, since)| {
      OkPrefix(c, full, w, since, j + 1);
      UptoStep(c, full, w, since, j);
    }
  }

  lemma UptoNothing(c: Config, full: bool, w: World, since: int)
    ensures Upto(c, full, w, since, 0) == Visited(w, NO_TALLY, true)
  {}

  /** What the repetition does with record `i`, up to and including the one stopped at. */
  lemma UpToTheStop(c: Config, full: bool, w: World, since: int, k: nat, x: World, i: nat)
    requires i <= k <= |Selected(w.users, since)| && i < |Selected(w.users, since)|
    requires Resumable(c, full, w, since, k, x)
    requires |Selected(x.users, since)| == |Selected(w.users, since)|
    ensures
      var a := Apply(false, x, Selected(x.users, since)[i], NoFault, NO_STATS);
      && a.ok && a.stats.conflicts == 0
      && (i < k ==> a.w == x)
      && (i == k ==> SameButStamps(a.w, Upto(c, full, w, since, i + 1).w))
  {
    hide Upto, Apply, SameButStamps, Healthy, Done, Selected;
    var u := x.users[AllMatches(w.users, since)[i]];
    assert AllMatches(x.users, since) == AllMatches(w.users, since);
    assert Selected(x.users, since)[i] == u;
    if i < k { DoneIsNoop(x, u, NO_STATS); }
  }

  /** The repetition against the uninterrupted walk, record by record. */
  lemma {:induction false} Simulates(c: Config, full: bool, w: World, since: int, k: nat, x: World, j: nat)
    requires Uninterrupted(c, full, w, since) && k <= |Selected(w.users, since)|
    requires Resumable(c, full, w, since, k, x) && j <= |Selected(w.users, since)|
    ensures |Selected(x.users, since)| == |Selected(w.users, since)|
    ensures
      var b := Upto(c, full, x, since, j);
      && b.ok && b.tally.stats.conflicts == 0
      && (j <= k ==> b.w == x)
      && (j > k ==> SameButStamps(b.w, Upto(c, full, w, since, j).w))
  {
    hide Upto, Visit, Apply, Selected, SameButStamps, Resumable;
    RepetitionSucceeds(c, full, w, since, k, x);
    OkPrefix(c, full, x, since, j);
    if j == 0 {
      UptoNothing(c, full, x, since);
    } else {
      var i := j - 1;
      var u, b := Selected(x.users, since)[i], Upto(c, full, x, since, i);
      Simulates(c, full, w, since, k, x, i);
      UptoStep(c, full, x, since, i);
      VisitIsApply(c, full, b.w, b.tally, u, NoFault);
      if i <= k { UpToTheStop(c, full, w, since, k, x, i); }
      else { BeyondTheStop(c, full, w, since, k, x, i); }
    }
  }

  lemma BeyondTheStop(c: Config, full: bool, w: World, since: int, k: nat, x: World, i: nat)
    requires Uninterrupted(c, full, w, since) && k < i < |Selected(w.users, since)|
    requires Resumable(c, full, w, since, k, x) && |Selected(x.users, since)| == |Selected(w.users, since)|
    requires SameButStamps(Upto(c, full, x, since, i).w, Upto(c, full, w, since, i).w)
    ensures
      var a := Apply(false, Upto(c, full, x, since, i).w, Selected(x.users, since)[i], NoFault, NO_STATS);
      a.ok && a.stats.conflicts == 0 && SameButStamps(a.w, Upto(c, full, w, since, i + 1).w)
  {
    var u := Selected(w.users, since)[i];
    assert Selected(x.users, since)[i] == u;
    ProgressAt(c, full, w, since, i);
    hide Upto, Apply, Selected, AllMatches, Undisturbed, SameButStamps, Healthy, Done;
    ProgressStep(c, full, w, since, i);
    ApplySame(Upto(c, full, x, since, i).w, Upto(c, full, w, since, i).w, u, u, NoFault, NO_STATS, NO_STATS);
  }

  /** Stopping a walk at any record, between any two effects, and walking again from what
      that left, ends in the accounts, the ids and the bindings of the walk that was never
      stopped; the repetition could itself be stopped at no cost. */
  lemma StopIsFree(c: Config, full: bool, w: World, since: int, k: nat, f: Fault)
    requires Uninterrupted(c, full, w, since) && k <= |Selected(w.users, since)|
    ensures
      var x, n := Stopped(c, full, w, since, k, f), |Selected(w.users, since)|;
      && Uninterrupted(c, full, x, since) && |Selected(x.users, since)| == n
      && SameButStamps(Upto(c, full, x, since, n).w, Upto(c, full, w, since, n).w)
  {
    var x, n := Stopped(c, full, w, since, k, f), |Selected(w.users, since)|;
    hide Upto, Selected, Healthy, SameButStamps, Done, Undisturbed, Stopped;
    StoppedIsResumable(c, full, w, since, k, f);
    Simulates(c, full, w, since, k, x, n);
    if k == n { StoppedAtTheEnd(c, full, w, since, f); SameUsersReflexive(x.users); SameStampsReflexive(x); }
  }

  lemma StoppedAtTheEnd(c: Config, full: bool, w: World, since: int, f: Fault)
    ensures
      var n := |Selected(w.users, since)|;
      Stopped(c, full, w, since, n, f) == Upto(c, full, w, since, n).w
  {}

  lemma SameStampsReflexive(w: World)
    ensures SameButStamps(w, w)
  {}

  lemma SameStampsTransitive(a: World, b: World, d: World)
    requires SameButStamps(a, b) && SameButStamps(b, d)
    ensures SameButStamps(a, d)
  {}

  // ---- any number of crashes ----

  datatype Stop = Stop(at: nat, fault: Fault)

  /** The state after a series of cycles each stopped somewhere; a stop past the end of the
      snapshot stops after its last record. */
  function AfterStops(c: Config, full: bool, w: World, since: int, stops: seq<Stop>): World {
    if stops == [] then w
    else
      var x, n := AfterStops(c, full, w, since, stops[..|stops| - 1]), |stops| - 1;
      var size := |Selected(x.users, since)|;
      Stopped(c, full, x, since, if stops[n].at < size then stops[n].at else size, stops[n].fault)
  }

  lemma {:induction false} CrashesAreFree(c: Config, full: bool, w: World, since: int, stops: seq<Stop>)
    requires Uninterrupted(c, full, w, since)
    ensures
      var x, n := AfterStops(c, full, w, since, stops), |Selected(w.users, since)|;
      && Uninterrupted(c, full, x, since) && |Selected(x.users, since)| == n
      && SameButStamps(Upto(c, full, x, since, n).w, Upto(c, full, w, since, n).w)
  {
    hide Uninterrupted, Upto, Selected, SameButStamps, Stopped;
    var n := |Selected(w.users, since)|;
    if stops == [] {
      SameStampsReflexive(Upto(c, full, w, since, n).w);
    } else {
      var l := |stops| - 1;
      CrashesAreFree(c, full, w, since, stops[..l]);
      var x := AfterStops(c, full, w, since, stops[..l]);
      StopIsFree(c, full, x, since, if stops[l].at < n then stops[l].at else n, stops[l].fault);
      SameStampsTransitive(Upto(c, full, AfterStops(c, full, w, since, stops), since, n).w,
                           Upto(c, full, x, since, n).w, Upto(c, full, w, since, n).w);
    }
  }

  // ---- in the machine ----

  /** A cycle ends half-way: the process dies, a page cannot be read, or an effect of the
      record at hand fails. */
  ghost predicate Breaks(c: Config, s: Sys, e: Event) {
    s.phase.Walking? &&
    match e
    case Abort => true
    case VisitNext(f) =>
      Visiting(s.phase) && !Visit(c, s.phase.full, s.world, s.phase.tally, s.phase.pending[0].user, f).ok
    case _ => false
  }

  /** A quiet cycle broken off anywhere leaves one of the stopped states. */
  lemma BrokenIsStopped(c: Config, s: Sys, full: bool, es: seq<Event>, e: Event) returns (stop: Stop)
    requires c.pageSize > 0 && !c.dryRun && s.phase.Idle? && DistinctIds(s.world.users)
    requires forall k :: 0 <= k < |es| ==> Quiet(es[k])
    requires Breaks(c, Run(c, NextBegin(c, s, full), es), e)
    ensures
      var r := Run(c, NextBegin(c, s, full), es);
      && stop.at <= |Selected(s.world.users, r.phase.since)|
      && Next(c, r, e).phase.Idle?
      && Next(c, r, e).world == Stopped(c, r.phase.full, s.world, r.phase.since, stop.at, stop.fault)
  {
    hide Run, Scan, Visit, OnTrack, DistinctIds, NextBegin, Apply, MatchIx, AllMatches;
    AppliesPrefix(c, s, full, es);
    var r := Run(c, NextBegin(c, s, full), es);
    var p, k := r.phase, |r.phase.hist.log|;
    var snap := Selected(s.world.users, p.since);
    if e.Abort? {
      stop := Stop(k, LookupFails);
      if k < |snap| { LookupFailsIsNoop(r.world, snap[k]); }
    } else {
      stop := Stop(k, e.fault);
      VisitIsApply(c, p.full, r.world, p.tally, snap[k], e.fault);
    }
  }

  lemma LookupFailsIsNoop(w: World, u: User)
    ensures Apply(false, w, u, LookupFails, NO_STATS).w == w
  {}

  /** A quiet cycle that is over, as a scan of its snapshot. */
  lemma OverIsUpto(c: Config, s: Sys, full: bool, es: seq<Event>)
    requires c.pageSize > 0 && s.phase.Idle? && DistinctIds(s.world.users)
    requires forall k :: 0 <= k < |es| ==> Quiet(es[k])
    requires var r := Run(c, NextBegin(c, s, full), es); r.phase.Walking? && r.phase.done
    ensures
      var r, since := Run(c, NextBegin(c, s, full), es), Since(c, s.world.checkpoint, full);
      Upto(c, full, s.world, since, |Selected(s.world.users, since)|) == Visited(r.world, r.phase.tally, true)
  {
    hide Run, Scan, DistinctIds, Selected;
    SinceKept(c, s, full, es);
    QuietWalkAppliesSnapshot(c, s, full, es);
    WholeUpto(c, full, s.world, Since(c, s.world.checkpoint, full));
  }

  lemma BrokenCanResume(c: Config, s: Sys, full: bool, es: seq<Event>, e: Event)
    requires c.pageSize > 0 && s.phase.Idle? && DistinctIds(s.world.users)
    requires Uninterrupted(c, full, s.world, Since(c, s.world.checkpoint, full))
    requires forall k :: 0 <= k < |es| ==> Quiet(es[k])
    requires Breaks(c, Run(c, NextBegin(c, s, full), es), e)
    ensures
      var x, since := Next(c, Run(c, NextBegin(c, s, full), es), e), Since(c, s.world.checkpoint, full);
      var n := |Selected(s.world.users, since)|;
      && x.phase.Idle? && Since(c, x.world.checkpoint, full) == since
      && Uninterrupted(c, full, x.world, since) && |Selected(x.world.users, since)| == n
      && SameButStamps(Upto(c, full, x.world, since, n).w, Upto(c, full, s.world, since, n).w)
  {
    hide Run, Scan, Next, SameButStamps, Healthy, DistinctIds, Selected, Upto, Stopped;
    SinceKept(c, s, full, es);
    var stop := BrokenIsStopped(c, s, full, es, e);
    StopIsFree(c, full, s.world, Since(c, s.world.checkpoint, full), stop.at, stop.fault);
    BrokenKeepsCheckpoint(c, Run(c, NextBegin(c, s, full), es), e);
  }

  /** A cycle of either kind broken off anywhere and started again, next to the same cycle
      run through: once both are over, the accounts, their ids, the directory's bindings
      and externalIds are the same. */
  lemma CrashAnywhereIsFree(
    c: Config, s: Sys, full: bool, es: seq<Event>, e: Event, again: seq<Event>, through: seq<Event>)
    requires c.pageSize > 0 && !c.dryRun && s.phase.Idle? && Healthy(s.world)
    requires forall k :: 0 <= k < |es| ==> Quiet(es[k])
    requires forall k :: 0 <= k < |again| ==> Quiet(again[k])
    requires forall k :: 0 <= k < |through| ==> Quiet(through[k])
    requires Breaks(c, Run(c, NextBegin(c, s, full), es), e)
    requires
      var r := Run(c, NextBegin(c, s, full), through);
      r.phase.Walking? && r.phase.done && r.phase.tally.stats.conflicts == 0
    ensures
      var x := Next(c, Run(c, NextBegin(c, s, full), es), e);
      x.phase.Idle?
      && var r := Run(c, NextBegin(c, x, full), again);
      (r.phase.Walking? && r.phase.done ==>
         SameButStamps(r.world, Run(c, NextBegin(c, s, full), through).world)
         && r.phase.tally.stats.conflicts == 0)
  {
    hide *;
    HealthyParts(s.world);
    OverIsUpto(c, s, full, through);
    NothingInterrupts(c, s.world, full, Since(c, s.world.checkpoint, full));
    BrokenCanResume(c, s, full, es, e);
    var x := Next(c, Run(c, NextBegin(c, s, full), es), e);
    var r := Run(c, NextBegin(c, x, full), again);
    if r.phase.Walking? && r.phase.done {
      InterruptionParts(c, x.world, full, Since(c, x.world.checkpoint, full));
      OverIsUpto(c, x, full, again);
    }
  }

  /** A cycle that was broken off: the events it went through, and the one that ended it. */
  datatype Attempt = Attempt(es: seq<Event>, end: Event)

  /** The machine after a series of attempts at one cycle. */
  ghost function AfterAttempts(c: Config, s: Sys, full: bool, attempts: seq<Attempt>): Sys
    requires c.pageSize > 0
  {
    if attempts == [] then s
    else
      var n := |attempts| - 1;
      var x := AfterAttempts(c, s, full, attempts[..n]);
      Next(c, Run(c, NextBegin(c, x, full), attempts[n].es), attempts[n].end)
  }

  /** Every attempt was quiet until it broke off. */
  ghost predicate AllBroken(c: Config, s: Sys, full: bool, attempts: seq<Attempt>)
    requires c.pageSize > 0
  {
    forall k :: 0 <= k < |attempts| ==> BrokenOff(c, AfterAttempts(c, s, full, attempts[..k]), full, attempts[k])
  }

  ghost predicate BrokenOff(c: Config, s: Sys, full: bool, a: Attempt)
    requires c.pageSize > 0
  {
    (forall k :: 0 <= k < |a.es| ==> Quiet(a.es[k])) && Breaks(c, Run(c, NextBegin(c, s, full), a.es), a.end)
  }

  lemma {:induction false} AttemptsCanResume(c: Config, s: Sys, full: bool, attempts: seq<Attempt>)
    requires c.pageSize > 0 && s.phase.Idle? && AllBroken(c, s, full, attempts)
    requires Uninterrupted(c, full, s.world, Since(c, s.world.checkpoint, full))
    ensures
      var x, since := AfterAttempts(c, s, full, attempts), Since(c, s.world.checkpoint, full);
      var n := |Selected(s.world.users, since)|;
      && x.phase.Idle? && Since(c, x.world.checkpoint, full) == since
      && Uninterrupted(c, full, x.world, since) && |Selected(x.world.users, since)| == n
      && SameButStamps(Upto(c, full, x.world, since, n).w, Upto(c, full, s.world, since, n).w)
  {
    hide Uninterrupted, Upto, Selected, SameButStamps, Next, NextBegin, Run, Since, Breaks;
    var since := Since(c, s.world.checkpoint, full);
    var n := |Selected(s.world.users, since)|;
    if attempts == [] {
      SameStampsReflexive(Upto(c, full, s.world, since, n).w);
    } else {
      var l := |attempts| - 1;
      assert forall k :: 0 <= k < l ==> attempts[..l][..k] == attempts[..k];
      AttemptsCanResume(c, s, full, attempts[..l]);
      var q := AfterAttempts(c, s, full, attempts[..l]);
      assert BrokenOff(c, q, full, attempts[l]);
      InterruptionParts(c, q.world, full, since);
      BrokenCanResume(c, q, full, attempts[l].es, attempts[l].end);
      var x := AfterAttempts(c, s, full, attempts);
      SameStampsTransitive(Upto(c, full, x.world, since, n).w, Upto(c, full, q.world, since, n).w,
                           Upto(c, full, s.world, since, n).w);
    }
  }

  /** Any number of attempts in a row, each broken off anywhere, and then the cycle run through:
      it ends as if it had been run through at once. */
  lemma CrashesAnywhereAreFree(
    c: Config, s: Sys, full: bool, attempts: seq<Attempt>, again: seq<Event>, through: seq<Event>)
    requires c.pageSize > 0 && !c.dryRun && s.phase.Idle? && Healthy(s.world)
    requires AllBroken(c, s, full, attempts)
    requires forall k :: 0 <= k < |again| ==> Quiet(again[k])
    requires forall k :: 0 <= k < |through| ==> Quiet(through[k])
    requires
      var r := Run(c, NextBegin(c, s, full), through);
      r.phase.Walking? && r.phase.done && r.phase.tally.stats.conflicts == 0
    ensures
      var x := AfterAttempts(c, s, full, attempts);
      x.phase.Idle?
      && var r := Run(c, NextBegin(c, x, full), again);
      (r.phase.Walking? && r.phase.done ==>
         SameButStamps(r.world, Run(c, NextBegin(c, s, full), through).world)
         && r.phase.tally.stats.conflicts == 0)
  {
    hide *;
    HealthyParts(s.world);
    OverIsUpto(c, s, full, through);
    NothingInterrupts(c, s.world, full, Since(c, s.world.checkpoint, full));
    AttemptsCanResume(c, s, full, attempts);
    var x := AfterAttempts(c, s, full, attempts);
    var r := Run(c, NextBegin(c, x, full), again);
    if r.phase.Walking? && r.phase.done {
      InterruptionParts(c, x.world, full, Since(c, x.world.checkpoint, full));
      OverIsUpto(c, x, full, again);
    }
  }

  lemma NothingInterrupts(c: Config, w: World, full: bool, since: int)
    requires !c.dryRun && Healthy(w)
    requires var v := Upto(c, full, w, since, |Selected(w.users, since)|); v.ok && v.tally.stats.conflicts == 0
    ensures Uninterrupted(c, full, w, since)
  {}

  lemma InterruptionParts(c: Config, w: World, full: bool, since: int)
    requires Uninterrupted(c, full, w, since)
    ensures DistinctIds(w.users)
    ensures Upto(c, full, w, since, |Selected(w.users, since)|).tally.stats.conflicts == 0
  {}

  lemma BrokenKeepsCheckpoint(c: Config, s: Sys, e: Event)
    requires c.pageSize > 0 && Breaks(c, s, e)
    ensures Next(c, s, e).world.checkpoint == s.world.checkpoint
  {
    hide Visit, AfterPage;
    if e.VisitNext? {
      VisitKeepsCheckpoint(c, s.phase.full, s.world, s.phase.tally, s.phase.pending[0].user, e.fault);
    }
  }

  lemma WholeUpto(c: Config, full: bool, w: World, since: int)
    ensures Upto(c, full, w, since, |Selected(w.users, since)|) == Scan(c, full, w, NO_TALLY, Selected(w.users, since))
  {
    hide Scan, Selected;
    assert Selected(w.users, since)[..|Selected(w.users, since)|] == Selected(w.users, since);
  }
}
