/** Repeated full walks over a quiet directory settle who holds which externalId. */
module Fixpoint {
  import opened Records
  import opened Protocol
  import opened Pager
  import opened Effects
  import opened Bindings
  import opened Snapshot
  import opened QuietWalk
  import opened CrashRecovery
  import opened Cycle

  ghost predicate SameBindings(a: World, b: World) {
    && a.bound == b.bound && |a.users| == |b.users|
    && forall i :: 0 <= i < |a.users| ==> a.users[i].externalId == b.users[i].externalId
  }

  /** How many records still want another externalId. */
  function Mismatched(w: World): nat { Count(w.users, Wanting(w.helpers)) }

  /** Record `i` wants nothing, or wants a value another identity holds. */
  predicate Jammed(w: World, i: nat)
    requires i < |w.users|
  {
    Wants(w.helpers, w.users[i]) ==>
      var d := w.users[i].id;
      d in w.helpers && w.helpers[d].id in w.bound && w.bound[w.helpers[d].id] != d
  }

  predicate Stuck(w: World) { forall i :: 0 <= i < |w.users| ==> Jammed(w, i) }

  // ---- one record ----

  lemma WriteBackEither(w: World, x: nat, v: string, s: Stats)
    requires x < |w.users| && v != ""
    ensures
      var d, r := w.users[x].id, WriteBack(false, w, w.users[x].id, v, NoFault, s);
      && r.ok
      && ((r.w == w && v in w.bound && w.bound[v] != d)
          || (r.w == Patched(w, d, v) && r.w.users[x].externalId == v && r.w.users[x].id == d))
  {}

  /** What applying record `x` does to the wish it may have. */
  ghost predicate Moves(w: World, x: nat, w': World)
    requires x < |w.users| == |w'.users|
  {
    || (SameBindings(w, w') && (Wants(w'.helpers, w'.users[x]) ==> Wants(w.helpers, w.users[x])) && Jammed(w', x))
    || (Wants(w.helpers, w.users[x]) && !Wants(w'.helpers, w'.users[x]))
  }

  lemma KnownMoves(w: World, x: nat, s: Stats)
    requires ValidStore(w) && x < |w.users| && Usable(w.users[x]) && w.users[x].id in w.helpers
    ensures
      var u := w.users[x];
      var a := ApplyKnown(false, w, u, w.helpers[u.id], NoFault, s);
      |a.w.users| == |w.users| && Moves(w, x, a.w)
  {
    var u, p := w.users[x], w.helpers[w.users[x].id];
    assert u.active.Some?;
    hide WriteBack, PrimaryEmail, Validate, Patched, InState;
    NextIdIsNew(p.id, w.nextID);
    var synced := SyncState(false, w, u, p, NoFault, s);
    if u.externalId != p.id {
      WriteBackEither(synced.w, x, p.id, synced.stats);
      PatchedKeepsHelpers(synced.w, u.id, p.id);
    }
  }

  lemma NewMoves(w: World, x: nat, s: Stats)
    requires x < |w.users| && Usable(w.users[x]) && w.users[x].id !in w.helpers
    ensures
      var u := w.users[x];
      var a := ApplyNew(false, w, u, NoFault, s);
      |a.w.users| == |w.users| && Moves(w, x, a.w)
  {}

  lemma UnusableStays(w: World, x: nat)
    requires x < |w.users| && !Usable(w.users[x])
    ensures Moves(w, x, w)
  {}

  lemma ApplyMoves(w: World, x: nat)
    requires ValidStore(w) && x < |w.users|
    ensures
      var a := Apply(false, w, w.users[x], NoFault, NO_STATS);
      |a.w.users| == |w.users| && Moves(w, x, a.w)
  {
    hide ApplyKnown, ApplyNew, Validate, ValidStore, Moves;
    var s := NO_STATS.(scanned := 1);
    if !Usable(w.users[x]) { UnusableStays(w, x); }
    else if w.users[x].id in w.helpers { KnownMoves(w, x, s); }
    else { NewMoves(w, x, s); }
  }

  /** The other records want what they wanted. */
  lemma OthersUnmoved(w: World, x: nat, i: nat)
    requires DistinctIds(w.users) && x < |w.users| && i < |w.users| && i != x
    ensures
      var w' := Apply(false, w, w.users[x], NoFault, NO_STATS).w;
      && |w'.users| == |w.users| && w'.users[i] == w.users[i]
      && Wants(w'.helpers, w.users[i]) == Wants(w.helpers, w.users[i])
      && (SameBindings(w, w') ==> Jammed(w, i) == Jammed(w', i))
  {
    hide Apply, InState, Agrees, PrimaryEmail;
    var u := w.users[x];
    ApplyConfined(w, u, NoFault, NO_STATS);
    var w' := Apply(false, w, u, NoFault, NO_STATS).w;
    assert Usable(w.users[i]) ==> w.users[i].id != u.id;
    assert Usable(w.users[i]) ==> Get(w'.helpers, w.users[i].id) == Get(w.helpers, w.users[i].id);
  }

  lemma {:induction false} CountNoMore(us: seq<User>, p: User -> bool, vs: seq<User>, q: User -> bool)
    requires |us| == |vs| && forall i :: 0 <= i < |us| && q(vs[i]) ==> p(us[i])
    ensures Count(vs, q) <= Count(us, p)
    ensures (exists i :: 0 <= i < |us| && p(us[i]) && !q(vs[i])) ==> Count(vs, q) < Count(us, p)
  {
    if us != [] {
      var n := |us| - 1;
      CountNoMore(us[..n], p, vs[..n], q);
      if i :| 0 <= i < |us| && p(us[i]) && !q(vs[i]) && i < n {
        assert p(us[..n][i]) && !q(vs[..n][i]);
      }
    }
  }

  /** Applying a record never adds to the mismatched ones, and takes one away unless it
      leaves every binding alone and the record jammed. */
  lemma RecordMeasure(w: World, x: nat)
    requires Healthy(w) && x < |w.users|
    ensures
      var w' := Apply(false, w, w.users[x], NoFault, NO_STATS).w;
      && |w'.users| == |w.users| && Mismatched(w') <= Mismatched(w)
      && (Mismatched(w') < Mismatched(w) || (SameBindings(w, w') && Jammed(w', x)))
  {
    hide Apply, Wants, Jammed, SameBindings, Count;
    HealthyParts(w);
    var w' := Apply(false, w, w.users[x], NoFault, NO_STATS).w;
    ApplyMoves(w, x);
    forall i | 0 <= i < |w.users| && i != x
      ensures w'.users[i] == w.users[i] && Wants(w'.helpers, w.users[i]) == Wants(w.helpers, w.users[i])
    {
      OthersUnmoved(w, x, i);
    }
    CountNoMore(w.users, Wanting(w.helpers), w'.users, Wanting(w'.helpers));
  }

  // ---- one full walk ----

  function Size(w: World): nat { |Selected(w.users, 0)| }

  lemma FullSelectsAll(w: World)
    ensures Size(w) == |w.users| && Selected(w.users, 0) == w.users
    ensures forall k :: 0 <= k < |w.users| ==> AllMatches(w.users, 0)[k] == k
  {
    UnboundedSelectsAll(w.users);
  }

  /** A full walk succeeds and nothing but its own write-backs moves under it. */
  ghost predicate Walkable(c: Config, w: World) {
    !c.dryRun && Healthy(w) && WithinLimit(c, Count(w.users, IsUnusable()))
  }

  lemma WalkSucceeds(c: Config, w: World)
    requires Walkable(c, w)
    ensures Upto(c, true, w, 0, Size(w)).ok
  {
    hide Scan, Consistent, Selected, AllMatches, Usable;
    FullSelectsAll(w);
    SelectedReady(w, 0);
    ScanSucceeds(c, true, w, w.users);
    WholeUpto(c, true, w, 0);
  }

  ghost predicate Going(c: Config, w: World, j: nat)
    requires j <= Size(w)
  {
    var v := Upto(c, true, w, 0, j);
    v.ok && Healthy(v.w) && Undisturbed(w, v.w, 0, j)
  }

  /** Step `j` of a full walk applies record `j` as the walk finds it. */
  lemma GoingStep(c: Config, w: World, j: nat)
    requires Walkable(c, w) && j < Size(w) && Going(c, w, j)
    ensures Going(c, w, j + 1)
    ensures
      var v := Upto(c, true, w, 0, j).w;
      j < |v.users| && Upto(c, true, w, 0, j + 1).w == Apply(false, v, v.users[j], NoFault, NO_STATS).w
  {
    FullSelectsAll(w);
    var v, u := Upto(c, true, w, 0, j), w.users[j];
    assert v.w.users[j] == u && Selected(w.users, 0)[j] == u;
    hide Upto, Visit, Apply, Healthy, MatchIx, AllMatches, Selected;
    WalkSucceeds(c, w);
    OkPrefix(c, true, w, 0, j + 1);
    UptoStep(c, true, w, 0, j);
    VisitIsApply(c, true, v.w, v.tally, u, NoFault);
    ApplyHealthy(v.w, u, NoFault, NO_STATS);
    HealthyParts(w);
    ApplyConfined(v.w, u, NoFault, NO_STATS);
    StillUndisturbed(w, v.w, 0, j, Upto(c, true, w, 0, j + 1).w);
  }

  lemma {:induction false} GoingAt(c: Config, w: World, j: nat)
    requires Walkable(c, w) && j <= Size(w)
    ensures Going(c, w, j)
  {
    if j == 0 {
      UptoNothing(c, true, w, 0);
    } else {
      GoingAt(c, w, j - 1);
      GoingStep(c, w, j - 1);
    }
    hide Going;
  }

  /** From `w` to `v`, either a mismatched record has gone or every binding is as it was
      and the first `j` records are jammed. */
  ghost predicate Measured(w: World, v: World, j: nat) {
    && j <= |v.users| == |w.users| && Mismatched(v) <= Mismatched(w)
    && (Mismatched(v) < Mismatched(w) || (SameBindings(w, v) && forall i :: 0 <= i < j ==> Jammed(v, i)))
  }

  lemma MeasureStep(w: World, v: World, x: nat)
    requires Measured(w, v, x) && Healthy(v) && x < |v.users|
    ensures Measured(w, Apply(false, v, v.users[x], NoFault, NO_STATS).w, x + 1)
  {
    hide Apply, Jammed, Mismatched, Healthy, SameBindings;
    HealthyParts(v);
    RecordMeasure(v, x);
    var v' := Apply(false, v, v.users[x], NoFault, NO_STATS).w;
    if Mismatched(v') == Mismatched(w) {
      SameBindingsTransitive(w, v, v');
      forall i | 0 <= i < x ensures Jammed(v', i) { OthersUnmoved(v, x, i); }
    }
  }

  lemma SameBindingsTransitive(a: World, b: World, d: World)
    requires SameBindings(a, b) && SameBindings(b, d)
    ensures SameBindings(a, d)
  {}

  lemma {:induction false} WalkMeasure(c: Config, w: World, j: nat)
    requires Walkable(c, w) && j <= Size(w)
    ensures Measured(w, Upto(c, true, w, 0, j).w, j)
  {
    hide Upto, Apply, Jammed, Mismatched, Healthy, Selected, AllMatches;
    FullSelectsAll(w);
    if j == 0 {
      UptoNothing(c, true, w, 0);
    } else {
      WalkMeasure(c, w, j - 1);
      GoingAt(c, w, j - 1);
      GoingStep(c, w, j - 1);
      MeasureStep(w, Upto(c, true, w, 0, j - 1).w, j - 1);
    }
  }

  /** A walk over a stuck directory changes no binding and leaves it stuck. */
  lemma {:induction false} StuckWalk(c: Config, w: World, j: nat)
    requires Walkable(c, w) && j <= Size(w) && Stuck(w)
    ensures var v := Upto(c, true, w, 0, j).w; SameBindings(w, v) && Stuck(v)
  {
    hide Upto, Apply, Jammed, Healthy, Selected, AllMatches;
    if j == 0 {
      UptoNothing(c, true, w, 0);
    } else {
      StuckWalk(c, w, j - 1);
      GoingAt(c, w, j - 1);
      GoingStep(c, w, j - 1);
      var v := Upto(c, true, w, 0, j - 1).w;
      StuckStep(v, j - 1);
    }
  }

  lemma StuckStep(v: World, x: nat)
    requires Healthy(v) && x < |v.users| && Stuck(v)
    ensures var v' := Apply(false, v, v.users[x], NoFault, NO_STATS).w; SameBindings(v, v') && Stuck(v')
  {
    hide Apply, Healthy;
    HealthyParts(v);
    var v' := Apply(false, v, v.users[x], NoFault, NO_STATS).w;
    JammedKeepsBindings(v, x);
    forall i | 0 <= i < |v'.users| ensures Jammed(v', i) {
      if i != x { OthersUnmoved(v, x, i); }
    }
  }

  lemma JammedKnown(w: World, x: nat, s: Stats)
    requires ValidStore(w) && x < |w.users| && Usable(w.users[x]) && w.users[x].id in w.helpers && Jammed(w, x)
    ensures
      var u := w.users[x];
      var w' := ApplyKnown(false, w, u, w.helpers[u.id], NoFault, s).w;
      |w'.users| == |w.users| && SameBindings(w, w') && Jammed(w', x)
  {
    hide PrimaryEmail, Validate, Patched, InState;
    UsableHasFlag(w.users[x]);
  }

  /** Applying a jammed record changes no binding. */
  lemma JammedKeepsBindings(w: World, x: nat)
    requires ValidStore(w) && x < |w.users| && Jammed(w, x)
    ensures
      var w' := Apply(false, w, w.users[x], NoFault, NO_STATS).w;
      |w'.users| == |w.users| && SameBindings(w, w') && Jammed(w', x)
  {
    hide ApplyKnown, Validate, ValidStore, SameBindings;
    SameBindingsReflexive(w);
    if Usable(w.users[x]) {
      UsableHasFlag(w.users[x]);
      if w.users[x].id in w.helpers { JammedKnown(w, x, NO_STATS.(scanned := 1)); }
    }
  }

  // ---- repeated walks ----

  function FullWalk(c: Config, w: World): World { Upto(c, true, w, 0, Size(w)).w }

  function Walks(c: Config, w: World, n: nat): World {
    if n == 0 then w else FullWalk(c, Walks(c, w, n - 1))
  }

  /** A quiet full cycle of the machine, once over, is one such walk. */
  lemma FullCycleIsFullWalk(c: Config, s: Sys, es: seq<Event>)
    requires c.pageSize > 0 && s.phase.Idle? && DistinctIds(s.world.users)
    requires forall k :: 0 <= k < |es| ==> Quiet(es[k])
    requires var r := Run(c, NextBegin(c, s, true), es); r.phase.Walking? && r.phase.done
    ensures Run(c, NextBegin(c, s, true), es).world == FullWalk(c, s.world)
  {
    hide Run, Upto, Selected, DistinctIds;
    OverIsUpto(c, s, true, es);
  }

  lemma WalkStaysWalkable(c: Config, w: World)
    requires Walkable(c, w)
    ensures Walkable(c, FullWalk(c, w)) && |FullWalk(c, w).users| == |w.users|
  {
    hide Upto, Usable, Healthy, Selected, AllMatches;
    GoingAt(c, w, Size(w));
    CountPointwise(w.users, FullWalk(c, w).users, IsUnusable());
  }

  /** A full walk that takes no mismatched record away leaves the directory stuck. */
  lemma WalkMovesOrSticks(c: Config, w: World)
    requires Walkable(c, w)
    ensures
      var w' := FullWalk(c, w);
      Mismatched(w') < Mismatched(w) || (SameBindings(w, w') && Stuck(w'))
  {
    hide Upto, Jammed, Mismatched, Healthy, Selected;
    FullSelectsAll(w);
    WalkMeasure(c, w, Size(w));
  }

  lemma {:induction false} NothingMismatched(w: World, i: nat)
    requires Mismatched(w) == 0 && i < |w.users|
    ensures Jammed(w, i)
  {
    if Wants(w.helpers, w.users[i]) { CountPositive(w.users, Wanting(w.helpers), i); }
  }

  lemma {:induction false} CountPositive(us: seq<User>, p: User -> bool, i: nat)
    requires i < |us| && p(us[i])
    ensures Count(us, p) > 0
    decreases |us|
  {
    if i < |us| - 1 { CountPositive(us[..|us| - 1], p, i); }
  }

  lemma {:induction false} WalksSettle(c: Config, w: World, n: nat)
    requires Walkable(c, w)
    ensures Walkable(c, Walks(c, w, n))
    ensures Stuck(Walks(c, w, n)) || Mismatched(Walks(c, w, n)) + n <= Mismatched(w)
  {
    hide Walkable, FullWalk, Stuck, Mismatched;
    if n > 0 {
      var v := Walks(c, w, n - 1);
      WalksSettle(c, w, n - 1);
      WalkStaysWalkable(c, v);
      WalkMovesOrSticks(c, v);
      if Stuck(v) { StuckStays(c, v); }
    }
  }

  lemma StuckStays(c: Config, w: World)
    requires Walkable(c, w) && Stuck(w)
    ensures SameBindings(w, FullWalk(c, w)) && Stuck(FullWalk(c, w))
  {
    hide Walkable, Stuck, Upto, SameBindings;
    StuckWalk(c, w, Size(w));
  }

  /** After as many full walks as there were mismatched records, the directory is stuck and
      no later walk changes a binding. */
  lemma {:induction false} WriteBackSettles(c: Config, w: World, n: nat)
    requires Walkable(c, w) && n >= Mismatched(w)
    ensures Stuck(Walks(c, w, n)) && SameBindings(Walks(c, w, Mismatched(w)), Walks(c, w, n))
    decreases n
  {
    hide Walkable, FullWalk, Stuck, Mismatched, SameBindings;
    if n == Mismatched(w) {
      WalksSettle(c, w, n);
      if !Stuck(Walks(c, w, n)) { NoneMismatchedIsStuck(Walks(c, w, n)); }
      SameBindingsReflexive(Walks(c, w, n));
    } else {
      WriteBackSettles(c, w, n - 1);
      WalksSettle(c, w, n - 1);
      StuckStays(c, Walks(c, w, n - 1));
      SameBindingsTransitive(Walks(c, w, Mismatched(w)), Walks(c, w, n - 1), Walks(c, w, n));
    }
  }

  lemma SameBindingsReflexive(w: World)
    ensures SameBindings(w, w)
  {}

  lemma NoneMismatchedIsStuck(w: World)
    requires Mismatched(w) == 0
    ensures Stuck(w)
  {
    hide Jammed, Mismatched;
    forall i | 0 <= i < |w.users| ensures Jammed(w, i) { NothingMismatched(w, i); }
  }

  // ---- who is left in conflict ----

  /** A usable record of identity `d` with an account: cycles write its id back. */
  ghost predicate WrittenBack(w: World, d: string, x: int) {
    0 <= x < |w.users| && w.users[x].id == d && Usable(w.users[x]) && d in w.helpers
  }

  /** An identity refused on every walk. */
  ghost predicate Refused(w: World, d: string) {
    exists x :: WrittenBack(w, d, x) && w.users[x].externalId != w.helpers[d].id
  }

  ghost predicate NeverWrittenBack(w: World, d: string) { forall x :: !WrittenBack(w, d, x) }

  /** Who holds the value identity `d` wants. */
  function Owner(w: World, d: string): string {
    if d in w.helpers && w.helpers[d].id in w.bound then w.bound[w.helpers[d].id] else d
  }

  function Follow(w: World, d: string, n: nat): string {
    if n == 0 then d else Owner(w, Follow(w, d, n - 1))
  }

  /** The owner of a refused identity's value is someone else holding that value, itself
      refused or never written back. */
  lemma OwnerOfRefused(w: World, d: string)
    requires Healthy(w) && Stuck(w) && Refused(w, d)
    ensures var o := Owner(w, d);
      o != d && Holds(w.users, o, w.helpers[d].id) && (Refused(w, o) || NeverWrittenBack(w, o))
  {
    HealthyParts(w);
    var x :| WrittenBack(w, d, x) && w.users[x].externalId != w.helpers[d].id;
    assert Jammed(w, x);
    var o := Owner(w, d);
    assert Holds(w.users, w.bound[w.helpers[d].id], w.helpers[d].id);
    if y :| WrittenBack(w, o, y) {
      var z :| 0 <= z < |w.users| && w.users[z].id == o && w.users[z].externalId == w.helpers[d].id;
      assert y == z;
      assert w.helpers[o].id != w.helpers[d].id;
    }
  }

  lemma OwnerInjective(w: World, d: string, e: string)
    requires Healthy(w) && Stuck(w) && Refused(w, d) && Refused(w, e) && Owner(w, d) == Owner(w, e) != ""
    ensures d == e
  {
    OwnerOfRefused(w, d);
    OwnerOfRefused(w, e);
    HealthyParts(w);
    var y :| 0 <= y < |w.users| && w.users[y].id == Owner(w, d) && w.users[y].externalId == w.helpers[d].id;
    var z :| 0 <= z < |w.users| && w.users[z].id == Owner(w, e) && w.users[z].externalId == w.helpers[e].id;
    assert y == z;
  }

  /** Refused all the way, and not yet back at the start. */
  ghost predicate Path(w: World, d: string, n: nat) {
    (forall k :: 0 <= k <= n ==> Refused(w, Follow(w, d, k))) && (forall k :: 1 <= k <= n ==> Follow(w, d, k) != d)
  }

  lemma {:induction false} PathIsSimple(w: World, d: string, n: nat, i: nat, j: nat)
    requires Healthy(w) && Stuck(w) && Path(w, d, n) && i < j <= n
    ensures Follow(w, d, i) != Follow(w, d, j)
    decreases i
  {
    hide Healthy, Stuck, Refused, Owner;
    if i > 0 && Follow(w, d, i) == Follow(w, d, j) {
      PathIsSimple(w, d, n, i - 1, j - 1);
      RefusedHasId(w, Follow(w, d, i));
      OwnerInjective(w, Follow(w, d, i - 1), Follow(w, d, j - 1));
    }
  }

  lemma RefusedHasId(w: World, d: string)
    requires Refused(w, d)
    ensures d != "" && d in IdsOf(w.users)
  {}

  function IdsOf(users: seq<User>): set<string> { set i | 0 <= i < |users| :: users[i].id }

  lemma {:induction false} FewIds(users: seq<User>)
    ensures |IdsOf(users)| <= |users|
  {
    if users != [] {
      var n := |users| - 1;
      FewIds(users[..n]);
      assert IdsOf(users) == IdsOf(users[..n]) + {users[n].id};
    }
  }

  ghost function Steps(w: World, d: string, n: nat): set<string> { set k | 0 <= k <= n :: Follow(w, d, k) }

  lemma {:induction false} StepsAreMany(w: World, d: string, n: nat, m: nat)
    requires Healthy(w) && Stuck(w) && Path(w, d, n) && m <= n
    ensures |Steps(w, d, m)| == m + 1
  {
    hide Healthy, Stuck, Refused, Follow;
    if m == 0 {
      assert Steps(w, d, 0) == {Follow(w, d, 0)};
    } else {
      StepsAreMany(w, d, n, m - 1);
      forall k | 0 <= k <= m - 1 ensures Follow(w, d, k) != Follow(w, d, m) { PathIsSimple(w, d, n, k, m); }
      assert Steps(w, d, m) == Steps(w, d, m - 1) + {Follow(w, d, m)};
    }
  }

  lemma PathIsShort(w: World, d: string, n: nat)
    requires Healthy(w) && Stuck(w) && Path(w, d, n)
    ensures n < |w.users|
  {
    hide Healthy, Stuck, Refused, Follow;
    StepsAreMany(w, d, n, n);
    FewIds(w.users);
    forall s | s in Steps(w, d, n) ensures s in IdsOf(w.users) {
      var k :| 0 <= k <= n && Follow(w, d, k) == s;
      RefusedHasId(w, s);
    }
    Subset(Steps(w, d, n), IdsOf(w.users));
  }

  lemma Subset(a: set<string>, b: set<string>)
    requires a <= b
    ensures |a| <= |b|
  {
    assert b == a + (b - a);
  }

  /** Where a chain of owners that started at a refused identity ends. */
  ghost predicate EndsAt(w: World, d: string, n: nat) {
    && 1 <= n && (forall k :: 0 <= k < n ==> Refused(w, Follow(w, d, k)))
    && (Follow(w, d, n) == d || NeverWrittenBack(w, Follow(w, d, n)))
  }

  lemma {:induction false} FollowOn(w: World, d: string, n: nat) returns (m: nat)
    requires Healthy(w) && Stuck(w) && Path(w, d, n)
    ensures m <= |w.users| && EndsAt(w, d, m)
    decreases |w.users| - n
  {
    hide Healthy, Stuck, Refused, Owner, NeverWrittenBack;
    PathIsShort(w, d, n);
    OwnerOfRefused(w, Follow(w, d, n));
    if Follow(w, d, n + 1) == d || !Refused(w, Follow(w, d, n + 1)) {
      m := n + 1;
    } else {
      m := FollowOn(w, d, n + 1);
    }
  }

  /** On a stuck directory every refused identity leads, from owner to owner of the wanted
      values, through refused identities only, back to itself or to an identity no cycle
      ever writes back. */
  lemma RefusalExplained(w: World, d: string) returns (n: nat)
    requires Healthy(w) && Stuck(w) && Refused(w, d)
    ensures n <= |w.users| && EndsAt(w, d, n)
  {
    n := FollowOn(w, d, 0);
  }
}
