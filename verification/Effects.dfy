/** What applying one record can change, whatever fails on the way. */
module Effects {
  import opened Records
  import opened Protocol
  import Decimal

  /** Some records carrying `id` were written back; no other record changed. */
  ghost predicate Bumped(a: seq<User>, b: seq<User>, id: string) {
    |a| == |b| && forall i :: 0 <= i < |a| ==> b[i] == a[i] || (a[i].id == id && b[i] == Stamped(a[i], b[i].externalId))
  }

  ghost predicate SameElsewhere(g: Helppers, h: Helppers, d: string) {
    forall e :: e != d ==> Get(g, e) == Get(h, e)
  }

  lemma WriteBackEffect(dry: bool, w: World, d: string, v: string, f: Fault, s: Stats)
    ensures
      var r := WriteBack(dry, w, d, v, f, s);
      && Bumped(w.users, r.w.users, d) && r.w.helpers == w.helpers
      && r.w.checkpoint == w.checkpoint && r.w.nextID == w.nextID
      && (dry ==> r.w == w)
  {}

  /** A record touches its own account and its own directory entry only; an unusable one
      touches nothing; a usable one leaves its account as the record asks, or fails
      having changed nothing. */
  ghost predicate Confined(w: World, u: User, w': World, ok: bool) {
    && SameElsewhere(w.helpers, w'.helpers, u.id)
    && Bumped(w.users, w'.users, u.id)
    && w'.checkpoint == w.checkpoint
    && (!Usable(u) ==> w' == w)
    && (Usable(u) ==> Agrees(u, w'.helpers) || (!ok && w' == w))
    && (u.id in w.helpers ==> u.id in w'.helpers && w'.helpers[u.id].id == w.helpers[u.id].id)
    && (u.id in w'.helpers && u.id !in w.helpers ==> u.active == Some(true))
  }

  lemma KnownConfined(w: World, u: User, p: Helpper, f: Fault, s: Stats)
    requires Usable(u) && Get(w.helpers, u.id) == Some(p)
    ensures var a := ApplyKnown(false, w, u, p, f, s); Confined(w, u, a.w, a.ok) && !a.before.malformed
  {
    var synced := SyncState(false, w, u, p, f, s);
    WriteBackEffect(false, synced.w, u.id, p.id, f, synced.stats);
    hide WriteBack, PrimaryEmail, BumpState;
  }

  lemma NewConfined(w: World, u: User, f: Fault, s: Stats)
    requires Usable(u) && u.id !in w.helpers
    ensures var a := ApplyNew(false, w, u, f, s); Confined(w, u, a.w, a.ok) && !a.before.malformed
  {
    if u.active.value && f != StoreWriteFails {
      var w' := WithAccount(w, u.id, PrimaryEmail(u), u.displayName);
      WriteBackEffect(false, w', u.id, w'.helpers[u.id].id, f, s.(created := s.created + 1));
    }
    hide WriteBack, PrimaryEmail;
  }

  lemma ApplyConfined(w: World, u: User, f: Fault, s: Stats)
    ensures var a := Apply(false, w, u, f, s); Confined(w, u, a.w, a.ok) && a.before.malformed == !Usable(u)
  {
    hide ApplyKnown, ApplyNew, PrimaryEmail, InState;
    if Usable(u) && f != LookupFails {
      var s1 := s.(scanned := s.scanned + 1);
      match Get(w.helpers, u.id)
      case Some(p) => KnownConfined(w, u, p, f, s1);
      case None => NewConfined(w, u, f, s1);
    }
  }

  /** A usable record applied with success leaves its account enabled, named and addressed as the
      record is, or there is none and the record is inactive. */
  lemma ApplyLeaves(w: World, u: User, f: Fault, s: Stats)
    requires Usable(u) && Apply(false, w, u, f, s).ok
    ensures
      var h := Apply(false, w, u, f, s).w.helpers;
      if u.id in h
      then h[u.id].enabled == (u.active == Some(true)) && h[u.id].displayName == u.displayName
           && h[u.id].login == PrimaryEmail(u)
      else u.active == Some(false)
  {
    hide Apply, PrimaryEmail;
    UsableHasFlag(u);
    ApplyConfined(w, u, f, s);
  }

  lemma VisitConfined(c: Config, full: bool, w: World, t: Tally, u: User, f: Fault)
    requires !c.dryRun
    ensures var v := Visit(c, full, w, t, u, f);
      && Confined(w, u, v.w, v.ok)
      && (v.ok ==> v.tally.earliest == if Usable(u) then t.earliest else HoldBack(t.earliest, u.lastModified))
  {
    ApplyConfined(w, u, f, t.stats);
    hide Apply;
  }

  // ---- the store stays well formed ----

  ghost predicate ValidStore(w: World) { ValidHelpers(w.helpers, w.nextID) }

  /** The counter's next rendering has not been issued. */
  lemma NextIdIsNew(id: string, nextID: nat)
    requires Issued(id, nextID)
    ensures id != Decimal.Render(nextID + 1) && id != "" && Issued(id, nextID + 1)
  {
    var k: nat :| k <= nextID && id == Decimal.Render(k);
    if id == Decimal.Render(nextID + 1) { Decimal.RenderInjective(k, nextID + 1); }
  }

  lemma IssuedByNow(n: nat)
    ensures Issued(Decimal.Render(n), n)
  {}

  lemma CreatedIsValid(w: World, d: string, login: string, name: string)
    requires ValidStore(w) && d !in w.helpers
    ensures ValidStore(WithAccount(w, d, login, name))
  {
    hide Issued, Decimal.Render;
    IssuedByNow(w.nextID + 1);
    var h' := WithAccount(w, d, login, name).helpers;
    forall e | e in h' ensures h'[e].directoryId == e && Issued(h'[e].id, w.nextID + 1) {
      if e != d { NextIdIsNew(w.helpers[e].id, w.nextID); }
    }
    forall e | e in w.helpers ensures h'[e].id != h'[d].id { NextIdIsNew(w.helpers[e].id, w.nextID); }
  }

  lemma UpdatedIsValid(w: World, d: string, enabled: bool, name: string, login: string)
    requires ValidStore(w) && d in w.helpers
    ensures ValidStore(w.(helpers := w.helpers[d := Restated(w.helpers[d], enabled, name, login)]))
  {}

  lemma KnownValid(dry: bool, w: World, u: User, p: Helpper, f: Fault, s: Stats)
    requires ValidStore(w) && u.active.Some? && Get(w.helpers, u.id) == Some(p)
    ensures ValidStore(ApplyKnown(dry, w, u, p, f, s).w)
  {
    hide WriteBack, PrimaryEmail, ValidHelpers;
    var synced := SyncState(dry, w, u, p, f, s);
    UpdatedIsValid(w, u.id, u.active.value, u.displayName, PrimaryEmail(u));
    WriteBackEffect(dry, synced.w, u.id, p.id, f, synced.stats);
  }

  lemma NewValid(dry: bool, w: World, u: User, f: Fault, s: Stats)
    requires ValidStore(w) && u.active.Some? && u.id !in w.helpers
    ensures ValidStore(ApplyNew(dry, w, u, f, s).w)
  {
    hide WriteBack, PrimaryEmail, ValidHelpers;
    var w', s' := WithAccount(w, u.id, PrimaryEmail(u), u.displayName), s.(created := s.created + 1);
    CreatedIsValid(w, u.id, PrimaryEmail(u), u.displayName);
    WriteBackEffect(dry, w', u.id, w'.helpers[u.id].id, f, s');
    WriteBackEffect(dry, w, u.id, DRY_RUN_ID, f, s');
  }

  lemma ApplyValid(dry: bool, w: World, u: User, f: Fault, s: Stats)
    requires ValidStore(w)
    ensures ValidStore(Apply(dry, w, u, f, s).w)
  {
    hide ApplyKnown, ApplyNew, ValidStore, PrimaryEmail;
    if Usable(u) && f != LookupFails {
      var s1 := s.(scanned := s.scanned + 1);
      match Get(w.helpers, u.id)
      case Some(p) => KnownValid(dry, w, u, p, f, s1);
      case None => NewValid(dry, w, u, f, s1);
    }
  }

  // ---- nothing fails by itself ----

  lemma WriteBackSucceeds(dry: bool, w: World, d: string, v: string, s: Stats)
    requires v != "" && (dry || Known(w.users, d))
    ensures WriteBack(dry, w, d, v, NoFault, s).ok
  {}

  lemma KnownSucceeds(dry: bool, w: World, u: User, p: Helpper, s: Stats)
    requires ValidStore(w) && u.active.Some? && Get(w.helpers, u.id) == Some(p) && (!dry ==> Known(w.users, u.id))
    ensures ApplyKnown(dry, w, u, p, NoFault, s).ok
  {
    hide WriteBack, PrimaryEmail, Issued, BumpState;
    var synced := SyncState(dry, w, u, p, NoFault, s);
    NextIdIsNew(p.id, w.nextID);
    WriteBackSucceeds(dry, synced.w, u.id, p.id, synced.stats);
  }

  lemma NewSucceeds(dry: bool, w: World, u: User, s: Stats)
    requires u.active.Some? && u.id !in w.helpers && (!dry ==> Known(w.users, u.id))
    ensures ApplyNew(dry, w, u, NoFault, s).ok
  {
    hide WriteBack, PrimaryEmail;
    var w', s2 := WithAccount(w, u.id, PrimaryEmail(u), u.displayName), s.(created := s.created + 1);
    WriteBackSucceeds(dry, w', u.id, w'.helpers[u.id].id, s2);
    WriteBackSucceeds(dry, w, u.id, DRY_RUN_ID, s2);
  }

  /** With no fault injected, a record the directory knows is always applied. */
  lemma ApplySucceeds(dry: bool, w: World, u: User, s: Stats)
    requires ValidStore(w) && (Usable(u) && !dry ==> Known(w.users, u.id))
    ensures Apply(dry, w, u, NoFault, s).ok
  {
    hide ApplyKnown, ApplyNew, ValidStore, Validate;
    if Usable(u) {
      UsableHasFlag(u);
      var s1 := s.(scanned := s.scanned + 1);
      match Get(w.helpers, u.id)
      case Some(p) => KnownSucceeds(dry, w, u, p, s1);
      case None => NewSucceeds(dry, w, u, s1);
    }
  }

  lemma BumpedKnown(a: seq<User>, b: seq<User>, id: string, d: string)
    requires Bumped(a, b, id)
    ensures Known(a, d) <==> Known(b, d)
  {}
}
