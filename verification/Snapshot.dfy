/** A walk in one piece: the records of a snapshot applied in order with nothing failing,
    and what that amounts to in terms of the store before it. */
module Snapshot {
  import opened Records
  import opened Protocol
  import opened Effects

  function Scan(c: Config, full: bool, w: World, t: Tally, us: seq<User>): Visited {
    if us == [] then Visited(w, t, true)
    else
      var v := Scan(c, full, w, t, us[..|us| - 1]);
      if !v.ok then v else Visit(c, full, v.w, v.tally, us[|us| - 1], NoFault)
  }

  lemma ScanStep(c: Config, full: bool, w: World, t: Tally, us: seq<User>, u: User)
    ensures
      var v := Scan(c, full, w, t, us);
      Scan(c, full, w, t, us + [u]) == if v.ok then Visit(c, full, v.w, v.tally, u, NoFault) else v
  {}

  /** What happens to a record, judged against the accounts before the walk. */
  datatype Class = Malformed | Skipped | Created | Enabled | Disabled | Updated | Unmodified

  function Classify(h: Helppers, u: User): Class {
    if !Usable(u) then Malformed
    else
      match Get(h, u.id)
      case None => if u.active.value then Created else Skipped
      case Some(p) =>
        if InState(p, u) then Unmodified
        else if p.enabled && !u.active.value then Disabled
        else if !p.enabled && u.active.value then Enabled
        else Updated
  }

  /** A write-back is attempted for every new account and every differing externalId. */
  predicate Wants(h: Helppers, u: User) {
    Usable(u) && (if u.id in h then u.externalId != h[u.id].id else u.active.value)
  }

  function Field(s: Stats, k: Class): nat {
    match k
    case Malformed => s.malformed
    case Skipped => s.skipped
    case Created => s.created
    case Enabled => s.enabled
    case Disabled => s.disabled
    case Updated => s.updated
    case Unmodified => s.unmodified
  }

  function Count(us: seq<User>, p: User -> bool): nat {
    if us == [] then 0 else Count(us[..|us| - 1], p) + (if p(us[|us| - 1]) then 1 else 0)
  }

  function Is(h: Helppers, k: Class): User -> bool { (u: User) => Classify(h, u) == k }
  function Wanting(h: Helppers): User -> bool { (u: User) => Wants(h, u) }

  /** The counters moved by exactly one record of class `Classify(h, u)`, scanned already. */
  ghost predicate Counted(s: Stats, s': Stats, h: Helppers, u: User) {
    && s'.scanned == s.scanned
    && (forall k: Class :: Field(s', k) == Field(s, k) + (if Classify(h, u) == k then 1 else 0))
    && s'.wroteBack + s'.conflicts == s.wroteBack + s.conflicts + (if Wants(h, u) then 1 else 0)
  }

  lemma WriteBackCounts(dry: bool, w: World, d: string, v: string, s: Stats)
    ensures
      var r := WriteBack(dry, w, d, v, NoFault, s);
      r.ok ==>
        && r.stats.(wroteBack := s.wroteBack, conflicts := s.conflicts) == s
        && r.stats.wroteBack + r.stats.conflicts == s.wroteBack + s.conflicts + 1
        && (dry ==> r.stats.conflicts == s.conflicts)
  {}

  lemma SyncCounts(dry: bool, w: World, u: User, p: Helpper, s: Stats)
    requires Usable(u) && u.active.Some? && Get(w.helpers, u.id) == Some(p)
    ensures
      var r := SyncState(dry, w, u, p, NoFault, s);
      && r.ok && r.stats.scanned == s.scanned && r.stats.wroteBack == s.wroteBack && r.stats.conflicts == s.conflicts
      && forall k: Class :: Field(r.stats, k) == Field(s, k) + (if Classify(w.helpers, u) == k then 1 else 0)
  {
    hide PrimaryEmail, Validate;
  }

  lemma WriteBackIsNoClass(s: Stats, s': Stats)
    requires s'.(wroteBack := s.wroteBack, conflicts := s.conflicts) == s
    ensures s'.scanned == s.scanned && forall k: Class :: Field(s', k) == Field(s, k)
  {}

  lemma KnownCounts(dry: bool, w: World, u: User, p: Helpper, s: Stats)
    requires Usable(u) && Get(w.helpers, u.id) == Some(p)
    ensures
      var a := ApplyKnown(dry, w, u, p, NoFault, s);
      a.ok ==> Counted(s, a.stats, w.helpers, u) && (dry ==> a.stats.conflicts == s.conflicts)
  {
    hide WriteBack, SyncState, Field, Classify, Validate;
    UsableHasFlag(u);
    var synced := SyncState(dry, w, u, p, NoFault, s);
    SyncCounts(dry, w, u, p, s);
    WriteBackCounts(dry, synced.w, u.id, p.id, synced.stats);
    var a := ApplyKnown(dry, w, u, p, NoFault, s);
    if a.ok { WriteBackIsNoClass(synced.stats, a.stats); }
  }

  lemma NewCounts(dry: bool, w: World, u: User, s: Stats)
    requires Usable(u) && u.id !in w.helpers
    ensures
      var a := ApplyNew(dry, w, u, NoFault, s);
      a.ok ==> Counted(s, a.stats, w.helpers, u) && (dry ==> a.stats.conflicts == s.conflicts)
  {}

  lemma ApplyCounts(dry: bool, w: World, u: User, s: Stats)
    ensures
      var a := Apply(dry, w, u, NoFault, s);
      a.ok ==>
        Counted(s.(scanned := s.scanned + 1), a.stats, w.helpers, u) && (dry ==> a.stats.conflicts == s.conflicts)
  {
    if Usable(u) {
      var s1 := s.(scanned := s.scanned + 1);
      match Get(w.helpers, u.id)
      case Some(p) => KnownCounts(dry, w, u, p, s1);
      case None => NewCounts(dry, w, u, s1);
    }
    hide ApplyKnown, ApplyNew, PrimaryEmail;
  }

  lemma VisitCounts(c: Config, full: bool, w: World, t: Tally, u: User)
    ensures
      var v := Visit(c, full, w, t, u, NoFault);
      v.ok ==> Counted(t.stats.(scanned := t.stats.scanned + 1), v.tally.stats, w.helpers, u)
               && (c.dryRun ==> v.tally.stats.conflicts == t.stats.conflicts)
  {
    ApplyCounts(c.dryRun, w, u, t.stats);
    hide Apply, Counted;
  }

  /** An account no usable record of the walk names. */
  ghost predicate Unnamed(us: seq<User>, d: string) {
    forall i :: 0 <= i < |us| && Usable(us[i]) ==> us[i].id != d
  }

  /** The accounts after a real walk: each usable record's account is as the record asks
      and keeps its id; every other account is untouched. */
  lemma {:induction false} ScanHelppers(c: Config, full: bool, w: World, t: Tally, us: seq<User>)
    requires !c.dryRun && DistinctIds(us) && Scan(c, full, w, t, us).ok
    ensures
      var h := Scan(c, full, w, t, us).w.helpers;
      && (forall d :: Unnamed(us, d) ==> Get(h, d) == Get(w.helpers, d))
      && (forall i :: 0 <= i < |us| && Usable(us[i]) ==> Agrees(us[i], h))
      && (forall i :: 0 <= i < |us| && Usable(us[i]) ==>
            (us[i].id in h <==> us[i].id in w.helpers || us[i].active.value))
      && (forall d :: d in w.helpers ==> d in h && h[d].id == w.helpers[d].id)
  {
    hide Visit, InState, PrimaryEmail;
    if us != [] {
      var n := |us| - 1;
      var v, u := Scan(c, full, w, t, us[..n]), us[n];
      assert DistinctIds(us[..n]);
      ScanHelppers(c, full, w, t, us[..n]);
      VisitConfined(c, full, v.w, v.tally, u, NoFault);
      var h := Visit(c, full, v.w, v.tally, u, NoFault).w.helpers;
      forall i | 0 <= i < n && Usable(us[i])
        ensures Agrees(us[i], h) && (us[i].id in h <==> us[i].id in w.helpers || us[i].active.value)
      {
        assert us[..n][i] == us[i];
        if u.id == us[i].id { assert u.id == ""; }
        assert Get(h, us[i].id) == Get(v.w.helpers, us[i].id);
      }
      if Usable(u) {
        assert Unnamed(us[..n], u.id);
        assert Get(v.w.helpers, u.id) == Get(w.helpers, u.id);
      }
      forall d | d in w.helpers ensures d in h && h[d].id == w.helpers[d].id {
        if d != u.id { assert Get(h, d) == Get(v.w.helpers, d); }
      }
      forall d | Unnamed(us, d) ensures Get(h, d) == Get(w.helpers, d) {
        assert Unnamed(us[..n], d);
        assert Usable(u) ==> u.id != d;
      }
    }
  }

  lemma DryVisit(c: Config, full: bool, w: World, t: Tally, u: User, f: Fault)
    requires c.dryRun
    ensures Visit(c, full, w, t, u, f).w == w
  {}

  /** A dry walk changes nothing. */
  lemma {:induction false} DryScan(c: Config, full: bool, w: World, t: Tally, us: seq<User>)
    requires c.dryRun
    ensures Scan(c, full, w, t, us).w == w
  {
    if us != [] {
      var v := Scan(c, full, w, t, us[..|us| - 1]);
      DryScan(c, full, w, t, us[..|us| - 1]);
      DryVisit(c, full, v.w, v.tally, us[|us| - 1], NoFault);
    }
    hide Visit;
  }

  lemma LastUntouched(c: Config, full: bool, w: World, t: Tally, us: seq<User>, u: User)
    requires DistinctIds(us + [u]) && Usable(u) && Scan(c, full, w, t, us).ok
    ensures Get(Scan(c, full, w, t, us).w.helpers, u.id) == Get(w.helpers, u.id)
  {
    if c.dryRun { DryScan(c, full, w, t, us); }
    else {
      assert forall i :: 0 <= i < |us| ==> (us + [u])[i] == us[i];
      assert DistinctIds(us);
      ScanHelppers(c, full, w, t, us);
      assert (us + [u])[|us|] == u;
      assert Unnamed(us, u.id);
    }
  }

  /** So it is judged as before the walk. */
  lemma LastJudged(c: Config, full: bool, w: World, t: Tally, us: seq<User>, u: User)
    requires DistinctIds(us + [u]) && Scan(c, full, w, t, us).ok
    ensures
      var h := Scan(c, full, w, t, us).w.helpers;
      Classify(h, u) == Classify(w.helpers, u) && Wants(h, u) == Wants(w.helpers, u)
  {
    hide Scan, DistinctIds, InState, Validate;
    if Usable(u) { LastUntouched(c, full, w, t, us, u); }
  }

  lemma ScannedIsNoClass(s: Stats, n: nat)
    ensures forall k: Class :: Field(s.(scanned := n), k) == Field(s, k)
  {}

  /** The counters after a walk, real or dry, counted over the snapshot against the
      accounts before the walk. */
  lemma {:induction false} ScanCounts(c: Config, full: bool, w: World, t: Tally, us: seq<User>)
    requires DistinctIds(us) && Scan(c, full, w, t, us).ok
    ensures
      var s := Scan(c, full, w, t, us).tally.stats;
      && s.scanned == t.stats.scanned + |us|
      && (forall k: Class :: Field(s, k) == Field(t.stats, k) + Count(us, Is(w.helpers, k)))
      && s.wroteBack + s.conflicts == t.stats.wroteBack + t.stats.conflicts + Count(us, Wanting(w.helpers))
      && (c.dryRun ==> s.conflicts == t.stats.conflicts)
  {
    hide Visit, Field, Classify, Wants, DistinctIds;
    if us != [] {
      var n := |us| - 1;
      var v, u := Scan(c, full, w, t, us[..n]), us[n];
      assert us == us[..n] + [u];
      DistinctPrefix(us, n);
      ScanCounts(c, full, w, t, us[..n]);
      VisitCounts(c, full, v.w, v.tally, u);
      ScannedIsNoClass(v.tally.stats, v.tally.stats.scanned + 1);
      LastJudged(c, full, w, t, us[..n], u);
    }
  }

  lemma DistinctPrefix(us: seq<User>, n: nat)
    requires DistinctIds(us) && n <= |us|
    ensures DistinctIds(us[..n])
  {}

  // ---- when a walk succeeds, and its watermark ----

  /** Nothing stands in the way of a walk over `us` but the limit on unusable records. */
  ghost predicate Ready(w: World, us: seq<User>) {
    ValidStore(w) && forall i :: 0 <= i < |us| && Usable(us[i]) ==> Known(w.users, us[i].id)
  }

  predicate WithinLimit(c: Config, n: nat) { c.maxMalformed < 0 || n <= c.maxMalformed }

  function IsUnusable(): User -> bool { (u: User) => !Usable(u) }

  lemma VisitSucceeds(c: Config, full: bool, w: World, t: Tally, u: User)
    requires ValidStore(w) && (Usable(u) ==> Known(w.users, u.id))
    ensures
      var v := Visit(c, full, w, t, u, NoFault);
      && v.ok == (Usable(u) || WithinLimit(c, t.stats.malformed + 1))
      && ValidStore(v.w)
      && v.tally.stats.malformed == t.stats.malformed + (if Usable(u) then 0 else 1)
      && forall d :: Known(w.users, d) ==> Known(v.w.users, d)
  {
    ApplySucceeds(c.dryRun, w, u, t.stats);
    ApplyValid(c.dryRun, w, u, NoFault, t.stats);
    ApplyCounts(c.dryRun, w, u, t.stats);
    var a := Apply(c.dryRun, w, u, NoFault, t.stats);
    assert Field(a.stats, Malformed)
        == Field(t.stats, Malformed) + (if Classify(w.helpers, u) == Malformed then 1 else 0);
    assert a.before.malformed == !Usable(u);
    if c.dryRun { DryVisit(c, full, w, t, u, NoFault); }
    else {
      ApplyConfined(w, u, NoFault, t.stats);
      forall d | Known(w.users, d) ensures Known(a.w.users, d) { BumpedKnown(w.users, a.w.users, u.id, d); }
    }
    hide Apply, Known, ValidStore;
  }

  /** A walk fails exactly when it meets more unusable records than the limit allows. */
  lemma {:induction false} ScanSucceeds(c: Config, full: bool, w: World, us: seq<User>)
    requires Ready(w, us)
    ensures
      var v := Scan(c, full, w, NO_TALLY, us);
      && v.ok == WithinLimit(c, Count(us, IsUnusable()))
      && ValidStore(v.w)
      && (forall d :: Known(w.users, d) ==> Known(v.w.users, d))
      && (v.ok ==> v.tally.stats.malformed == Count(us, IsUnusable()))
  {
    if us != [] {
      var n := |us| - 1;
      var v := Scan(c, full, w, NO_TALLY, us[..n]);
      forall i | 0 <= i < n && Usable(us[..n][i]) ensures Known(w.users, us[..n][i].id) { assert us[..n][i] == us[i]; }
      ScanSucceeds(c, full, w, us[..n]);
      VisitSucceeds(c, full, v.w, v.tally, us[n]);
    }
    hide Visit, Usable, Known, ValidStore;
  }

  /** `m` is the newest stamp among the usable records, 0 when none is later than that. */
  ghost predicate IsHigh(us: seq<User>, m: int) {
    && (forall u :: u in us && Usable(u) ==> u.lastModified <= m)
    && m >= 0 && (m == 0 || exists u :: u in us && Usable(u) && u.lastModified == m)
  }

  /** `m` is the oldest stamp among the stamped unusable records, 0 when there is none. */
  ghost predicate IsEarliest(us: seq<User>, m: int) {
    && (forall u :: u in us && !Usable(u) && u.lastModified != 0 ==> m != 0 && m <= u.lastModified)
    && (m == 0 || exists u :: u in us && !Usable(u) && u.lastModified == m)
  }

  ghost predicate DrivesDown(h: Helppers, u: User) {
    Usable(u) && u.id in h && h[u.id].enabled && !u.active.value
  }

  ghost predicate LacksExternalId(h: Helppers, u: User) { Usable(u) && u.id in h && u.externalId == "" }

  /** The ids of the records satisfying a predicate, in the order of the walk. */
  ghost function Ids(us: seq<User>, p: User -> bool): seq<string> {
    if us == [] then []
    else Ids(us[..|us| - 1], p) + (if p(us[|us| - 1]) then [us[|us| - 1].id] else [])
  }

  ghost function DrivingDown(h: Helppers): User -> bool { (u: User) => DrivesDown(h, u) }
  ghost function LackingExternalId(h: Helppers): User -> bool { (u: User) => LacksExternalId(h, u) }

  /** What one record adds to the shared variables of a walk. */
  lemma VisitMarks(c: Config, full: bool, w: World, t: Tally, u: User)
    ensures
      var v := Visit(c, full, w, t, u, NoFault);
      v.ok ==>
        && v.tally.high == (if Usable(u) && u.lastModified > t.high then u.lastModified else t.high)
        && v.tally.earliest == (if Usable(u) then t.earliest else HoldBack(t.earliest, u.lastModified))
        && v.tally.seen == (if full then t.seen + {u.id} else t.seen)
        && v.tally.drift.absent == t.drift.absent
        && v.tally.drift.shouldBeDisabled
           == t.drift.shouldBeDisabled + (if full && DrivesDown(w.helpers, u) then [u.id] else [])
        && v.tally.drift.missingExternalID
           == t.drift.missingExternalID + (if full && LacksExternalId(w.helpers, u) then [u.id] else [])
  {}

  lemma HighExtends(us: seq<User>, u: User, m: int)
    requires IsHigh(us, m)
    ensures IsHigh(us + [u], if Usable(u) && u.lastModified > m then u.lastModified else m)
  {}

  lemma EarliestExtends(us: seq<User>, u: User, m: int)
    requires IsEarliest(us, m)
    ensures IsEarliest(us + [u], if Usable(u) then m else HoldBack(m, u.lastModified))
  {}

  lemma VisitExtendsMarks(c: Config, full: bool, w: World, t: Tally, us: seq<User>, u: User)
    requires IsHigh(us, t.high) && IsEarliest(us, t.earliest) && Visit(c, full, w, t, u, NoFault).ok
    ensures
      var t' := Visit(c, full, w, t, u, NoFault).tally;
      IsHigh(us + [u], t'.high) && IsEarliest(us + [u], t'.earliest)
  {
    hide *;
    VisitMarks(c, full, w, t, u);
    HighExtends(us, u, t.high);
    EarliestExtends(us, u, t.earliest);
  }

  lemma NothingMarked()
    ensures IsHigh([], 0) && IsEarliest([], 0)
  {}

  /** The watermark of a walk comes from the newest usable and the oldest unusable stamp. */
  lemma {:induction false} ScanMarks(c: Config, full: bool, w: World, us: seq<User>)
    requires Scan(c, full, w, NO_TALLY, us).ok
    ensures
      var t := Scan(c, full, w, NO_TALLY, us).tally;
      IsHigh(us, t.high) && IsEarliest(us, t.earliest)
  {
    hide Visit, IsHigh, IsEarliest;
    if us == [] {
      NothingMarked();
    } else {
      var n := |us| - 1;
      var v := Scan(c, full, w, NO_TALLY, us[..n]);
      ScanMarks(c, full, w, us[..n]);
      VisitExtendsMarks(c, full, v.w, v.tally, us[..n], us[n]);
      assert us == us[..n] + [us[n]];
    }
  }

  ghost predicate Listed(us: seq<User>, d: string) { exists i :: 0 <= i < |us| && us[i].id == d }

  lemma ListedExtends(us: seq<User>, u: User, d: string)
    ensures Listed(us + [u], d) <==> Listed(us, d) || u.id == d
  {
    if i :| 0 <= i < |us| && us[i].id == d { assert (us + [u])[i].id == d; }
    assert (us + [u])[|us|] == u;
  }

  /** A full walk's observations, in terms of the accounts before it. */
  lemma {:induction false} ScanObserves(c: Config, w: World, us: seq<User>)
    requires DistinctIds(us) && Scan(c, true, w, NO_TALLY, us).ok
    ensures
      var t := Scan(c, true, w, NO_TALLY, us).tally;
      && (forall d :: d in t.seen <==> Listed(us, d))
      && t.drift == Drift([], Ids(us, DrivingDown(w.helpers)), Ids(us, LackingExternalId(w.helpers)))
  {
    if us != [] {
      var n := |us| - 1;
      var v, u := Scan(c, true, w, NO_TALLY, us[..n]), us[n];
      assert us == us[..n] + [u];
      assert DistinctIds(us[..n]);
      ScanObserves(c, w, us[..n]);
      VisitMarks(c, true, v.w, v.tally, u);
      if Usable(u) { LastUntouched(c, true, w, NO_TALLY, us[..n], u); }
      assert DrivesDown(v.w.helpers, u) == DrivesDown(w.helpers, u);
      assert LacksExternalId(v.w.helpers, u) == LacksExternalId(w.helpers, u);
      var t := Visit(c, true, v.w, v.tally, u, NoFault).tally;
      forall d ensures d in t.seen <==> Listed(us, d) { ListedExtends(us[..n], u, d); }
    }
    hide Visit, Usable, DrivesDown, LacksExternalId, Listed;
  }
}
