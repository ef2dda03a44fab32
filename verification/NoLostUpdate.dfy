/** No update is lost over any run: whatever has fallen behind the incremental filter
    has been applied. */
module NoLostUpdate {
  import opened Records
  import opened Protocol
  import opened Pager
  import opened Cycle
  import opened Effects

  /** The filter of an incremental cycle that starts from `checkpoint` lets this stamp through. */
  predicate Reaches(c: Config, lastModified: int, checkpoint: int) {
    After(lastModified, Cutoff(checkpoint, c.overlap))
  }

  /** It lets through every stamp less than the overlap behind the checkpoint, and some more within
      the same second. */
  lemma StampInTimeReaches(c: Config, lastModified: int, checkpoint: int)
    ensures lastModified + c.overlap > checkpoint ==> Reaches(c, lastModified, checkpoint)
    ensures Reaches(c, lastModified, checkpoint) && checkpoint != 0 && Cutoff(checkpoint, c.overlap) != 0 ==>
      lastModified + c.overlap + SECOND > checkpoint
  {}

  /** The next incremental cycle's filter still lets the record through. */
  predicate InView(c: Config, u: User, checkpoint: int) { Reaches(c, u.lastModified, checkpoint) }

  predicate Reconciled(u: User, h: Helppers) { Usable(u) && Agrees(u, h) }

  /** If record `i` is stamped and behind the filter, it is usable and agrees with its account. */
  ghost predicate SoundAt(c: Config, w: World, i: nat)
    requires i < |w.users|
  {
    w.users[i].lastModified != 0 && !InView(c, w.users[i], w.checkpoint) ==> Reconciled(w.users[i], w.helpers)
  }

  /** So it is for every record, those at the positions `x` aside. */
  ghost predicate SoundExcept(c: Config, w: World, x: set<nat>) {
    forall i: nat :: i < |w.users| && i !in x ==> SoundAt(c, w, i)
  }

  ghost predicate Sound(c: Config, w: World) { SoundExcept(c, w, {}) }

  /** The event edits a record the directory has. */
  predicate Edits(s: Sys, e: Event) { e.Touch? && IndexOf(s.world.users, e.id) < |s.world.users| }

  /** An edit keeps the record's id, and does not take the record out of the filter of a walk
      under way. */
  predicate KeepsFilter(s: Sys, e: Event) {
    Edits(s, e) ==>
      var u := s.world.users[IndexOf(s.world.users, e.id)];
      e.after.id == e.id && (s.phase.Walking? && Matches(u, s.phase.since) ==> After(e.at, s.phase.since))
  }

  ghost predicate KeepsFilterRun(c: Config, s: Sys, es: seq<Event>)
    requires c.pageSize > 0
  {
    forall k :: 0 <= k < |es| ==> KeepsFilter(Run(c, s, es[..k]), es[k])
  }

  lemma PrefixKeepsFilter(c: Config, s: Sys, es: seq<Event>, n: nat)
    requires c.pageSize > 0 && n <= |es| && KeepsFilterRun(c, s, es)
    ensures KeepsFilterRun(c, s, es[..n])
  {
    hide Run, KeepsFilter;
    forall k | 0 <= k < n ensures KeepsFilter(Run(c, s, es[..n][..k]), es[..n][k]) { assert es[..n][..k] == es[..k]; }
  }

  /** Event `e` ends a walk, and moves the checkpoint past record `i`, which was edited behind
      the walk's back and is not as its account is. */
  ghost predicate PassesOver(c: Config, s: Sys, e: Event, i: nat) {
    && e.Finish? && e.saved && s.phase.Walking? && s.phase.done
    && i in s.phase.hist.late && i < |s.world.users|
    && s.world.users[i].lastModified != 0 && !InView(c, s.world.users[i], Target(c, s.phase, e.now))
    && !Reconciled(s.world.users[i], s.world.helpers)
  }

  /** The premise on the directory for the records outside `x`: they are edited within view, and
      no walk that ends passes over them. */
  ghost predicate Timely(c: Config, s: Sys, e: Event, x: set<nat>) {
    && KeepsFilter(s, e)
    && (Edits(s, e) && IndexOf(s.world.users, e.id) !in x ==> Reaches(c, e.at, s.world.checkpoint))
    && forall i: nat :: i !in x ==> !PassesOver(c, s, e, i)
  }

  ghost predicate TimelyRun(c: Config, s: Sys, es: seq<Event>, x: set<nat>)
    requires c.pageSize > 0
  {
    forall k :: 0 <= k < |es| ==> Timely(c, Run(c, s, es[..k]), es[k], x)
  }

  // ---- the invariant of a walk ----

  /** A record without the two fields a write-back changes. */
  function Core(u: User): User { u.(externalId := "", lastModified := 0) }

  /** Position `i`, not edited behind the walk, relative to where the walk started. */
  ghost predicate RecordInv(c: Config, w: World, p: Phase, i: nat)
    requires p.Walking? && i < |w.users| == |p.hist.base|
  {
    var b, u, met := p.hist.base[i], w.users[i], Served(p.hist.log, i);
    && Core(b) == Core(u) && b.lastModified <= u.lastModified
    && (b.lastModified != u.lastModified ==> met)
    && (!Usable(b) ==> u == b)
    && (met && Usable(b) ==> Agrees(b, w.helpers))
    && (met && !Usable(b) && b.lastModified != 0 ==> p.tally.earliest != 0 && p.tally.earliest <= b.lastModified)
    && (!met && b.id != "" ==> Get(w.helpers, b.id) == Get(p.hist.helpers0, b.id))
    && (b.lastModified != 0 && !InView(c, b, p.current) ==> Reconciled(b, p.hist.helpers0))
  }

  /** A page entry still to be applied. */
  ghost predicate EntryInv(w: World, p: Phase, r: Rec, x: set<nat>)
    requires p.Walking? && |w.users| == |p.hist.base|
  {
    && r.ix < |w.users| && r.user.id == w.users[r.ix].id
    && (r.ix !in p.hist.late + x ==> Core(r.user) == Core(p.hist.base[r.ix]))
    && (r.ix !in p.hist.late + x && !Usable(p.hist.base[r.ix]) ==> r.user == p.hist.base[r.ix])
  }

  ghost predicate AllServed(w: World, p: Phase, x: set<nat>)
    requires p.Walking? && |w.users| == |p.hist.base|
  {
    forall i :: 0 <= i < |w.users| && i !in p.hist.late + x && Matches(p.hist.base[i], p.since)
      ==> Served(p.hist.log + p.pending, i)
  }

  /** What has not been served stands at or after `startIndex`. */
  ghost predicate Ahead(w: World, p: Phase, startIndex: int, x: set<nat>)
    requires p.Walking? && |w.users| == |p.hist.base|
  {
    forall i :: 0 <= i < |w.users| && i !in p.hist.late + x && Matches(p.hist.base[i], p.since)
                && !Served(p.hist.log + p.pending, i)
      ==> Rank(w.users, p.since, i) >= startIndex - 1
  }

  predicate LastPage(c: Config, p: Phase)
    requires p.Walking?
  {
    |p.page| < c.pageSize || p.pager.startIndex + |p.page| > p.total
  }

  ghost predicate Coverage(c: Config, w: World, p: Phase, x: set<nat>)
    requires p.Walking? && |w.users| == |p.hist.base|
  {
    if p.done then p.pending == [] && AllServed(w, p, x)
    else if p.pending == [] then Ahead(w, p, p.pager.startIndex, x)
    else if LastPage(c, p) then AllServed(w, p, x)
    else Ahead(w, p, p.pager.startIndex + |p.page|, x)
  }

  ghost predicate Shape(c: Config, w: World, p: Phase)
    requires p.Walking?
  {
    && |w.users| == |p.hist.base|
    && p.pager.startIndex >= 1
    && p.current == w.checkpoint
    && (p.since == 0 || p.since == Cutoff(p.current, c.overlap))
    && (!p.full ==> p.since == Cutoff(p.current, c.overlap))
    && forall i :: 0 <= i < |w.users| ==> p.hist.base[i].id == w.users[i].id
  }

  ghost predicate WalkInv(c: Config, w: World, p: Phase, x: set<nat>)
    requires p.Walking?
  {
    && Shape(c, w, p)
    && (forall i :: 0 <= i < |w.users| && i !in p.hist.late + x ==> RecordInv(c, w, p, i))
    && (forall i :: 0 <= i < |w.users| && i in p.hist.late - x ==> InView(c, w.users[i], p.current))
    && (forall k :: 0 <= k < |p.pending| ==> EntryInv(w, p, p.pending[k], x))
    && Coverage(c, w, p, x)
  }

  ghost predicate Inv(c: Config, s: Sys, x: set<nat>) {
    && DistinctIds(s.world.users)
    && (if s.phase.Walking? then WalkInv(c, s.world, s.phase, x) else SoundExcept(c, s.world, x))
  }

  // ---- consequences ----

  lemma WalkInvIsSound(c: Config, w: World, p: Phase, x: set<nat>)
    requires p.Walking? && WalkInv(c, w, p, x)
    ensures SoundExcept(c, w, x)
  {
    forall i: nat | i < |w.users| && i !in x ensures SoundAt(c, w, i) {
      if i !in p.hist.late + x {
        assert RecordInv(c, w, p, i);
        SameCore(p.hist.base[i], w.users[i], w.helpers);
      }
    }
  }

  lemma SameCore(a: User, b: User, h: Helppers)
    requires Core(a) == Core(b)
    ensures a.id == b.id && Validate(a) == Validate(b) && PrimaryEmail(a) == PrimaryEmail(b)
    ensures Agrees(a, h) == Agrees(b, h)
  {}

  // ---- directory edits ----

  lemma TouchKeeps(c: Config, s: Sys, id: string, at: int, after: User, x: set<nat>)
    requires Inv(c, s, x) && Timely(c, s, Touch(id, at, after), x) && c.overlap > 0
    ensures Inv(c, NextTouch(s, id, at, after), x)
  {
    var w, i := s.world, IndexOf(s.world.users, id);
    if i < |w.users| {
      var e := after.(lastModified := at);
      var w' := w.(users := w.users[i := e]);
      assert DistinctIds(w'.users);
      if s.phase.Walking? {
        TouchKeepsWalk(c, w, s.phase, i, e, x);
        assert NextTouch(s, id, at, after) == Sys(w', Edited(s.phase, w.users, i, e));
      } else {
        forall j: nat | j < |w'.users| && j !in x ensures SoundAt(c, w', j) {
          assert j != i ==> SoundAt(c, w, j);
        }
      }
    }
  }

  lemma TouchGrows(w: World, p: Phase, i: nat, e: User)
    requires p.Walking? && i < |w.users| && (Matches(w.users[i], p.since) ==> Matches(e, p.since))
    ensures Grows(w.users, w.users[i := e], p.since)
  {}

  /** The history after the edit of record `i` into `e`. */
  function Edited(p: Phase, users: seq<User>, i: nat, e: User): Phase
    requires p.Walking? && i < |users| == |p.hist.base|
  {
    if Matches(users[i], p.since) && !Served(p.hist.log + p.pending, i)
    then p.(hist := p.hist.(base := p.hist.base[i := e]))
    else p.(hist := p.hist.(late := p.hist.late + {i}))
  }

  lemma TouchKeepsWalk(c: Config, w: World, p: Phase, i: nat, e: User, x: set<nat>)
    requires WalkingInv(c, w, p, x) && i < |w.users|
    requires e.id == w.users[i].id && (i !in x ==> InView(c, e, w.checkpoint))
    requires Matches(w.users[i], p.since) ==> Matches(e, p.since)
    ensures WalkingInv(c, w.(users := w.users[i := e]), Edited(p, w.users, i, e), x)
  {
    var w', p' := w.(users := w.users[i := e]), Edited(p, w.users, i, e);
    forall j | 0 <= j < |w.users| && j !in p'.hist.late + x ensures RecordInv(c, w', p', j) {
      TouchRecord(c, w, p, i, e, j, x);
    }
    forall k | 0 <= k < |p.pending| ensures EntryInv(w', p', p.pending[k], x) {
      assert EntryInv(w, p, p.pending[k], x);
      assert Served(p.pending, p.pending[k].ix);
      ServedSplit(p.hist.log, p.pending, p.pending[k].ix);
    }
    TouchCoverage(c, w, p, i, e, x);
    hide RecordInv, EntryInv, Coverage;
  }

  lemma TouchRecord(c: Config, w: World, p: Phase, i: nat, e: User, j: nat, x: set<nat>)
    requires WalkingInv(c, w, p, x) && i < |w.users| && j < |w.users|
    requires e.id == w.users[i].id && (i !in x ==> InView(c, e, w.checkpoint))
    requires j !in Edited(p, w.users, i, e).hist.late + x
    ensures RecordInv(c, w.(users := w.users[i := e]), Edited(p, w.users, i, e), j)
  {
    assert RecordInv(c, w, p, j);
    ServedSplit(p.hist.log, p.pending, j);
    if j != i { hide Core, Usable, InView, Agrees; }
  }

  lemma TouchCoverage(c: Config, w: World, p: Phase, i: nat, e: User, x: set<nat>)
    requires WalkingInv(c, w, p, x) && i < |w.users| && (i !in x ==> InView(c, e, w.checkpoint))
    requires Matches(w.users[i], p.since) ==> Matches(e, p.since)
    ensures Coverage(c, w.(users := w.users[i := e]), Edited(p, w.users, i, e), x)
  {
    hide EntryInv, Rank, Core, Usable, Grows, AllMatches;
    var users' := w.users[i := e];
    TouchGrows(w, p, i, e);
    forall j | 0 <= j < |w.users| ensures Rank(w.users, p.since, j) <= Rank(users', p.since, j) {
      RankGrows(w.users, users', p.since, j);
    }
    assert i !in p.hist.late + x ==> RecordInv(c, w, p, i);
    ServedSplit(p.hist.log, p.pending, i);
    hide RecordInv;
  }

  lemma ServedSplit(a: seq<Rec>, b: seq<Rec>, i: nat)
    ensures Served(a + b, i) <==> Served(a, i) || Served(b, i)
  {
    if Served(a, i) {
      var k :| 0 <= k < |a| && a[k].ix == i;
      assert (a + b)[k].ix == i;
    }
    if Served(b, i) {
      var k :| 0 <= k < |b| && b[k].ix == i;
      assert (a + b)[|a| + k].ix == i;
    }
  }

  // ---- starting a walk and reading a page ----

  lemma BeginKeeps(c: Config, s: Sys, full: bool, x: set<nat>)
    requires Inv(c, s, x) && s.phase.Idle? && c.pageSize > 0
    ensures Inv(c, NextBegin(c, s, full), x)
  {}

  lemma ReadPageKeeps(c: Config, s: Sys, x: set<nat>)
    requires Inv(c, s, x) && Reading(s.phase) && c.pageSize > 0
    ensures Inv(c, NextReadPage(c, s), x)
  {
    var w, p, p' := s.world, s.phase, NextReadPage(c, s).phase;
    var page := Fetch(w.users, PageIx(w.users, p.since, p.pager.startIndex, c.pageSize));
    hide PageIx, AllMatches, Core, Usable, Rank, DistinctIds;
    forall i | 0 <= i < |w.users| && i !in p.hist.late + x ensures RecordInv(c, w, p', i) {
      assert RecordInv(c, w, p, i);
    }
    forall k | 0 <= k < |page| ensures EntryInv(w, p', page[k], x) {
      if page[k].ix !in p.hist.late + x { assert RecordInv(c, w, p, page[k].ix); }
    }
    ReadPageCovers(c, w, p, p', page, x);
    hide RecordInv, EntryInv, Coverage;
  }

  lemma ReadPageCovers(c: Config, w: World, p: Phase, p': Phase, page: seq<Rec>, x: set<nat>)
    requires WalkingInv(c, w, p, x) && Reading(p) && c.pageSize > 0
    requires page == Fetch(w.users, PageIx(w.users, p.since, p.pager.startIndex, c.pageSize))
    requires p' == if page == [] then p.(done := true)
                   else p.(page := page, pending := page, total := |AllMatches(w.users, p.since)|)
    ensures Coverage(c, w, p', x)
  {
    hide PageIx, AllMatches, RecordInv, EntryInv, Core, Usable, Rank, Served;
    assert p.hist.log + p.pending == p.hist.log;
    assert page == [] ==> p.hist.log + page == p.hist.log;
    forall i | 0 <= i < |w.users| && i !in p.hist.late + x && Matches(p.hist.base[i], p.since)
               && !Served(p.hist.log + page, i)
      ensures |page| == c.pageSize
      ensures p.pager.startIndex - 1 + c.pageSize <= Rank(w.users, p.since, i) < |AllMatches(w.users, p.since)|
    {
      NotServed(c, w, p, page, i, x);
    }
  }

  lemma NotServed(c: Config, w: World, p: Phase, page: seq<Rec>, i: nat, x: set<nat>)
    requires WalkingInv(c, w, p, x) && Reading(p) && c.pageSize > 0 && i < |w.users| && i !in p.hist.late + x
    requires page == Fetch(w.users, PageIx(w.users, p.since, p.pager.startIndex, c.pageSize))
    requires Matches(p.hist.base[i], p.since) && !Served(p.hist.log + page, i)
    ensures |page| == c.pageSize
    ensures p.pager.startIndex - 1 + c.pageSize <= Rank(w.users, p.since, i) < |AllMatches(w.users, p.since)|
  {
    assert RecordInv(c, w, p, i);
    ServedSplit(p.hist.log, page, i);
    assert p.hist.log + p.pending == p.hist.log;
    var ix := PageIx(w.users, p.since, p.pager.startIndex, c.pageSize);
    assert forall k :: 0 <= k < |ix| ==> page[k].ix == ix[k];
    BeyondThePage(w.users, p.since, p.pager.startIndex, c.pageSize, i);
  }

  ghost predicate WalkingInv(c: Config, w: World, p: Phase, x: set<nat>) { p.Walking? && WalkInv(c, w, p, x) }

  // ---- applying a record ----

  lemma BumpedGrows(a: seq<User>, b: seq<User>, id: string, since: int)
    requires Bumped(a, b, id)
    ensures Grows(a, b, since)
  {}

  /** What applying entry `r` leaves of the world and the hold-back. */
  ghost predicate Met(w: World, p: Phase, w': World, t: Tally)
    requires p.Walking? && p.pending != []
  {
    var u := p.pending[0].user;
    && Confined(w, u, w', true)
    && t.earliest == if Usable(u) then p.tally.earliest else HoldBack(p.tally.earliest, u.lastModified)
  }

  lemma ServedLogged(p: Phase, t: Tally, i: nat)
    requires p.Walking? && p.pending != []
    ensures Served(Logged(p, t).hist.log, i) <==> Served(p.hist.log, i) || p.pending[0].ix == i
  {
    ServedSplit(p.hist.log, [p.pending[0]], i);
    assert [p.pending[0]][0] == p.pending[0];
  }

  lemma VisitedRecord(c: Config, w: World, p: Phase, w': World, t: Tally, x: set<nat>)
    requires WalkingInv(c, w, p, x) && p.pending != [] && Met(w, p, w', t)
    requires p.pending[0].ix < |w.users| == |w'.users| && p.pending[0].ix !in p.hist.late + x
    ensures RecordInv(c, w', Logged(p, t), p.pending[0].ix)
  {
    var r := p.pending[0];
    assert RecordInv(c, w, p, r.ix) && EntryInv(w, p, r, x);
    ServedLogged(p, t, r.ix);
    SameCore(r.user, p.hist.base[r.ix], w'.helpers);
    hide Agrees, PrimaryEmail, InView, Validate, Get;
  }

  lemma OtherRecord(c: Config, w: World, p: Phase, w': World, t: Tally, i: nat, x: set<nat>)
    requires WalkingInv(c, w, p, x) && p.pending != [] && Met(w, p, w', t) && DistinctIds(w.users)
    requires i < |w.users| == |w'.users| && i !in p.hist.late + x && i != p.pending[0].ix
    ensures RecordInv(c, w', Logged(p, t), i)
  {
    var r, b := p.pending[0], p.hist.base[i];
    assert RecordInv(c, w, p, i) && EntryInv(w, p, r, x);
    ServedLogged(p, t, i);
    assert w'.users[i] == w.users[i];
    assert b.id != "" ==> r.user.id != b.id;
    assert Usable(b) ==> b.id != "";
    assert b.id != "" ==> Get(w'.helpers, b.id) == Get(w.helpers, b.id);
    hide PrimaryEmail, InView, Validate, InState, Core;
  }

  lemma LoggedServes(p: Phase, t: Tally)
    requires p.Walking? && p.pending != []
    ensures Logged(p, t).hist.log + Logged(p, t).pending == p.hist.log + p.pending
  {}

  /** Everything of the walk's invariant but the coverage. */
  lemma LoggedKeeps(c: Config, w: World, p: Phase, w': World, t: Tally, x: set<nat>)
    requires WalkingInv(c, w, p, x) && p.pending != [] && Met(w, p, w', t) && DistinctIds(w.users)
    ensures
      var p' := Logged(p, t);
      && Shape(c, w', p')
      && (forall i :: 0 <= i < |w'.users| && i !in p.hist.late + x ==> RecordInv(c, w', p', i))
      && (forall i :: 0 <= i < |w'.users| && i in p.hist.late - x ==> InView(c, w'.users[i], p.current))
      && (forall k :: 0 <= k < |p'.pending| ==> EntryInv(w', p', p'.pending[k], x))
  {
    var p' := Logged(p, t);
    assert EntryInv(w, p, p.pending[0], x);
    forall i | 0 <= i < |w'.users| && i !in p.hist.late + x ensures RecordInv(c, w', p', i) {
      if i == p.pending[0].ix { VisitedRecord(c, w, p, w', t, x); } else { OtherRecord(c, w, p, w', t, i, x); }
    }
    forall k | 0 <= k < |p'.pending| ensures EntryInv(w', p', p'.pending[k], x) {
      assert EntryInv(w, p, p.pending[k + 1], x);
    }
    hide RecordInv, EntryInv, Coverage, Agrees;
  }

  lemma LoggedCoverage(c: Config, w: World, p: Phase, w': World, t: Tally, x: set<nat>)
    requires WalkingInv(c, w, p, x) && Visiting(p) && Met(w, p, w', t)
    ensures
      var p' := Logged(p, t);
      if LastPage(c, p) then AllServed(w', p', x) else Ahead(w', p', p.pager.startIndex + |p.page|, x)
  {
    LoggedServes(p, t);
    BumpedGrows(w.users, w'.users, p.pending[0].user.id, p.since);
    forall j | 0 <= j < |w.users| ensures Rank(w.users, p.since, j) <= Rank(w'.users, p.since, j) {
      RankGrows(w.users, w'.users, p.since, j);
    }
    hide Rank, RecordInv, EntryInv, Confined, Served;
  }

  lemma VisitOkKeeps(c: Config, s: Sys, f: Fault, x: set<nat>)
    requires Inv(c, s, x) && Visiting(s.phase) && c.pageSize > 0 && !c.dryRun
    requires Visit(c, s.phase.full, s.world, s.phase.tally, s.phase.pending[0].user, f).ok
    ensures Inv(c, NextVisit(c, s, f), x)
  {
    var p, v := s.phase, Visit(c, s.phase.full, s.world, s.phase.tally, s.phase.pending[0].user, f);
    VisitConfined(c, p.full, s.world, p.tally, p.pending[0].user, f);
    LoggedKeeps(c, s.world, p, v.w, v.tally, x);
    LoggedCoverage(c, s.world, p, v.w, v.tally, x);
    EndOfPageKeeps(c, v.w, Logged(p, v.tally), x);
    hide Visit, RecordInv, EntryInv, Ahead, AllServed, Agrees;
  }

  lemma EndOfPageKeeps(c: Config, w: World, p: Phase, x: set<nat>)
    requires p.Walking? && c.pageSize > 0 && p.page != [] && !p.done && Shape(c, w, p)
    requires forall i :: 0 <= i < |w.users| && i !in p.hist.late + x ==> RecordInv(c, w, p, i)
    requires forall i :: 0 <= i < |w.users| && i in p.hist.late - x ==> InView(c, w.users[i], p.current)
    requires forall k :: 0 <= k < |p.pending| ==> EntryInv(w, p, p.pending[k], x)
    requires if LastPage(c, p) then AllServed(w, p, x) else Ahead(w, p, p.pager.startIndex + |p.page|, x)
    ensures p.pending != [] ==> WalkInv(c, w, p, x)
    ensures
      var s' := EndOfPage(c, w, p);
      p.pending == [] ==>
        s'.world == w && if s'.phase.Walking? then WalkInv(c, w, s'.phase, x) else SoundExcept(c, w, x)
  {
    if p.pending == [] {
      var s' := EndOfPage(c, w, p);
      if s'.phase.Walking? {
        forall i | 0 <= i < |w.users| && i !in p.hist.late + x ensures RecordInv(c, w, s'.phase, i) {
          assert RecordInv(c, w, p, i);
        }
        assert Coverage(c, w, s'.phase, x) by { hide Rank, RecordInv, EntryInv, Served; }
      } else if LastPage(c, p) {
        WalkInvIsSound(c, w, p.(done := true), x);
      } else {
        var n := p.pager.startIndex + |p.page|;
        WalkInvIsSound(c, w, p.(pager := p.pager.(startIndex := n)), x);
      }
    }
  }

  /** A failure half-way through a record, or a crash, leaves nothing behind the filter. */
  lemma VisitFailureIsSound(c: Config, w: World, p: Phase, w': World, x: set<nat>)
    requires WalkingInv(c, w, p, x) && p.pending != [] && DistinctIds(w.users)
    requires Confined(w, p.pending[0].user, w', false)
    ensures DistinctIds(w'.users) && SoundExcept(c, w', x)
  {
    var r := p.pending[0];
    WalkInvIsSound(c, w, p, x);
    assert EntryInv(w, p, r, x);
    forall i: nat | i < |w'.users| && i !in x ensures SoundAt(c, w', i) {
      if w' == w { assert SoundAt(c, w, i); } else { FailedRecord(c, w, p, w', i, x); }
    }
    hide RecordInv, EntryInv, Coverage, Reconciled, InView, SameElsewhere, Agrees;
  }

  lemma FailedRecord(c: Config, w: World, p: Phase, w': World, i: nat, x: set<nat>)
    requires WalkingInv(c, w, p, x) && p.pending != [] && DistinctIds(w.users) && SoundExcept(c, w, x)
    requires Confined(w, p.pending[0].user, w', false) && w' != w
    requires i < |w'.users| && i !in x
    ensures SoundAt(c, w', i)
  {
    assert SoundAt(c, w, i);
    var r, u, u' := p.pending[0], w.users[i], w'.users[i];
    assert EntryInv(w, p, r, x);
    SameCore(u, u', w'.helpers);
    if i == r.ix {
      if i !in p.hist.late {
        assert RecordInv(c, w, p, i);
        SameCore(r.user, u', w'.helpers);
      }
    } else {
      assert u.id == r.user.id ==> u.id == "";
      assert u' == u;
      assert Get(w.helpers, u.id) == Get(w'.helpers, u.id);
    }
    hide InState, PrimaryEmail;
  }

  // ---- ending a cycle ----

  /** A walk that has gone through leaves every record it did not pass over sound. */
  lemma FinishedRecord(c: Config, s: Sys, now: int, i: nat, x: set<nat>)
    requires Inv(c, s, x) && s.phase.Walking? && s.phase.done && c.overlap > 0
    requires i < |s.world.users| && i !in x && !PassesOver(c, s, Finish(now, true), i)
    ensures SoundAt(c, s.world.(checkpoint := Target(c, s.phase, now)), i)
  {
    WalkInvIsSound(c, s.world, s.phase, x);
    assert SoundAt(c, s.world, i);
    var w := s.world;
    if i !in s.phase.hist.late && Target(c, s.phase, now) != s.phase.current
       && w.users[i].lastModified != 0 && !InView(c, w.users[i], Target(c, s.phase, now)) {
      FinishedInTime(c, w, s.phase, now, i, x);
    }
  }

  lemma FinishedInTime(c: Config, w: World, p: Phase, now: int, i: nat, x: set<nat>)
    requires WalkingInv(c, w, p, x) && p.done && c.overlap > 0 && i < |w.users| && i !in p.hist.late + x
    requires Target(c, p, now) != p.current
    requires w.users[i].lastModified != 0 && !InView(c, w.users[i], Target(c, p, now))
    ensures Reconciled(w.users[i], w.helpers)
  {}

  lemma FinishKeeps(c: Config, s: Sys, now: int, saved: bool, x: set<nat>)
    requires Inv(c, s, x) && s.phase.Walking? && s.phase.done && c.overlap > 0
    requires Timely(c, s, Finish(now, saved), x)
    ensures Inv(c, NextFinish(c, s, now, saved), x)
  {
    WalkInvIsSound(c, s.world, s.phase, x);
    if saved {
      forall i: nat | i < |s.world.users| && i !in x
        ensures SoundAt(c, s.world.(checkpoint := Target(c, s.phase, now)), i)
      {
        FinishedRecord(c, s, now, i, x);
      }
    }
  }

  // ---- the theorem ----

  lemma NextKeeps(c: Config, s: Sys, e: Event, x: set<nat>)
    requires Inv(c, s, x) && Timely(c, s, e, x) && c.pageSize > 0 && c.overlap > 0 && !c.dryRun
    ensures Inv(c, Next(c, s, e), x)
  {
    var p := s.phase;
    match e
    case Touch(id, at, after) => TouchKeeps(c, s, id, at, after, x);
    case Begin(full) => if p.Idle? { BeginKeeps(c, s, full, x); }
    case ReadPage => if Reading(p) { ReadPageKeeps(c, s, x); }
    case VisitNext(f) =>
      if Visiting(p) {
        var v := Visit(c, p.full, s.world, p.tally, p.pending[0].user, f);
        if v.ok { VisitOkKeeps(c, s, f, x); }
        else {
          VisitConfined(c, p.full, s.world, p.tally, p.pending[0].user, f);
          VisitFailureIsSound(c, s.world, p, v.w, x);
        }
      }
    case Finish(now, saved) => if p.Walking? && p.done { FinishKeeps(c, s, now, saved, x); }
    case Abort => if p.Walking? { WalkInvIsSound(c, s.world, p, x); }
    hide WalkInv, SoundExcept, Visit, NextTouch, NextBegin, NextReadPage, NextFinish, Timely, Confined, DistinctIds;
  }

  /** Over any run of edits, cycles of both kinds, failures and crashes: of the records outside
      `x` the store has lost nothing that fell behind the filter, if that held at the start and
      they were timely; whatever becomes of the records in `x`. */
  lemma {:induction false} NoneElseIsLost(c: Config, s: Sys, es: seq<Event>, x: set<nat>)
    requires c.pageSize > 0 && c.overlap > 0 && !c.dryRun
    requires s.phase.Idle? && DistinctIds(s.world.users) && SoundExcept(c, s.world, x)
    requires TimelyRun(c, s, es, x)
    ensures Inv(c, Run(c, s, es), x) && SoundExcept(c, Run(c, s, es).world, x)
  {
    hide WalkInv, SoundExcept, Next, DistinctIds, Timely;
    if es != [] {
      var n := |es| - 1;
      assert forall k :: 0 <= k < n ==> es[..n][..k] == es[..k];
      NoneElseIsLost(c, s, es[..n], x);
      NextKeeps(c, Run(c, s, es[..n]), es[n], x);
    }
    if Run(c, s, es).phase.Walking? { WalkInvIsSound(c, Run(c, s, es).world, Run(c, s, es).phase, x); }
  }

  /** No update is lost in a run in which every record is timely. */
  lemma NoLostUpdate(c: Config, s: Sys, es: seq<Event>)
    requires c.pageSize > 0 && c.overlap > 0 && !c.dryRun
    requires s.phase.Idle? && DistinctIds(s.world.users) && Sound(c, s.world)
    requires TimelyRun(c, s, es, {})
    ensures Sound(c, Run(c, s, es).world)
  {
    hide Run, TimelyRun, DistinctIds, SoundExcept;
    NoneElseIsLost(c, s, es, {});
  }

  /** A store that has never synchronised starts sound: everything is in view. */
  lemma FreshIsSound(c: Config, w: World)
    requires w.checkpoint == 0
    ensures Sound(c, w)
  {}

  /** So every stamped unusable record outside `x` passes the filter of the incremental cycle
      started next, whenever it became unusable. */
  lemma UnusableIsInView(c: Config, s: Sys, es: seq<Event>, i: nat, x: set<nat>)
    requires c.pageSize > 0 && c.overlap > 0 && !c.dryRun
    requires s.phase.Idle? && DistinctIds(s.world.users) && SoundExcept(c, s.world, x)
    requires TimelyRun(c, s, es, x) && i !in x
    requires
      var r := Run(c, s, es);
      i < |r.world.users| && !Usable(r.world.users[i]) && r.world.users[i].lastModified != 0
    ensures
      var r := Run(c, s, es);
      r.phase.Idle? ==> i in AllMatches(r.world.users, Since(c, r.world.checkpoint, false))
  {
    NoneElseIsLost(c, s, es, x);
    var r := Run(c, s, es);
    assert SoundAt(c, r.world, i);
    if r.phase.Idle? { RankIsPosition(r.world.users, Since(c, r.world.checkpoint, false), i); }
  }

  // ---- ids stay in place ----

  lemma StepKeepsIds(c: Config, s: Sys, e: Event)
    requires c.pageSize > 0 && !c.dryRun && KeepsFilter(s, e)
    ensures |Next(c, s, e).world.users| == |s.world.users|
    ensures forall i :: 0 <= i < |s.world.users| ==> Next(c, s, e).world.users[i].id == s.world.users[i].id
  {
    hide Visit, AfterPage, FinalDrift, Fetch, PageIx, Remember, Matches, After;
    if e.VisitNext? && Visiting(s.phase) {
      VisitConfined(c, s.phase.full, s.world, s.phase.tally, s.phase.pending[0].user, e.fault);
    }
  }

  lemma {:induction false} RunKeepsIds(c: Config, s: Sys, es: seq<Event>)
    requires c.pageSize > 0 && !c.dryRun && KeepsFilterRun(c, s, es)
    ensures |Run(c, s, es).world.users| == |s.world.users|
    ensures forall i :: 0 <= i < |s.world.users| ==> Run(c, s, es).world.users[i].id == s.world.users[i].id
  {
    hide Next, KeepsFilter;
    if es != [] {
      var n := |es| - 1;
      assert forall k :: 0 <= k < n ==> es[..n][..k] == es[..k];
      RunKeepsIds(c, s, es[..n]);
      StepKeepsIds(c, Run(c, s, es[..n]), es[n]);
    }
  }

  /** The positions of the records with these ids. */
  function Named(users: seq<User>, ids: set<string>): set<nat> {
    set i | 0 <= i < |users| && users[i].id in ids
  }
}
