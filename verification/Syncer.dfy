/** The reconciler itself, over a live store and a live directory. */
module Syncer {
  import opened Records
  import opened Protocol
  import opened Pager
  import opened Cycle
  import opened MemoryStore
  import opened FakeDirectory
  import opened Bindings
  import opened Environs
  import opened NoLostUpdate
  import Ordering
  import Decimal

  /** The variables the callback of one walk shares. */
  class Walk {
    var stats: Stats
    var high: int
    var earliest: int
    var seen: set<string>
    var shouldBeDisabled: seq<string>
    var missingExternalID: seq<string>

    constructor ()
      ensures ToTally() == NO_TALLY
    {
      stats, high, earliest, seen, shouldBeDisabled, missingExternalID := NO_STATS, 0, 0, {}, [], [];
    }

    function ToTally(): Tally
      reads this
    {
      Protocol.Tally(stats, high, earliest, seen, Drift([], shouldBeDisabled, missingExternalID))
    }
  }

  /** The alert a write-back raised between two counts. */
  function ConflictAlert(d: string, s: Stats, s': Stats): set<string> {
    if s'.conflicts > s.conflicts then {"conflict:" + d} else {}
  }

  /** The alerts one record raises. */
  function Alerts(u: User, s: Stats, s': Stats): set<string> {
    (if Usable(u) then {} else {"malformed:" + u.id}) + ConflictAlert(u.id, s, s')
  }

  /** A newer watermark too far ahead of the local clock. */
  predicate Implausible(c: Config, now: int, current: int, watermark: int) {
    watermark != 0 && watermark > current && watermark > now + c.futureSkew
  }

  /** An unusable record alerts under its own key, a conflict under the identity's, and nothing else
      does. */
  lemma AlertKeys(u: User, s: Stats, s': Stats)
    ensures !Usable(u) ==> "malformed:" + u.id in Alerts(u, s, s')
    ensures s'.conflicts > s.conflicts ==> "conflict:" + u.id in Alerts(u, s, s')
    ensures Usable(u) && s'.conflicts == s.conflicts ==> Alerts(u, s, s') == {}
    ensures forall k :: k in Alerts(u, s, s') ==> k in {"malformed:" + u.id, "conflict:" + u.id}
  {}

  /** The alert about a watermark is raised exactly when a real run holds the checkpoint back although
      the watermark is newer. */
  lemma ImplausibleIsHeldBack(c: Config, now: int, current: int, watermark: int)
    requires !c.dryRun
    ensures
      Implausible(c, now, current, watermark)
      <==> watermark != 0 && watermark > current && Advanced(c, now, current, watermark) == current
  {}

  lemma SyncKeepsConflicts(dry: bool, w: World, u: User, p: Helpper, f: Fault, s: Stats)
    requires u.active.Some?
    ensures Protocol.SyncState(dry, w, u, p, f, s).stats.conflicts == s.conflicts
  {}

  class Syncer {
    const dir: Directory
    const st: Store
    const config: Config
    var alerted: set<string>

    constructor (dir: Directory, st: Store, options: Config)
      ensures this.dir == dir && this.st == st && config == Normalize(options) && alerted == {}
    {
      this.dir, this.st, config, alerted := dir, st, Normalize(options), {};
    }

    ghost predicate Valid()
      reads this, st
    {
      st.Valid() && config.pageSize > 0
    }

    /** The durable state. */
    ghost function World(): World
      reads dir, st, st.byDirID.Values
    {
      Protocol.World(dir.users, dir.bound, st.Accounts(), st.nextID, st.checkpoint)
    }

    /** Raises an alert the first time its key occurs in this process. */
    method AlertOnce(key: string) returns (raised: bool)
      modifies this`alerted
      ensures raised <==> key !in old(alerted)
      ensures alerted == old(alerted) + {key}
    {
      raised := key !in alerted;
      alerted := alerted + {key};
    }

    method WriteBack(walk: Walk, d: string, helpperId: string, f: Fault) returns (ok: bool)
      requires Valid()
      modifies walk`stats, dir, this`alerted
      ensures Valid()
      ensures
        Step(World(), walk.stats, ok)
        == Protocol.WriteBack(config.dryRun, old(World()), d, helpperId, f, old(walk.stats))
      ensures alerted == old(alerted) + ConflictAlert(d, old(walk.stats), walk.stats)
    {
      hide Values, Store.Valid, PatchedUsers, Rebound;
      if helpperId == "" { return false; }
      if config.dryRun {
        walk.stats := walk.stats.(wroteBack := walk.stats.wroteBack + 1);
        return true;
      }
      if f == PatchFails { return false; }
      var r, forbidden := dir.Patch(PatchOp(d, "externalId", helpperId));
      if f == PatchReplyLost { return false; }
      match r {
        case Accepted =>
          walk.stats := walk.stats.(wroteBack := walk.stats.wroteBack + 1);
          ok := true;
        case Conflict =>
          walk.stats := walk.stats.(conflicts := walk.stats.conflicts + 1);
          var _ := AlertOnce("conflict:" + d);
          ok := true;
        case NotFound => ok := false;
      }
    }

    /** Updates by account id the account just read by directory id. */
    method UpdateAccount(d: string, p: Helpper, enabled: bool, name: string, login: string)
      requires Valid() && Get(st.Accounts(), d) == Some(p)
      modifies st.byDirID.Values
      ensures Valid() && st.Accounts() == old(st.Accounts())[d := Restated(p, enabled, name, login)]
    {
      hide Issued, Restated, ValidHelpers;
      st.AccountsAreValid();
      UpdateIsPointwise(st.Accounts(), st.nextID, d, enabled, name, login);
      var found := st.UpdateHelpper(p.id, enabled, name, login);
    }

    method SyncState(walk: Walk, u: User, p: Helpper, f: Fault) returns (ok: bool)
      requires Valid() && u.active.Some? && Get(World().helpers, u.id) == Some(p)
      modifies walk`stats, st.byDirID.Values
      ensures Valid()
      ensures
        Step(World(), walk.stats, ok)
        == Protocol.SyncState(config.dryRun, old(World()), u, p, f, old(walk.stats))
    {
      hide PrimaryEmail, Values, Store.Valid, Restated, ValidHelpers, BumpState, Store.Accounts;
      var active, login := u.active.value, PrimaryEmail(u);
      if p.enabled == active && p.displayName == u.displayName && p.login == login {
        walk.stats := walk.stats.(unmodified := walk.stats.unmodified + 1);
        return true;
      }
      if !config.dryRun {
        if f == StoreWriteFails { return false; }
        UpdateAccount(u.id, p, active, u.displayName, login);
      }
      CountChange(walk, p, active);
      ok := true;
    }

    /** Counts one state change. */
    method CountChange(walk: Walk, p: Helpper, active: bool)
      modifies walk`stats
      ensures walk.stats == BumpState(p, active, old(walk.stats))
    {
      if p.enabled && !active { walk.stats := walk.stats.(disabled := walk.stats.disabled + 1); }
      else if !p.enabled && active { walk.stats := walk.stats.(enabled := walk.stats.enabled + 1); }
      else { walk.stats := walk.stats.(updated := walk.stats.updated + 1); }
    }

    /** Creates the account, or takes the one another worker created meanwhile; None when the
        store fails. */
    method EnsureHelpper(walk: Walk, u: User, f: Fault) returns (p: Option<Helpper>)
      requires Valid()
      modifies walk`stats, st`byDirID, st`byID, st`nextID
      ensures Valid() && old(st.byDirID.Values) <= st.byDirID.Values
      ensures fresh(st.byDirID.Values - old(st.byDirID.Values))
      ensures config.dryRun ==>
        p == Some(Helpper(DRY_RUN_ID, u.id, "", "", false)) && World() == old(World())
        && walk.stats == old(walk.stats).(created := old(walk.stats).created + 1)
      ensures !config.dryRun && (f == StoreWriteFails || u.id in old(World()).helpers) ==>
        p == (if f == StoreWriteFails then None else Get(old(World()).helpers, u.id))
        && World() == old(World()) && walk.stats == old(walk.stats)
      ensures !config.dryRun && f != StoreWriteFails && u.id !in old(World()).helpers ==>
        World() == WithAccount(old(World()), u.id, PrimaryEmail(u), u.displayName)
        && p == Get(World().helpers, u.id)
        && walk.stats == old(walk.stats).(created := old(walk.stats).created + 1)
    {
      hide PrimaryEmail, Values, Store.Valid, Decimal.Render;
      if config.dryRun {
        walk.stats := walk.stats.(created := walk.stats.created + 1);
        return Some(Helpper(DRY_RUN_ID, u.id, "", "", false));
      }
      if f == StoreWriteFails { return None; }
      var made := st.CreateHelpper(u.id, PrimaryEmail(u), u.displayName);
      match made {
        case AlreadyExists =>
          p := st.HelpperByDirectoryID(u.id);
        case Made(account) =>
          walk.stats := walk.stats.(created := walk.stats.created + 1);
          p := Some(account);
      }
    }

    method ApplyNew(walk: Walk, u: User, f: Fault) returns (before: Before, ok: bool)
      requires Valid() && u.active.Some? && u.id !in World().helpers
      modifies walk`stats, dir, st`byDirID, st`byID, st`nextID, this`alerted
      ensures Valid() && old(st.byDirID.Values) <= st.byDirID.Values
      ensures fresh(st.byDirID.Values - old(st.byDirID.Values))
      ensures
        Applied(World(), walk.stats, before, ok)
        == Protocol.ApplyNew(config.dryRun, old(World()), u, f, old(walk.stats))
      ensures alerted == old(alerted) + ConflictAlert(u.id, old(walk.stats), walk.stats)
    {
      hide PrimaryEmail, Values, Store.Valid, Decimal.Render, Protocol.WriteBack;
      before := Before(false, false, u.active.value, "", false);
      if !before.activeNow {
        walk.stats := walk.stats.(skipped := walk.stats.skipped + 1);
        return before, true;
      }
      var made := EnsureHelpper(walk, u, f);
      if made == None { return before, false; }
      ok := WriteBack(walk, u.id, made.value.id, f);
    }

    method ApplyKnown(walk: Walk, u: User, p: Helpper, f: Fault) returns (before: Before, ok: bool)
      requires Valid() && u.active.Some? && Get(World().helpers, u.id) == Some(p)
      modifies walk`stats, dir, st.byDirID.Values, this`alerted
      ensures Valid()
      ensures
        Applied(World(), walk.stats, before, ok)
        == Protocol.ApplyKnown(config.dryRun, old(World()), u, p, f, old(walk.stats))
      ensures alerted == old(alerted) + ConflictAlert(u.id, old(walk.stats), walk.stats)
    {
      hide PrimaryEmail, Values, Store.Valid, Protocol.WriteBack, Protocol.SyncState, Get;
      before := Before(true, p.enabled, u.active.value, u.externalId, false);
      ok := SyncState(walk, u, p, f);
      SyncKeepsConflicts(config.dryRun, old(World()), u, p, f, old(walk.stats));
      if ok && u.externalId != p.id { ok := WriteBack(walk, u.id, p.id, f); }
    }

    /** Counts an unusable record, and alerts once for its id. */
    method CountMalformed(walk: Walk, id: string)
      modifies walk`stats, this`alerted
      ensures walk.stats == old(walk.stats).(malformed := old(walk.stats).malformed + 1)
      ensures alerted == old(alerted) + {"malformed:" + id}
    {
      walk.stats := walk.stats.(malformed := walk.stats.malformed + 1);
      var _ := AlertOnce("malformed:" + id);
    }

    /** The upsert of one record. */
    method Apply(walk: Walk, u: User, f: Fault) returns (before: Before, ok: bool)
      requires Valid()
      modifies walk`stats, dir, st`byDirID, st`byID, st`nextID, st.byDirID.Values, this`alerted
      ensures Valid() && fresh(st.byDirID.Values - old(st.byDirID.Values))
      ensures
        Applied(World(), walk.stats, before, ok)
        == Protocol.Apply(config.dryRun, old(World()), u, f, old(walk.stats))
      ensures alerted == old(alerted) + Alerts(u, old(walk.stats), walk.stats)
    {
      hide PrimaryEmail, Values, Store.Valid, Validate, Store.Accounts, Protocol.ApplyUsable;
      walk.stats := walk.stats.(scanned := walk.stats.scanned + 1);
      var reason := Validate(u);
      if reason != None {
        CountMalformed(walk, u.id);
        return Before(false, false, false, "", true), true;
      }
      UsableHasFlag(u);
      before, ok := ApplyUsable(walk, u, f);
    }

    /** The upsert of a usable record. */
    method ApplyUsable(walk: Walk, u: User, f: Fault) returns (before: Before, ok: bool)
      requires Valid() && u.active.Some?
      modifies walk`stats, dir, st`byDirID, st`byID, st`nextID, st.byDirID.Values, this`alerted
      ensures Valid() && fresh(st.byDirID.Values - old(st.byDirID.Values))
      ensures
        Applied(World(), walk.stats, before, ok)
        == Protocol.ApplyUsable(config.dryRun, old(World()), u, f, old(walk.stats))
      ensures alerted == old(alerted) + ConflictAlert(u.id, old(walk.stats), walk.stats)
    {
      hide PrimaryEmail, Values, Store.Valid, Protocol.ApplyNew, Protocol.ApplyKnown, Store.Accounts;
      if f == LookupFails { return Before(false, false, u.active.value, "", false), false; }
      var found := st.HelpperByDirectoryID(u.id);
      match found {
        case None => before, ok := ApplyNew(walk, u, f);
        case Some(p) => before, ok := ApplyKnown(walk, u, p, f);
      }
    }

    /** A full walk's observations of one record. */
    method Observe(walk: Walk, u: User, before: Before)
      modifies walk`seen, walk`shouldBeDisabled, walk`missingExternalID
      ensures walk.ToTally() == Protocol.Observe(old(walk.ToTally()), u, before)
    {
      walk.seen := walk.seen + {u.id};
      if !before.existed { return; }
      if before.enabledBefore && !before.activeNow { walk.shouldBeDisabled := walk.shouldBeDisabled + [u.id]; }
      if before.externalIDBefore == "" { walk.missingExternalID := walk.missingExternalID + [u.id]; }
    }

    /** Holds the watermark at or before an unusable record. */
    method HoldBackAt(walk: Walk, lastModified: int)
      modifies walk`earliest
      ensures walk.earliest == HoldBack(old(walk.earliest), lastModified)
    {
      if walk.earliest == 0 || lastModified < walk.earliest {
        if lastModified != 0 { walk.earliest := lastModified; }
      }
    }

    /** The callback of a walk: applies the record, observes drift in a full walk, and keeps
        the watermark and the hold-back. */
    method OnRecord(walk: Walk, full: bool, u: User, f: Fault) returns (ok: bool)
      requires Valid()
      modifies walk, dir, st`byDirID, st`byID, st`nextID, st.byDirID.Values, this`alerted
      ensures Valid() && fresh(st.byDirID.Values - old(st.byDirID.Values))
      ensures Visited(World(), walk.ToTally(), ok) == Visit(config, full, old(World()), old(walk.ToTally()), u, f)
      ensures alerted == old(alerted) + Alerts(u, old(walk.stats), walk.stats)
    {
      hide Protocol.Apply, Values, Store.Valid, Protocol.Observe, Store.Accounts, Alerts;
      var before, applied := Apply(walk, u, f);
      if !applied { return false; }
      if full { Observe(walk, u, before); }
      if before.malformed {
        HoldBackAt(walk, u.lastModified);
        return !(config.maxMalformed >= 0 && walk.stats.malformed > config.maxMalformed);
      }
      if u.lastModified > walk.high { walk.high := u.lastModified; }
      ok := true;
    }

    // ---- the walk ----

    /** One edit by somebody else; an edit of an unknown record does nothing. */
    method OthersEdit(env: Env, moment: nat, k: nat, ghost full: bool, ghost s0: Sys)
      returns (ghost s: Sys, ghost trace: seq<Event>)
      requires Valid() && s0.world == World() && k < |env.edits(moment)|
      modifies dir`users
      ensures Valid() && s == Run(config, s0, trace) && s.world == World() && SameButHistory(s0.phase, s.phase)
      ensures Within(env, full, trace)
    {
      hide Next, Values, Store.Valid, Allowed;
      var e := env.edits(moment)[k];
      ghost var before, x := dir.users, IndexOf(dir.users, e.id);
      dir.Touch(e.id, e.at, e.mutate);
      s, trace := s0, [];
      if x < |before| {
        ghost var touch := Touch(e.id, e.at, e.mutate(before[x]));
        EditAllowed(env, full, moment, k, before[x]);
        RunOne(config, s0, [], touch);
        TouchKeepsPhase(config, s0, touch);
        s, trace := Next(config, s0, touch), [] + [touch];
      }
    }

    /** What others do to the directory meanwhile. */
    method Environment(env: Env, moment: nat, ghost full: bool, ghost s0: Sys)
      returns (ghost s: Sys, ghost trace: seq<Event>)
      requires Valid() && s0.world == World()
      modifies dir`users
      ensures Valid() && s == Run(config, s0, trace) && s.world == World() && SameButHistory(s0.phase, s.phase)
      ensures Within(env, full, trace)
    {
      hide Next, Values, Store.Valid, Allowed;
      s, trace := s0, [];
      var i := 0;
      while i < |env.edits(moment)|
        invariant 0 <= i <= |env.edits(moment)| && Valid() && s.world == World()
        invariant s == Run(config, s0, trace) && SameButHistory(s0.phase, s.phase) && Within(env, full, trace)
      {
        ghost var t, more := OthersEdit(env, moment, i, full, s);
        RunAppend(config, s0, trace, more);
        s, trace := t, trace + more;
        i := i + 1;
      }
    }

    /** Hands one record to the callback, after whatever others do first. `q` is the machine's
        phase just after it, before the client's decision when it ends its page. */
    method HandRecord(walk: Walk, full: bool, u: User, env: Env, moment: nat, ghost s0: Sys)
      returns (ok: bool, ghost s: Sys, ghost q: Phase, ghost trace: seq<Event>)
      requires Valid() && s0.world == World() && Visiting(s0.phase) && s0.phase.full == full
      requires s0.phase.pending[0].user == u && s0.phase.tally == walk.ToTally()
      modifies walk, dir, st`byDirID, st`byID, st`nextID, st.byDirID.Values, this`alerted
      ensures Valid() && fresh(st.byDirID.Values - old(st.byDirID.Values))
      ensures s == Run(config, s0, trace) && Within(env, full, trace) && s.world == World()
      ensures !ok ==> s.phase == Broken(walk.ToTally())
      ensures ok ==>
        && SamePage(s0.phase, q) && q.pending == s0.phase.pending[1..] && q.tally == walk.ToTally()
        && s == if q.pending == [] then EndOfPage(config, World(), q) else Sys(World(), q)
    {
      hide Next, Values, Store.Valid, EndOfPage, Visit, Served, Allowed, Broken;
      ghost var t, touches := Environment(env, moment, full, s0);
      ghost var e := VisitNext(env.fault(moment));
      VisitStep(config, t, env.fault(moment));
      FaultAllowed(env, full, moment);
      ok := OnRecord(walk, full, u, env.fault(moment));
      RunOne(config, s0, touches, e);
      s, trace := Next(config, t, e), touches + [e];
      q := Logged(t.phase, walk.ToTally());
    }

    /** Hands one page to the callback. The machine is left where its last record leaves it:
        `q` is its phase just before the client's end-of-page decision. */
    method HandPage(walk: Walk, full: bool, page: seq<User>, env: Env, moment: nat, ghost s0: Sys)
      returns (ok: bool, later: nat, ghost s: Sys, ghost q: Phase, ghost trace: seq<Event>)
      requires Valid() && page != [] && AtPage(s0.phase, full, page) && s0.world == World()
      requires s0.phase.tally == walk.ToTally()
      modifies walk, dir, st`byDirID, st`byID, st`nextID, st.byDirID.Values, this`alerted
      ensures Valid() && fresh(st.byDirID.Values - old(st.byDirID.Values))
      ensures s == Run(config, s0, trace) && Within(env, full, trace) && s.world == World()
      ensures !ok ==> s.phase == Broken(walk.ToTally())
      ensures ok ==>
        && SamePage(s0.phase, q) && q.pending == [] && q.tally == walk.ToTally()
        && s == EndOfPage(config, World(), q)
    {
      hide Next, Values, Store.Valid, EndOfPage, Allowed, Broken;
      ok, later, s, q, trace := true, moment, s0, s0.phase, [];
      var k := 0;
      while k < |page|
        invariant 0 <= k <= |page| && Valid() && s.world == World()
        invariant fresh(st.byDirID.Values - old(st.byDirID.Values))
        invariant s == Run(config, s0, trace) && Within(env, full, trace)
        invariant SamePage(s0.phase, q) && q.tally == walk.ToTally() && q.pending == s0.phase.pending[k..]
        invariant if k < |page| then s.phase == q else s == EndOfPage(config, World(), q)
      {
        assert q.pending[0].user == page[k];
        ghost var t, p, more;
        ok, t, p, more := HandRecord(walk, full, page[k], env, later, s);
        RunAppend(config, s0, trace, more);
        s, q, trace, later := t, p, trace + more, later + 1;
        if !ok { return; }
        k := k + 1;
      }
    }

    /** Reads one page, unless it cannot be read. */
    method ReadPage(full: bool, since: int, env: Env, startIndex: int, moment: nat, ghost s0: Sys)
      returns (page: Option<seq<User>>, total: nat, ghost s: Sys, ghost trace: seq<Event>)
      requires Valid() && s0.world == World() && Reading(s0.phase)
      requires s0.phase.full == full && s0.phase.since == since && s0.phase.pager.startIndex == startIndex
      modifies dir`users
      ensures Valid() && s == Run(config, s0, trace) && Within(env, full, trace) && s.world == World()
      ensures
        match page
        case None => s.phase == Broken(s0.phase.tally)
        case Some(us) => if us == [] then Drained(s0.phase, s.phase) else PageRead(s0.phase, full, us, total, s.phase)
    {
      hide Next, Values, Store.Valid, Fetch, PageIx, AllMatches, Allowed, Broken;
      ghost var t, touches := Environment(env, moment, full, s0);
      RunOne(config, s0, touches, Abort);
      RunOne(config, s0, touches, Event.ReadPage);
      StepsAllowed(env, full, moment);
      if env.pageFails(moment) {
        AbortStep(config, t);
        return None, 0, Next(config, t, Abort), touches + [Abort];
      }
      var us, n, ix := dir.List(since, startIndex, config.pageSize);
      ReadStep(config, t, us, ix);
      return Some(us), n, Next(config, t, Event.ReadPage), touches + [Event.ReadPage];
    }

    /** Reads one page and hands it over. */
    method OnePage(walk: Walk, full: bool, since: int, env: Env, p: Pager, moment: nat, ghost s0: Sys)
      returns (turn: Turn, later: nat, ghost s: Sys, ghost trace: seq<Event>)
      requires Valid() && s0.world == World() && Terminating(p)
      requires BetweenPages(s0.phase, full, since, p, walk.ToTally())
      modifies walk, dir, st`byDirID, st`byID, st`nextID, st.byDirID.Values, this`alerted
      ensures Valid() && fresh(st.byDirID.Values - old(st.byDirID.Values))
      ensures s == Run(config, s0, trace) && Within(env, full, trace) && s.world == World()
      ensures
        match turn
        case GaveUp => s.phase == Broken(walk.ToTally())
        case Reached(next) =>
          BetweenPages(s.phase, full, since, next, walk.ToTally()) && s.phase.current == s0.phase.current
          && Terminating(next) && next.pages == p.pages + 1 && (p.pages > 0 ==> next.maxPages == p.maxPages)
        case Ended => Over(s.phase, full, s0.phase.current) && s.phase.tally == walk.ToTally()
    {
      hide Next, Values, Store.Valid, PageIx, AllMatches, EndOfPage, AfterPage, Allowed, Broken;
      turn, later := GaveUp, moment;
      var page, total;
      page, total, s, trace := ReadPage(full, since, env, p.startIndex, moment, s0);
      if page == None { return; }
      if page.value == [] { turn := Ended; return; }
      ghost var read, soFar := s, trace;
      var handed, at, u, q, more := HandPage(walk, full, page.value, env, moment + 1, read);
      RunAppend(config, s0, soFar, more);
      s, trace, later := u, soFar + more, at;
      if !handed { return; }
      PageTurn(config, World(), q, p, total, page.value[0].id, |page.value|);
      match AfterPage(p, config.pageSize, total, page.value[0].id, |page.value|) {
        case Complete => turn := Ended;
        case More(next) => turn := Reached(next);
        case SamePageTwice =>
        case TooManyPages =>
      }
    }

    /** Walks every page of the records after `since`. */
    method WalkWith(full: bool, since: int, env: Env, ghost s0: Sys)
      returns (walk: Walk, ok: bool, ghost s: Sys, ghost trace: seq<Event>)
      requires Valid() && s0.world == World() && s0.phase.Idle? && since == Since(config, st.checkpoint, full)
      modifies dir, st`byDirID, st`byID, st`nextID, st.byDirID.Values, this`alerted
      ensures fresh(walk) && Valid() && fresh(st.byDirID.Values - old(st.byDirID.Values))
      ensures s == Run(config, NextBegin(config, s0, full), trace) && Within(env, full, trace) && s.world == World()
      ensures !ok ==> s.phase == Broken(walk.ToTally())
      ensures ok ==> Over(s.phase, full, s0.world.checkpoint) && s.phase.tally == walk.ToTally()
    {
      hide Next, Values, Store.Valid, Allowed, Broken;
      walk := new Walk();
      s, trace, ok := NextBegin(config, s0, full), [], false;
      var p, moment := START, 0;
      while true
        invariant Valid() && s.world == World() && fresh(walk) && fresh(st.byDirID.Values - old(st.byDirID.Values))
        invariant s == Run(config, NextBegin(config, s0, full), trace) && Within(env, full, trace)
        invariant BetweenPages(s.phase, full, since, p, walk.ToTally()) && s.phase.current == s0.world.checkpoint
        invariant Terminating(p)
        decreases if p.pages == 0 then 1 else 0, p.maxPages - p.pages
      {
        var turn, later, t, more := OnePage(walk, full, since, env, p, moment, s);
        RunAppend(config, NextBegin(config, s0, full), trace, more);
        s, trace, moment := t, trace + more, later;
        match turn {
          case GaveUp => return;
          case Ended =>
            ghost var u, last := Environment(env, moment, full, s);
            RunAppend(config, NextBegin(config, s0, full), trace, last);
            s, trace, ok := u, trace + last, true;
            return;
          case Reached(next) => p := next;
        }
      }
    }

    /** Moves the checkpoint, unless the watermark is not newer, lies implausibly far in the
        future, the run is dry, or the store refuses it. */
    method Advance(now: int, current: int, watermark: int, saved: bool) returns (at: int, ok: bool)
      requires Valid()
      modifies st`checkpoint, this`alerted
      ensures Valid()
      ensures
        var target := Advanced(config, now, current, watermark);
        && ok == (saved || target == current) && at == (if ok then target else current)
        && st.checkpoint == if saved && target != current then target else old(st.checkpoint)
      ensures
        alerted == old(alerted) + if Implausible(config, now, current, watermark) then {"future-watermark"} else {}
    {
      if watermark == 0 || watermark <= current { return current, true; }
      if watermark > now + config.futureSkew {
        var _ := AlertOnce("future-watermark");
        return current, true;
      }
      if config.dryRun { return current, true; }
      if !saved { return current, false; }
      st.SetCheckpoint(watermark);
      return watermark, true;
    }

    /** One incremental cycle: what changed since the checkpoint, applied; the checkpoint
        moves only when all of it was. The trace is the run of the machine it performs. */
    method Incremental(env: Env, now: int, saved: bool)
      returns (stats: Stats, at: int, ok: bool, ghost trace: seq<Event>)
      requires Valid()
      modifies dir, st, st.byDirID.Values, this`alerted
      ensures Valid() && OneCycle(env, false, now, saved, trace)
      ensures
        forall ids: set<string> :: Tended(config, old(World()), env, false, World(), ids)
          ==> SoundExcept(config, World(), Named(old(World()).users, ids))
      ensures
        var r := Run(config, Sys(old(World()), Idle(NO_REPORT)), trace);
        r.world == World() && r.phase.Idle?
        && r.phase.last.ok == ok && r.phase.last.stats == stats && r.phase.last.checkpoint == at
    {
      hide Next, Values, Store.Valid, OneCycle, Within, Run, Tended, SoundExcept;
      var cp := st.Checkpoint();
      ghost var s0 := Sys(World(), Idle(NO_REPORT));
      var walk, walked, s, more := WalkWith(false, if cp == 0 then 0 else Cutoff(cp, config.overlap), env, s0);
      CycleBegins(config, s0, false, more);
      TraceIsOneCycle(env, false, now, saved, more);
      trace := [Begin(false)] + more;
      stats, at, ok := walk.stats, 0, false;
      if walked {
        at, ok := Advance(now, cp, Watermark(walk.ToTally()), saved);
        CycleEnds(config, s0, trace, now, saved);
        trace := trace + [Finish(now, saved)];
      }
      CycleKeepsSound(config, s0, env, false, now, saved, trace);
    }

    /** One full cycle: every record applied, the drift against the accounts reported; nobody
        is disabled for being absent. */
    method Full(env: Env, now: int, saved: bool)
      returns (stats: Stats, drift: Drift, at: int, ok: bool, alarmed: bool, ghost trace: seq<Event>)
      requires Valid()
      modifies dir, st, st.byDirID.Values, this`alerted
      ensures Valid() && OneCycle(env, true, now, saved, trace)
      ensures
        forall ids: set<string> :: Tended(config, old(World()), env, true, World(), ids)
          ==> SoundExcept(config, World(), Named(old(World()).users, ids))
      ensures
        var r := Run(config, Sys(old(World()), Idle(NO_REPORT)), trace);
        r.world == World() && r.phase == Idle(Report(ok, stats, drift, at))
      ensures alarmed <==> trace[|trace| - 1] == Finish(now, saved) && drift != Drift([], [], [])
    {
      hide Next, Values, Store.Valid, Absent, OneCycle, Within, Run, Tended, SoundExcept;
      var cp := st.Checkpoint();
      ghost var s0 := Sys(World(), Idle(NO_REPORT));
      var walk, walked, s, more := WalkWith(true, 0, env, s0);
      CycleBegins(config, s0, true, more);
      TraceIsOneCycle(env, true, now, saved, more);
      trace := [Begin(true)] + more;
      stats, drift, at, ok, alarmed := walk.stats, walk.ToTally().drift, 0, false, false;
      if walked && env.listFails {
        AbortStep(config, s);
        RunOne(config, s0, trace, Abort);
        trace := trace + [Abort];
      } else if walked {
        var absent := AbsentAccounts(walk);
        drift := drift.(absent := absent);
        alarmed := drift != Drift([], [], []);
        at, ok := Advance(now, cp, Watermark(walk.ToTally()), saved);
        CycleEnds(config, s0, trace, now, saved);
        trace := trace + [Finish(now, saved)];
      }
      CycleKeepsSound(config, s0, env, true, now, saved, trace);
    }

    /** The enabled accounts the walk did not meet, in order. */
    method AbsentAccounts(walk: Walk) returns (absent: seq<string>)
      requires Valid()
      ensures absent == Absent(st.Accounts(), walk.seen)
    {
      hide Values, Store.Valid, Ordering.Less;
      var local := st.EnabledHelppers();
      ghost var ids := DirectoryIds(local);
      absent := [];
      var i := 0;
      while i < |local|
        invariant 0 <= i <= |local| && absent == Unseen(ids[..i], walk.seen)
      {
        UnseenStep(ids, walk.seen, i);
        if local[i].directoryId !in walk.seen { absent := absent + [local[i].directoryId]; }
        i := i + 1;
      }
      assert ids[..i] == ids;
      UnseenIsAbsent(st.Accounts(), walk.seen, ids);
    }
  }

  /** The ids of a list outside a set, in order. */
  ghost function Unseen(ids: seq<string>, seen: set<string>): seq<string> {
    if ids == [] then []
    else Unseen(ids[..|ids| - 1], seen) + (if ids[|ids| - 1] in seen then [] else [ids[|ids| - 1]])
  }

  lemma UnseenStep(ids: seq<string>, seen: set<string>, i: nat)
    requires i < |ids|
    ensures Unseen(ids[..i + 1], seen) == Unseen(ids[..i], seen) + (if ids[i] in seen then [] else [ids[i]])
  {
    assert ids[..i + 1][..i] == ids[..i];
  }

  lemma {:induction false} UnseenSorted(ids: seq<string>, seen: set<string>)
    requires Ordering.StrictlySorted(ids)
    ensures Ordering.StrictlySorted(Unseen(ids, seen))
    ensures forall d :: d in Unseen(ids, seen) <==> d in ids && d !in seen
  {
    hide Ordering.Less;
    if ids != [] {
      var n := |ids| - 1;
      UnseenSorted(ids[..n], seen);
      assert ids == ids[..n] + [ids[n]];
      var before := Unseen(ids[..n], seen);
      forall k | 0 <= k < |before| ensures Ordering.Less(before[k], ids[n]) {
        assert before[k] in ids[..n];
        var j :| 0 <= j < n && ids[..n][j] == before[k];
        assert ids[j] == before[k];
      }
    }
  }

  lemma UnseenIsAbsent(h: Helppers, seen: set<string>, ids: seq<string>)
    requires ids == Ordering.Enumerate(EnabledIds(h))
    ensures Unseen(ids, seen) == Absent(h, seen)
  {
    UnseenSorted(ids, seen);
    Ordering.SortedUnique(Unseen(ids, seen), Absent(h, seen));
  }

  lemma CycleBegins(c: Config, s: Sys, full: bool, more: seq<Event>)
    requires c.pageSize > 0 && s.phase.Idle?
    ensures Run(c, s, [Begin(full)] + more) == Run(c, NextBegin(c, s, full), more)
  {
    RunAppend(c, s, [Begin(full)], more);
    RunOne(c, s, [], Begin(full));
    assert [] + [Begin(full)] == [Begin(full)];
    assert Run(c, s, []) == s;
  }

  lemma CycleEnds(c: Config, s0: Sys, trace: seq<Event>, now: int, saved: bool)
    requires c.pageSize > 0
    requires var s := Run(c, s0, trace); s.phase.Walking? && s.phase.done && s.phase.current == s.world.checkpoint
    ensures
      var s, r := Run(c, s0, trace), Run(c, s0, trace + [Finish(now, saved)]);
      var target := Advanced(c, now, s.phase.current, Watermark(s.phase.tally));
      var ok := saved || target == s.phase.current;
      && r.world == s.world.(checkpoint := if saved && target != s.phase.current then target else s.phase.current)
      && r.phase == Idle(Report(ok, s.phase.tally.stats, FinalDrift(s), if ok then target else s.phase.current))
  {}

  /** The machine after a failed walk. */
  ghost function Broken(t: Tally): Phase { Idle(Report(false, t.stats, t.drift, 0)) }

  datatype Turn = GaveUp | Ended | Reached(next: Pager)

  /** The machine is about to read the page the pager asks for. */
  ghost predicate BetweenPages(p: Phase, full: bool, since: int, pager: Pager, t: Tally) {
    p.Walking? && p.full == full && p.since == since && p.pager == pager && !p.done && p.pending == [] && p.tally == t
  }

  ghost predicate Over(p: Phase, full: bool, checkpoint: int) {
    p.Walking? && p.done && p.full == full && p.current == checkpoint
  }

  /** The client's guards keep the walk finite. */
  predicate Terminating(p: Pager) {
    p.startIndex >= 1 && if p.pages == 0 then p.maxPages == 0 else p.pages < p.maxPages
  }

  /** The machine's end of a page, next to the client's decision. */
  lemma PageTurn(c: Config, w: World, q: Phase, p: Pager, total: nat, firstID: string, n: nat)
    requires c.pageSize > 0 && q.Walking? && !q.done && q.pending == [] && q.page != [] && Terminating(p)
    requires q.pager == p && q.total == total && q.page[0].user.id == firstID && |q.page| == n
    ensures
      var s := EndOfPage(c, w, q);
      && s.world == w
      && match AfterPage(p, c.pageSize, total, firstID, n)
         case Complete => s.phase == q.(done := true)
         case More(next) =>
           s.phase == q.(pager := next)
           && Terminating(next) && next.pages == p.pages + 1 && (p.pages > 0 ==> next.maxPages == p.maxPages)
         case _ => s.phase == Broken(q.tally)
  {}

  lemma AbortStep(c: Config, s: Sys)
    requires c.pageSize > 0 && s.phase.Walking?
    ensures var s' := Next(c, s, Abort); s'.world == s.world && s'.phase == Broken(s.phase.tally)
  {}

  lemma ReadStep(c: Config, s: Sys, page: seq<User>, ix: seq<nat>)
    requires c.pageSize > 0 && Reading(s.phase)
    requires ix == PageIx(s.world.users, s.phase.since, s.phase.pager.startIndex, c.pageSize) && |page| == |ix|
    requires forall k :: 0 <= k < |page| ==> page[k] == s.world.users[ix[k]]
    ensures
      var s' := Next(c, s, ReadPage);
      && s'.world == s.world
      && if page == [] then s'.phase == s.phase.(done := true)
         else
           AtPage(s'.phase, s.phase.full, page)
           && s'.phase == s.phase.(page := s'.phase.page, pending := s'.phase.page,
                                   total := |AllMatches(s.world.users, s.phase.since)|)
  {}

  ghost predicate SameButHistory(p: Phase, q: Phase) {
    if p.Walking? then q.Walking? && q == p.(hist := q.hist) else q == p
  }

  lemma TouchKeepsPhase(c: Config, s: Sys, e: Event)
    requires c.pageSize > 0 && e.Touch?
    ensures
      var s' := Next(c, s, e);
      s'.world == s.world.(users := Touched(s.world.users, e.id, e.at, e.after)) && SameButHistory(s.phase, s'.phase)
  {}

  /** The machine has just read this page. */
  ghost predicate AtPage(p: Phase, full: bool, page: seq<User>) {
    && p.Walking? && !p.done && p.full == full && p.page == p.pending && |p.page| == |page|
    && forall k :: 0 <= k < |page| ==> p.page[k].user == page[k]
  }

  /** From `p`, edits aside, the machine has read a page of `total` matching records. */
  ghost predicate PageRead(p: Phase, full: bool, page: seq<User>, total: nat, q: Phase)
    requires p.Walking?
  {
    AtPage(q, full, page) && q == p.(page := q.page, pending := q.page, total := total, hist := q.hist)
  }

  /** From `p`, edits aside, the machine has found no further page. */
  ghost predicate Drained(p: Phase, q: Phase)
    requires p.Walking?
  {
    q.Walking? && q == p.(done := true, hist := q.hist)
  }

  ghost predicate SamePage(p: Phase, q: Phase)
    requires p.Walking?
  {
    && q.Walking? && q.done == p.done && q.full == p.full && q.current == p.current && q.since == p.since
    && q.pager == p.pager && q.page == p.page && q.total == p.total
  }

  lemma VisitStep(c: Config, s: Sys, f: Fault)
    requires c.pageSize > 0 && Visiting(s.phase)
    ensures
      var v, s' := Visit(c, s.phase.full, s.world, s.phase.tally, s.phase.pending[0].user, f), Next(c, s, VisitNext(f));
      var q := Logged(s.phase, v.tally);
      s'.world == v.w &&
      if !v.ok then s'.phase == Broken(v.tally)
      else if |s.phase.pending| == 1 then s' == EndOfPage(c, v.w, q)
      else s' == Sys(v.w, q)
  {}
}
