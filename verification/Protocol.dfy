/** What one reconciliation step does, as functions on the durable state: the
    directory's records and binding table, the local accounts, the checkpoint. */
module Protocol {
  import opened Records
  import Decimal
  import Pager

  datatype Helpper = Helpper(
    id: string, directoryId: string, login: string, displayName: string, enabled: bool)

  type Helppers = map<string, Helpper>

  /** `helpers` is keyed by directory id; `nextID` is the store's counter. */
  datatype World = World(
    users: seq<User>, bound: map<string, string>,
    helpers: Helppers, nextID: nat, checkpoint: int)

  datatype Config = Config(
    pageSize: int, overlap: int, maxMalformed: int, futureSkew: int, dryRun: bool)

  /** The options as the constructor normalises them. */
  function Normalize(o: Config): Config {
    Config(
      if o.pageSize <= 0 then Pager.DEFAULT_PAGE_SIZE else o.pageSize,
      if o.overlap == 0 then 2 * MINUTE else o.overlap,
      if o.maxMalformed == 0 then 25 else o.maxMalformed,
      if o.futureSkew == 0 then 5 * MINUTE else o.futureSkew,
      o.dryRun)
  }

  /** What the options come to: an option left at zero takes its default, any other value is kept,
      so a negative limit or overlap stays negative; only the page size must be positive. */
  lemma NormalizedOptions(o: Config)
    ensures
      var c := Normalize(o);
      && c.pageSize > 0 && (o.pageSize > 0 ==> c.pageSize == o.pageSize) && (o.pageSize <= 0 ==> c.pageSize == 200)
      && (o.overlap == 0 ==> c.overlap == 120_000_000_000) && (o.overlap != 0 ==> c.overlap == o.overlap)
      && (o.maxMalformed == 0 ==> c.maxMalformed == 25) && (o.maxMalformed != 0 ==> c.maxMalformed == o.maxMalformed)
      && (o.futureSkew == 0 ==> c.futureSkew == 300_000_000_000) && (o.futureSkew != 0 ==> c.futureSkew == o.futureSkew)
      && c.dryRun == o.dryRun
    ensures Normalize(Normalize(o)) == Normalize(o)
  {}

  datatype Stats = Stats(
    scanned: nat, created: nat, enabled: nat, disabled: nat, updated: nat, unmodified: nat,
    skipped: nat, malformed: nat, wroteBack: nat, conflicts: nat)

  const NO_STATS := Stats(0, 0, 0, 0, 0, 0, 0, 0, 0, 0)

  const DRY_RUN_ID := "(assigned on a real run)"

  /** What the environment may do to the effects of one record: any store or directory
      call can fail, and a PATCH can be performed although its reply is lost. A crash
      between two effects leaves the same state as a failure of the later one. */
  datatype Fault = NoFault | LookupFails | StoreWriteFails | PatchFails | PatchReplyLost

  // ---- the store ----

  function Get(h: Helppers, d: string): Option<Helpper> {
    if d in h then Some(h[d]) else None
  }

  function EnabledIds(h: Helppers): set<string> { set d | d in h && h[d].enabled }

  function WithAccount(w: World, d: string, login: string, name: string): World {
    w.(helpers := w.helpers[d := Helpper(Decimal.Render(w.nextID + 1), d, login, name, true)],
       nextID := w.nextID + 1)
  }

  function Restated(p: Helpper, enabled: bool, name: string, login: string): Helpper {
    p.(enabled := enabled, displayName := name, login := login)
  }

  /** Every account carrying `id`, in its new state. */
  function UpdatedById(h: Helppers, id: string, enabled: bool, name: string, login: string): (h': Helppers)
    ensures h'.Keys == h.Keys && forall d :: d in h ==> h'[d].id == h[d].id && h'[d].directoryId == h[d].directoryId
  {
    map d | d in h :: if h[d].id == id then Restated(h[d], enabled, name, login) else h[d]
  }

  /** Every account sits under its own directory id, carries an id the counter has
      already issued, and no two accounts carry the same id. */
  ghost predicate ValidHelpers(h: Helppers, nextID: nat) {
    && (forall d :: d in h ==> h[d].directoryId == d && Issued(h[d].id, nextID))
    && (forall d, e :: d in h && e in h && h[d].id == h[e].id ==> d == e)
  }

  ghost predicate Issued(id: string, nextID: nat) {
    exists k: nat :: k <= nextID && id == Decimal.Render(k)
  }

  // ---- the directory ----

  datatype PatchResult = Accepted | Conflict | NotFound

  predicate Known(users: seq<User>, id: string) {
    exists i :: 0 <= i < |users| && users[i].id == id
  }

  function PatchOutcome(users: seq<User>, bound: map<string, string>, id: string, value: string): PatchResult {
    if !Known(users, id) then NotFound
    else if value in bound && bound[value] != id then Conflict
    else Accepted
  }

  function Stamped(u: User, value: string): User {
    u.(externalId := value, lastModified := u.lastModified + SECOND)
  }

  function PatchedUsers(users: seq<User>, id: string, value: string): (r: seq<User>)
    ensures |r| == |users|
    ensures forall i :: 0 <= i < |r| ==> r[i] == if users[i].id == id then Stamped(users[i], value) else users[i]
  {
    seq(|users|, i requires 0 <= i < |users| => if users[i].id == id then Stamped(users[i], value) else users[i])
  }

  /** The value is bound to `id`, and whatever else `id` was bound to is released. */
  function Rebound(bound: map<string, string>, id: string, value: string): map<string, string> {
    (map k | k in bound && bound[k] != id :: bound[k])[value := id]
  }

  function Patched(w: World, id: string, value: string): World {
    w.(users := PatchedUsers(w.users, id, value), bound := Rebound(w.bound, id, value))
  }

  // ---- applying one record ----

  datatype Step = Step(w: World, stats: Stats, ok: bool)

  function WriteBack(dry: bool, w: World, d: string, helpperId: string, f: Fault, s: Stats): Step {
    if helpperId == "" then Step(w, s, false)
    else if dry then Step(w, s.(wroteBack := s.wroteBack + 1), true)
    else if f == PatchFails then Step(w, s, false)
    else
      match PatchOutcome(w.users, w.bound, d, helpperId)
      case Accepted =>
        if f == PatchReplyLost then Step(Patched(w, d, helpperId), s, false)
        else Step(Patched(w, d, helpperId), s.(wroteBack := s.wroteBack + 1), true)
      case Conflict =>
        if f == PatchReplyLost then Step(w, s, false)
        else Step(w, s.(conflicts := s.conflicts + 1), true)
      case NotFound => Step(w, s, false)
  }

  predicate InState(p: Helpper, u: User)
    requires u.active.Some?
  {
    p.enabled == u.active.value && p.displayName == u.displayName && p.login == PrimaryEmail(u)
  }

  function BumpState(p: Helpper, active: bool, s: Stats): Stats {
    if p.enabled && !active then s.(disabled := s.disabled + 1)
    else if !p.enabled && active then s.(enabled := s.enabled + 1)
    else s.(updated := s.updated + 1)
  }

  function SyncState(dry: bool, w: World, u: User, p: Helpper, f: Fault, s: Stats): Step
    requires u.active.Some?
  {
    if InState(p, u) then Step(w, s.(unmodified := s.unmodified + 1), true)
    else if dry then Step(w, BumpState(p, u.active.value, s), true)
    else if f == StoreWriteFails then Step(w, s, false)
    else
      Step(w.(helpers := w.helpers[u.id := Restated(p, u.active.value, u.displayName, PrimaryEmail(u))]),
           BumpState(p, u.active.value, s), true)
  }

  /** An identity as it was before the cycle touched it. */
  datatype Before = Before(
    existed: bool, enabledBefore: bool, activeNow: bool, externalIDBefore: string, malformed: bool)

  datatype Applied = Applied(w: World, stats: Stats, before: Before, ok: bool)

  function ApplyKnown(dry: bool, w: World, u: User, p: Helpper, f: Fault, s: Stats): Applied
    requires u.active.Some?
  {
    var before := Before(true, p.enabled, u.active.value, u.externalId, false);
    var synced := SyncState(dry, w, u, p, f, s);
    if !synced.ok || u.externalId == p.id then Applied(synced.w, synced.stats, before, synced.ok)
    else
      var wrote := WriteBack(dry, synced.w, u.id, p.id, f, synced.stats);
      Applied(wrote.w, wrote.stats, before, wrote.ok)
  }

  function ApplyNew(dry: bool, w: World, u: User, f: Fault, s: Stats): Applied
    requires u.active.Some?
  {
    var before := Before(false, false, u.active.value, "", false);
    if !u.active.value then Applied(w, s.(skipped := s.skipped + 1), before, true)
    else if dry then
      var wrote := WriteBack(dry, w, u.id, DRY_RUN_ID, f, s.(created := s.created + 1));
      Applied(wrote.w, wrote.stats, before, wrote.ok)
    else if f == StoreWriteFails then Applied(w, s, before, false)
    else
      var w' := WithAccount(w, u.id, PrimaryEmail(u), u.displayName);
      var wrote := WriteBack(dry, w', u.id, w'.helpers[u.id].id, f, s.(created := s.created + 1));
      Applied(wrote.w, wrote.stats, before, wrote.ok)
  }

  /** What is done with a usable record. */
  function ApplyUsable(dry: bool, w: World, u: User, f: Fault, s: Stats): Applied
    requires u.active.Some?
  {
    if f == LookupFails then Applied(w, s, Before(false, false, u.active.value, "", false), false)
    else
      match Get(w.helpers, u.id)
      case Some(p) => ApplyKnown(dry, w, u, p, f, s)
      case None => ApplyNew(dry, w, u, f, s)
  }

  /** Converges one directory record into the local base: the upsert. */
  function Apply(dry: bool, w: World, u: User, f: Fault, s0: Stats): Applied {
    var s := s0.(scanned := s0.scanned + 1);
    if Validate(u) != None then
      Applied(w, s.(malformed := s.malformed + 1), Before(false, false, false, "", true), true)
    else ApplyUsable(dry, w, u, f, s)
  }

  // ---- the walk's per-record callback ----

  datatype Drift = Drift(absent: seq<string>, shouldBeDisabled: seq<string>, missingExternalID: seq<string>)

  /** The variables the callback of one walk shares; `high` and `earliest` are 0 until set. */
  datatype Tally = Tally(stats: Stats, high: int, earliest: int, seen: set<string>, drift: Drift)

  const NO_TALLY := Tally(NO_STATS, 0, 0, {}, Drift([], [], []))

  function Observe(t: Tally, u: User, b: Before): Tally {
    var t1 := t.(seen := t.seen + {u.id});
    if !b.existed then t1
    else
      var t2 := if b.enabledBefore && !b.activeNow
        then t1.(drift := t1.drift.(shouldBeDisabled := t1.drift.shouldBeDisabled + [u.id])) else t1;
      if b.externalIDBefore == ""
        then t2.(drift := t2.drift.(missingExternalID := t2.drift.missingExternalID + [u.id])) else t2
  }

  function HoldBack(earliest: int, lastModified: int): int {
    if (earliest == 0 || lastModified < earliest) && lastModified != 0 then lastModified else earliest
  }

  predicate OverLimit(maxMalformed: int, s: Stats) { maxMalformed >= 0 && s.malformed > maxMalformed }

  datatype Visited = Visited(w: World, tally: Tally, ok: bool)

  /** The callback a walk runs on every record; `full` says whether it observes drift. */
  function Visit(c: Config, full: bool, w: World, t: Tally, u: User, f: Fault): Visited {
    var a := Apply(c.dryRun, w, u, f, t.stats);
    var t1 := t.(stats := a.stats);
    if !a.ok then Visited(a.w, t1, false)
    else
      var t2 := if full then Observe(t1, u, a.before) else t1;
      if a.before.malformed then
        Visited(a.w, t2.(earliest := HoldBack(t2.earliest, u.lastModified)), !OverLimit(c.maxMalformed, a.stats))
      else
        Visited(a.w, t2.(high := if u.lastModified > t2.high then u.lastModified else t2.high), true)
  }

  function Watermark(t: Tally): int {
    if t.earliest != 0 && t.high > t.earliest then t.earliest else t.high
  }

  /** Where the checkpoint goes after a walk that ended with this watermark. */
  function Advanced(c: Config, now: int, current: int, watermark: int): int {
    if watermark == 0 || watermark <= current then current
    else if watermark > now + c.futureSkew then current
    else if c.dryRun then current
    else watermark
  }

  /** The local account is what the record asks for. */
  predicate Agrees(u: User, h: Helppers) {
    u.active.Some? && (if u.id in h then InState(h[u.id], u) else !u.active.value)
  }
}
