/** Whole runs: the reconciler and the directory it walks as one state machine whose
    events are directory edits, the steps of a cycle, failures and crashes. */
module Cycle {
  import opened Records
  import opened Protocol
  import opened Pager
  import Ordering

  /** A record on a page, with the position it was read from. */
  datatype Rec = Rec(ix: nat, user: User)

  /** What the proofs remember about the walk under way, and no step looks at: the
      records and accounts it started from, the records applied so far, and the
      positions edited behind its back. */
  datatype History = History(base: seq<User>, helpers0: Helppers, log: seq<Rec>, late: set<nat>)

  datatype Report = Report(ok: bool, stats: Stats, drift: Drift, checkpoint: int)

  const NO_REPORT := Report(false, NO_STATS, Drift([], [], []), 0)

  datatype Phase =
    | Idle(last: Report)
    | Walking(
        full: bool, current: int, since: int,
        pager: Pager, page: seq<Rec>, total: nat, pending: seq<Rec>, done: bool,
        tally: Tally, hist: History)

  datatype Sys = Sys(world: World, phase: Phase)

  datatype Event =
    | Touch(id: string, at: int, after: User)
    | Begin(full: bool)
    | ReadPage
    | VisitNext(fault: Fault)
    | Finish(now: int, saved: bool)
    | Abort

  // ---- directory edits ----

  /** The first record carrying `id`, or |users|. */
  function IndexOf(users: seq<User>, id: string): (i: nat)
    ensures i <= |users|
    ensures i < |users| ==> users[i].id == id
    ensures forall j :: 0 <= j < i ==> users[j].id != id
  {
    if users == [] then 0
    else if users[0].id == id then 0
    else 1 + IndexOf(users[1..], id)
  }

  function Touched(users: seq<User>, id: string, at: int, after: User): seq<User> {
    var i := IndexOf(users, id);
    if i < |users| then users[i := after.(lastModified := at)] else users
  }

  predicate Served(page: seq<Rec>, i: nat) { exists k :: 0 <= k < |page| && page[k].ix == i }

  /** An edit of a record the walk will still meet restarts that record's history; any
      other edit happens behind the walk. */
  function Remember(p: Phase, users: seq<User>, id: string, edited: seq<User>): History
    requires p.Walking? && |edited| == |users|
  {
    var i := IndexOf(users, id);
    if i >= |users| || |p.hist.base| != |users| then p.hist
    else if Matches(users[i], p.since) && !Served(p.hist.log + p.pending, i)
    then p.hist.(base := p.hist.base[i := edited[i]])
    else p.hist.(late := p.hist.late + {i})
  }

  function NextTouch(s: Sys, id: string, at: int, after: User): Sys {
    var edited := Touched(s.world.users, id, at, after);
    var phase := if s.phase.Walking? then s.phase.(hist := Remember(s.phase, s.world.users, id, edited)) else s.phase;
    Sys(s.world.(users := edited), phase)
  }

  // ---- steps of a cycle ----

  /** The bound a cycle sends: none for a full one, the overlap behind the checkpoint else. */
  function Since(c: Config, checkpoint: int, full: bool): int {
    if full then 0 else Cutoff(checkpoint, c.overlap)
  }

  function NextBegin(c: Config, s: Sys, full: bool): Sys {
    var cp := s.world.checkpoint;
    s.(phase := Walking(full, cp, Since(c, cp, full), START, [], 0, [], false,
                        NO_TALLY, History(s.world.users, s.world.helpers, [], {})))
  }

  function Fetch(users: seq<User>, ix: seq<nat>): (r: seq<Rec>)
    requires forall k :: 0 <= k < |ix| ==> ix[k] < |users|
    ensures |r| == |ix| && forall k :: 0 <= k < |r| ==> r[k] == Rec(ix[k], users[ix[k]])
  {
    seq(|ix|, k requires 0 <= k < |ix| => Rec(ix[k], users[ix[k]]))
  }

  predicate Reading(p: Phase) { p.Walking? && !p.done && p.pending == [] }

  function NextReadPage(c: Config, s: Sys): Sys
    requires Reading(s.phase) && c.pageSize > 0
  {
    var p := s.phase;
    var ix := PageIx(s.world.users, p.since, p.pager.startIndex, c.pageSize);
    var page := Fetch(s.world.users, ix);
    if page == [] then s.(phase := p.(done := true))
    else s.(phase := p.(page := page, pending := page, total := |AllMatches(s.world.users, p.since)|))
  }

  function Failed(w: World, p: Phase, t: Tally): Sys
    requires p.Walking?
  {
    Sys(w, Idle(Report(false, t.stats, t.drift, 0)))
  }

  predicate Visiting(p: Phase) { p.Walking? && !p.done && p.pending != [] && p.page != [] }

  /** The client's decision once every record of the page has been handed over. */
  function EndOfPage(c: Config, w: World, p: Phase): Sys
    requires p.Walking? && p.page != [] && c.pageSize > 0
  {
    match AfterPage(p.pager, c.pageSize, p.total, p.page[0].user.id, |p.page|)
    case Complete => Sys(w, p.(done := true))
    case More(next) => Sys(w, p.(pager := next))
    case SamePageTwice => Failed(w, p, p.tally)
    case TooManyPages => Failed(w, p, p.tally)
  }

  /** The phase once the record at hand has been applied. */
  function Logged(p: Phase, t: Tally): Phase
    requires p.Walking? && p.pending != []
  {
    p.(tally := t, pending := p.pending[1..], hist := p.hist.(log := p.hist.log + [p.pending[0]]))
  }

  function NextVisit(c: Config, s: Sys, f: Fault): Sys
    requires Visiting(s.phase) && c.pageSize > 0
  {
    var p := s.phase;
    var r := p.pending[0];
    var v := Visit(c, p.full, s.world, p.tally, r.user, f);
    if !v.ok then Failed(v.w, p, v.tally)
    else
      var p' := Logged(p, v.tally);
      if p'.pending == [] then EndOfPage(c, v.w, p') else Sys(v.w, p')
  }

  /** Enabled accounts the walk did not meet, in order. */
  ghost function Absent(h: Helppers, seen: set<string>): seq<string> {
    Ordering.Enumerate(set d | d in h && h[d].enabled && d !in seen)
  }

  ghost function FinalDrift(s: Sys): Drift
    requires s.phase.Walking?
  {
    var t := s.phase.tally;
    if s.phase.full then t.drift.(absent := Absent(s.world.helpers, t.seen)) else t.drift
  }

  /** Where this walk's watermark would take the checkpoint. */
  function Target(c: Config, p: Phase, now: int): int
    requires p.Walking?
  {
    Advanced(c, now, p.current, Watermark(p.tally))
  }

  ghost function NextFinish(c: Config, s: Sys, now: int, saved: bool): Sys
    requires s.phase.Walking?
  {
    var target := Target(c, s.phase, now);
    var ok := saved || target == s.phase.current;
    Sys(if target != s.phase.current && saved then s.world.(checkpoint := target) else s.world,
        Idle(Report(ok, s.phase.tally.stats, FinalDrift(s), if ok then target else s.phase.current)))
  }

  /** The machine. An event that is not enabled changes nothing. */
  ghost function Next(c: Config, s: Sys, e: Event): Sys
    requires c.pageSize > 0
  {
    match e
    case Touch(id, at, after) => NextTouch(s, id, at, after)
    case Begin(full) => if s.phase.Idle? then NextBegin(c, s, full) else s
    case ReadPage => if Reading(s.phase) then NextReadPage(c, s) else s
    case VisitNext(f) => if Visiting(s.phase) then NextVisit(c, s, f) else s
    case Finish(now, saved) => if s.phase.Walking? && s.phase.done then NextFinish(c, s, now, saved) else s
    case Abort => if s.phase.Walking? then Failed(s.world, s.phase, s.phase.tally) else s
  }

  ghost function Run(c: Config, s: Sys, es: seq<Event>): Sys
    requires c.pageSize > 0
  {
    if es == [] then s else Next(c, Run(c, s, es[..|es| - 1]), es[|es| - 1])
  }

  lemma RunOne(c: Config, s: Sys, es: seq<Event>, e: Event)
    requires c.pageSize > 0
    ensures Run(c, s, es + [e]) == Next(c, Run(c, s, es), e)
  {}

  lemma {:induction false} RunAppend(c: Config, s: Sys, es: seq<Event>, fs: seq<Event>)
    requires c.pageSize > 0
    ensures Run(c, s, es + fs) == Run(c, Run(c, s, es), fs)
  {
    hide Next;
    if fs == [] {
      assert es + fs == es;
    } else {
      var n := |fs| - 1;
      RunAppend(c, s, es, fs[..n]);
      assert es + fs == (es + fs[..n]) + [fs[n]];
      RunOne(c, s, es + fs[..n], fs[n]);
    }
  }
}
