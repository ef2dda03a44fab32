/** Any number of workers converging records at once, step by step against one store and
    one directory. */
module CreateRace {
  import opened Records
  import opened Protocol
  import opened Effects
  import Decimal
  import WrittenBack

  /** Where a worker stands: about to create an account it did not find, having lost that
      race, holding the account it looked up, about to write an id back, or failed because
      the re-read found nothing. */
  datatype Worker =
    | Free
    | Missing(user: User)
    | Raced(user: User)
    | Found(user: User, account: Helpper)
    | Writing(id: string, value: string)
    | Lost

  /** `created` lists the directory ids of successful creations and the workers that made them,
      `sent` every externalId sent and the identity it was sent for. */
  datatype Race = Race(world: World, workers: seq<Worker>, created: seq<(string, nat)>, sent: seq<(string, string)>)

  function CreatedIds(r: Race): set<string> { set k | 0 <= k < |r.created| :: r.created[k].0 }

  datatype Move = Take(i: nat, user: User) | Advance(i: nat) | Die(i: nat)

  function Become(r: Race, i: nat, k: Worker): Race
    requires i < |r.workers|
  {
    r.(workers := r.workers[i := k])
  }

  /** The lookup: the fast path that is no guarantee. */
  function Lookup(r: Race, i: nat, u: User): Race
    requires i < |r.workers|
  {
    if !Usable(u) then r
    else
      match Get(r.world.helpers, u.id)
      case Some(p) => Become(r, i, Found(u, p))
      case None => if u.active.value then Become(r, i, Missing(u)) else r
  }

  /** The creation: the store refuses an id it already has. */
  function Create(r: Race, i: nat, u: User): Race
    requires i < |r.workers|
  {
    if u.id in r.world.helpers then Become(r, i, Raced(u))
    else
      var w := WithAccount(r.world, u.id, PrimaryEmail(u), u.displayName);
      Become(r, i, Writing(u.id, w.helpers[u.id].id)).(world := w, created := r.created + [(u.id, i)])
  }

  /** The re-read after a lost race. */
  function Reread(r: Race, i: nat, u: User): Race
    requires i < |r.workers|
  {
    Become(r, i, if u.id in r.world.helpers then Writing(u.id, r.world.helpers[u.id].id) else Lost)
  }

  /** The state update, by account id, of the account as it was when looked up. */
  function Update(r: Race, i: nat, u: User, p: Helpper): Race
    requires i < |r.workers|
  {
    var w := if u.active.Some? && !InState(p, u) then
      r.world.(helpers := UpdatedById(r.world.helpers, p.id, u.active.value, u.displayName, PrimaryEmail(u)))
      else r.world;
    Become(r, i, if u.externalId != p.id then Writing(u.id, p.id) else Free).(world := w)
  }

  /** The write-back, whatever the directory makes of it. */
  function Send(r: Race, i: nat, d: string, v: string): Race
    requires i < |r.workers|
  {
    var w := if PatchOutcome(r.world.users, r.world.bound, d, v) == Accepted then Patched(r.world, d, v) else r.world;
    Become(r, i, Free).(world := w, sent := r.sent + [(d, v)])
  }

  function Step(r: Race, m: Move): Race {
    if m.i >= |r.workers| then r
    else
      match m
      case Take(i, u) => if r.workers[i] == Free then Lookup(r, i, u) else r
      case Die(i) => Become(r, i, Free)
      case Advance(i) =>
        match r.workers[i]
        case Free => r
        case Missing(u) => Create(r, i, u)
        case Raced(u) => Reread(r, i, u)
        case Found(u, p) => Update(r, i, u, p)
        case Writing(d, v) => Send(r, i, d, v)
        case Lost => r
  }

  function Run(r: Race, ms: seq<Move>): Race {
    if ms == [] then r else Step(Run(r, ms[..|ms| - 1]), ms[|ms| - 1])
  }

  // ---- safety ----

  /** `v` is the id of `d`'s account. */
  predicate IdOf(w: World, d: string, v: string) { d in w.helpers && w.helpers[d].id == v }

  ghost predicate WorkerInv(w: World, k: Worker) {
    match k
    case Free => true
    case Missing(u) => Usable(u) && u.active == Some(true)
    case Raced(u) => u.id in w.helpers
    case Found(u, p) => IdOf(w, u.id, p.id)
    case Writing(d, v) => IdOf(w, d, v)
    case Lost => false
  }

  /** `before` holds the directory ids that had accounts when the run began. */
  ghost predicate Inv(before: set<string>, r: Race) {
    && ValidStore(r.world)
    && (forall i :: 0 <= i < |r.workers| ==> WorkerInv(r.world, r.workers[i]))
    && (forall i, j :: 0 <= i < j < |r.created| ==> r.created[i].0 != r.created[j].0)
    && CreatedIds(r) !! before && r.world.helpers.Keys == before + CreatedIds(r)
    && (forall k :: 0 <= k < |r.sent| ==> IdOf(r.world, r.sent[k].0, r.sent[k].1))
  }

  /** No account disappears or changes its id. */
  ghost predicate Keeps(w: World, w': World) { forall d, v :: IdOf(w, d, v) ==> IdOf(w', d, v) }

  lemma BecomeKeeps(before: set<string>, r: Race, i: nat, k: Worker)
    requires Inv(before, r) && i < |r.workers| && WorkerInv(r.world, k)
    ensures Inv(before, Become(r, i, k))
  {}

  lemma WorldKeeps(before: set<string>, r: Race, w: World)
    requires Inv(before, r) && Keeps(r.world, w) && ValidStore(w) && w.helpers.Keys == r.world.helpers.Keys
    ensures Inv(before, r.(world := w))
  {
    hide ValidStore, Usable;
    forall i | 0 <= i < |r.workers| ensures WorkerInv(w, r.workers[i]) {
      assert WorkerInv(r.world, r.workers[i]);
    }
  }

  lemma OneMoreCreated(r: Race, r': Race, c: (string, nat))
    requires r'.created == r.created + [c]
    ensures CreatedIds(r') == CreatedIds(r) + {c.0}
  {
    assert r'.created[|r.created|] == c;
    forall k | 0 <= k < |r.created| ensures r.created[k].0 in CreatedIds(r') { assert r'.created[k] == r.created[k]; }
  }

  lemma CreateKeeps(before: set<string>, r: Race, i: nat, u: User)
    requires Inv(before, r) && i < |r.workers|
    ensures Inv(before, Create(r, i, u))
  {
    hide ValidHelpers, PrimaryEmail, Decimal.Render;
    if u.id in r.world.helpers {
      BecomeKeeps(before, r, i, Raced(u));
    } else {
      CreatedIsValid(r.world, u.id, PrimaryEmail(u), u.displayName);
      var r' := Create(r, i, u);
      OneMoreCreated(r, r', (u.id, i));
      assert Keeps(r.world, r'.world);
      forall j | 0 <= j < |r.workers| ensures WorkerInv(r'.world, r'.workers[j]) {
        assert WorkerInv(r.world, r.workers[j]);
      }
    }
  }

  lemma UpdateIsValid(r: Race, i: nat, u: User, p: Helpper)
    requires ValidStore(r.world) && i < |r.workers|
    ensures
      var w := Update(r, i, u, p).world;
      ValidStore(w) && Keeps(r.world, w) && w.helpers.Keys == r.world.helpers.Keys
  {
    hide PrimaryEmail, Issued;
  }

  lemma UpdateKeeps(before: set<string>, r: Race, i: nat, u: User, p: Helpper)
    requires Inv(before, r) && i < |r.workers| && r.workers[i] == Found(u, p)
    ensures Inv(before, Update(r, i, u, p))
  {
    assert WorkerInv(r.world, r.workers[i]);
    UpdateIsValid(r, i, u, p);
    var w := Update(r, i, u, p).world;
    WorldKeeps(before, r, w);
    assert IdOf(w, u.id, p.id);
    hide Inv, ValidStore, InState, PrimaryEmail;
    BecomeKeeps(before, r.(world := w), i, if u.externalId != p.id then Writing(u.id, p.id) else Free);
  }

  lemma SendKeeps(before: set<string>, r: Race, i: nat, d: string, v: string)
    requires Inv(before, r) && i < |r.workers| && r.workers[i] == Writing(d, v)
    ensures Inv(before, Send(r, i, d, v))
  {}

  lemma StepKeeps(before: set<string>, r: Race, m: Move)
    requires Inv(before, r)
    ensures Inv(before, Step(r, m))
  {
    if m.i < |r.workers| {
      assert WorkerInv(r.world, r.workers[m.i]);
      hide Inv, Create, Update, Send, PrimaryEmail, Validate;
      match m
      case Take(i, u) =>
        if r.workers[i] == Free && Usable(u) {
          match Get(r.world.helpers, u.id)
          case Some(p) => BecomeKeeps(before, r, i, Found(u, p));
          case None => if u.active == Some(true) { BecomeKeeps(before, r, i, Missing(u)); }
        }
      case Die(i) => BecomeKeeps(before, r, i, Free);
      case Advance(i) =>
        match r.workers[i]
        case Free =>
        case Missing(u) => CreateKeeps(before, r, i, u);
        case Raced(u) => BecomeKeeps(before, r, i, Writing(u.id, r.world.helpers[u.id].id));
        case Found(u, p) => UpdateKeeps(before, r, i, u, p);
        case Writing(d, v) => SendKeeps(before, r, i, d, v);
    }
  }

  lemma {:induction false} RunKeeps(before: set<string>, r: Race, ms: seq<Move>)
    requires Inv(before, r)
    ensures Inv(before, Run(r, ms))
  {
    hide Inv, Step;
    if ms != [] {
      RunKeeps(before, r, ms[..|ms| - 1]);
      StepKeeps(before, Run(r, ms[..|ms| - 1]), ms[|ms| - 1]);
    }
  }

  /** Under every interleaving of any number of workers, dying where they may: an identity
      is created at most once, and exactly once if it has an account it did not start with;
      the re-read after a lost race never misses; every externalId sent for an identity is
      its account's id, so no identity is sent two values and no two identities one. */
  lemma RaceIsSafe(w: World, n: nat, ms: seq<Move>)
    requires ValidStore(w)
    ensures
      var r := Run(Race(w, seq(n, _ => Free), [], []), ms);
      && (forall i, j :: 0 <= i < j < |r.created| ==> r.created[i].0 != r.created[j].0)
      && CreatedIds(r) == r.world.helpers.Keys - w.helpers.Keys
      && Lost !in r.workers
      && (forall k :: 0 <= k < |r.sent| ==> IdOf(r.world, r.sent[k].0, r.sent[k].1))
      && (forall j, k :: 0 <= j < |r.sent| && 0 <= k < |r.sent|
            ==> (r.sent[j].0 == r.sent[k].0 <==> r.sent[j].1 == r.sent[k].1))
  {
    var r0 := Race(w, seq(n, _ => Free), [], []);
    RunKeeps(w.helpers.Keys, r0, ms);
    var r := Run(r0, ms);
    forall j, k | 0 <= j < |r.sent| && 0 <= k < |r.sent|
      ensures r.sent[j].0 == r.sent[k].0 <==> r.sent[j].1 == r.sent[k].1
    {
      assert IdOf(r.world, r.sent[j].0, r.sent[j].1) && IdOf(r.world, r.sent[k].0, r.sent[k].1);
    }
    hide Run;
  }

  // ---- progress ----

  /** The record's account exists, and its id has been sent for it if the record lacked it. */
  ghost predicate Served(r: Race, u: User) {
    && u.id in r.world.helpers
    && (u.externalId == r.world.helpers[u.id].id || (u.id, r.world.helpers[u.id].id) in r.sent)
  }

  /** Worker `i` is on its way with `u`, or done with it. */
  ghost predicate Serving(r: Race, i: nat, u: User) {
    && i < |r.workers|
    && match r.workers[i]
       case Missing(v) => v == u
       case Raced(v) => v == u
       case Found(v, _) => v == u
       case Writing(d, _) => d == u.id
       case Free => Served(r, u)
       case Lost => false
  }

  /** How many moves of its own a worker is from being free. */
  function Ahead(k: Worker): nat {
    match k
    case Missing(_) => 3
    case Raced(_) => 2
    case Found(_, _) => 2
    case Writing(_, _) => 1
    case _ => 0
  }

  /** Its own moves bring it nearer, whatever the state of the store. */
  lemma OwnMove(before: set<string>, r: Race, i: nat, u: User)
    requires Inv(before, r) && Serving(r, i, u)
    ensures Serving(Step(r, Advance(i)), i, u)
    ensures
      var k := Step(r, Advance(i)).workers[i];
      Ahead(k) <= if Ahead(r.workers[i]) == 0 then 0 else Ahead(r.workers[i]) - 1
  {
    assert WorkerInv(r.world, r.workers[i]);
    hide ValidHelpers, PrimaryEmail, Decimal.Render, Validate;
    if r.workers[i].Writing? {
      var d, v := r.workers[i].id, r.workers[i].value;
      assert (r.sent + [(d, v)])[|r.sent|] == (d, v);
    }
  }

  lemma OtherStep(r: Race, m: Move, i: nat)
    requires i < |r.workers| && m.i != i
    ensures var r' := Step(r, m); |r'.workers| == |r.workers| && r'.workers[i] == r.workers[i]
  {
    hide PrimaryEmail, Validate, Decimal.Render;
  }

  lemma StepKeepsSent(before: set<string>, r: Race, m: Move)
    requires Inv(before, r)
    ensures Keeps(r.world, Step(r, m).world) && r.sent <= Step(r, m).sent && |Step(r, m).workers| == |r.workers|
  {
    hide ValidHelpers, PrimaryEmail, Decimal.Render, Validate;
  }

  /** The others' moves neither help nor hinder it. */
  lemma OtherMove(before: set<string>, r: Race, m: Move, i: nat, u: User)
    requires Inv(before, r) && Serving(r, i, u) && m.i != i
    ensures Serving(Step(r, m), i, u) && Step(r, m).workers[i] == r.workers[i]
  {
    hide Step, Inv;
    OtherStep(r, m, i);
    StepKeepsSent(before, r, m);
    if r.workers[i].Free? {
      assert IdOf(r.world, u.id, r.world.helpers[u.id].id);
      assert IdOf(Step(r, m).world, u.id, r.world.helpers[u.id].id);
    }
  }

  /** How many of the moves are worker `i`'s. */
  function Own(ms: seq<Move>, i: nat): nat {
    if ms == [] then 0 else Own(ms[..|ms| - 1], i) + (if ms[|ms| - 1].i == i then 1 else 0)
  }

  /** A usable record that is active, or has an account, is taken up by a free worker; no other
      record moves anything. */
  lemma TakesUp(r: Race, i: nat, u: User)
    requires i < |r.workers| && r.workers[i] == Free
    ensures
      if Usable(u) && (u.active == Some(true) || u.id in r.world.helpers)
      then Serving(Step(r, Take(i, u)), i, u) && Step(r, Take(i, u)).workers[i] != Free
           && Step(r, Take(i, u)).world == r.world && Step(r, Take(i, u)).created == r.created
      else Step(r, Take(i, u)) == r
  {
    hide PrimaryEmail, Validate;
    if Usable(u) { UsableHasFlag(u); }
  }

  lemma {:induction false} ServesOn(before: set<string>, r: Race, i: nat, u: User, ms: seq<Move>)
    requires Inv(before, r) && Serving(r, i, u)
    requires forall k :: 0 <= k < |ms| && ms[k].i == i ==> ms[k].Advance?
    ensures Serving(Run(r, ms), i, u)
    ensures Ahead(Run(r, ms).workers[i]) <= if Own(ms, i) >= 3 then 0 else 3 - Own(ms, i)
  {
    hide Inv, Step, Serving;
    if ms == [] {
      AtMostThree(r, i, u);
    } else {
      var n := |ms| - 1;
      ServesOn(before, r, i, u, ms[..n]);
      RunKeeps(before, r, ms[..n]);
      ServingHasWorker(Run(r, ms[..n]), i, u);
      if ms[n].i == i { OwnMove(before, Run(r, ms[..n]), i, u); }
      else { OtherMove(before, Run(r, ms[..n]), ms[n], i, u); }
    }
  }

  lemma AtMostThree(r: Race, i: nat, u: User)
    requires Serving(r, i, u)
    ensures i < |r.workers| && Ahead(r.workers[i]) <= 3
  {}

  lemma ServingHasWorker(r: Race, i: nat, u: User)
    requires Serving(r, i, u)
    ensures i < |r.workers|
  {}

  /** Progress under every interleaving: from any state reached, a free worker that takes up a
      record and then makes three moves of its own without dying is free again, whatever the
      others do between; the record has an account, whose id has been sent for it if the record
      lacked it. If there was none before, some worker has created it, and this one unless another
      did. */
  lemma WorkerFinishes(w: World, n: nat, past: seq<Move>, i: nat, u: User, ms: seq<Move>)
    requires ValidStore(w) && i < n
    requires
      var r := Run(Race(w, seq(n, _ => Free), [], []), past);
      |r.workers| == n && r.workers[i] == Free && Usable(u) && (u.active == Some(true) || u.id in r.world.helpers)
    requires (forall k :: 0 <= k < |ms| && ms[k].i == i ==> ms[k].Advance?) && Own(ms, i) >= 3
    ensures
      var r := Run(Race(w, seq(n, _ => Free), [], []), past);
      var s := Run(Step(r, Take(i, u)), ms);
      && i < |s.workers| && s.workers[i] == Free && Served(s, u)
      && (u.id !in r.world.helpers ==>
            (exists j :: (u.id, j) in s.created)
            && ((forall j :: (u.id, j) in s.created ==> j == i) ==> (u.id, i) in s.created))
  {
    hide Run, Step, Inv, Serving, Served;
    var before := w.helpers.Keys;
    var r0 := Race(w, seq(n, _ => Free), [], []);
    StartsWell(w, n);
    RunKeeps(before, r0, past);
    var r := Run(r0, past);
    TakesUp(r, i, u);
    StepKeeps(before, r, Take(i, u));
    ServesOn(before, Step(r, Take(i, u)), i, u, ms);
    RunKeeps(before, Step(r, Take(i, u)), ms);
    var s := Run(Step(r, Take(i, u)), ms);
    ServingHasWorker(s, i, u);
    FreeIsServed(before, s, i, u);
    if u.id !in r.world.helpers {
      NewIsCreated(before, r, s, u);
    }
  }

  lemma StartsWell(w: World, n: nat)
    requires ValidStore(w)
    ensures Inv(w.helpers.Keys, Race(w, seq(n, _ => Free), [], []))
  {}

  lemma FreeIsServed(before: set<string>, r: Race, i: nat, u: User)
    requires Inv(before, r) && Serving(r, i, u) && i < |r.workers| && Ahead(r.workers[i]) == 0
    ensures r.workers[i] == Free && Served(r, u)
  {}

  lemma NewIsCreated(before: set<string>, r: Race, s: Race, u: User)
    requires Inv(before, r) && Inv(before, s) && u.id !in r.world.helpers && Served(s, u)
    ensures exists j :: (u.id, j) in s.created
  {
    assert u.id in CreatedIds(s);
    var k :| 0 <= k < |s.created| && s.created[k].0 == u.id;
    assert s.created[k] == (u.id, s.created[k].1);
  }

  /** A worker that dies is free, and has done nothing but what it had done. */
  lemma DeathFrees(r: Race, i: nat)
    requires i < |r.workers|
    ensures Step(r, Die(i)) == r.(workers := r.workers[i := Free])
  {}

  // ---- what the moves achieve ----

  /** An account created is as the record asks; one looked up is so after the update, unless it
      was already when it was looked up. */
  lemma MovesConverge(before: set<string>, r: Race, i: nat)
    requires Inv(before, r) && i < |r.workers|
    ensures
      var r', k := Step(r, Advance(i)), r.workers[i];
      && (k.Missing? && k.user.id !in r.world.helpers ==>
            Agrees(k.user, r'.world.helpers) && r'.created == r.created + [(k.user.id, i)])
      && (k.Found? && k.user.active.Some? ==>
            InState(k.account, k.user) || Agrees(k.user, r'.world.helpers))
  {
    assert WorkerInv(r.world, r.workers[i]);
    hide PrimaryEmail, Decimal.Render, Issued, Validate;
  }

  /** A value sent for a record of the directory is in it then, or another identity holds it. */
  lemma SendsForGood(before: set<string>, r: Race, i: nat)
    requires Inv(before, r) && i < |r.workers| && r.workers[i].Writing? && Known(r.world.users, r.workers[i].id)
    ensures
      var w, d := Step(r, Advance(i)).world, r.workers[i].id;
      WrittenBack.Delivered(w, d) || WrittenBack.InConflict(w, d)
  {
    assert WorkerInv(r.world, r.workers[i]);
    hide ValidHelpers;
  }
}
