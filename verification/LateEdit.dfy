/** Why the overlap must outlast a walk: an edit made behind a walk, timely when it was made,
    is lost if the walk ends with a checkpoint more than the overlap ahead of it. */
module LateEdit {
  import opened Records
  import opened Protocol
  import opened Pager
  import opened Cycle
  import opened NoLostUpdate

  const ALICE := User("a", "1", "alice", "Alice A.", [], Some(true), 10 * SECOND)
  const BRUNO := User("b", "2", "bruno", "Bruno B.", [], Some(true), 100 * SECOND)
  const CLOSED := ALICE.(active := Some(false))

  const ACCOUNTS: Helppers := map[
    "a" := Helpper("1", "a", "alice", "Alice A.", true),
    "b" := Helpper("2", "b", "bruno", "Bruno B.", true)]

  const CONFIG := Config(1, 1, 25, 300 * SECOND, false)
  const START_STATE := Sys(World([ALICE, BRUNO], map["1" := "a", "2" := "b"], ACCOUNTS, 900000, 0), Idle(NO_REPORT))

  /** The state the walk leaves: the checkpoint has passed the closure by 80 seconds. */
  const END_WORLD := World(
    [CLOSED.(lastModified := 20 * SECOND), BRUNO], map["1" := "a", "2" := "b"], ACCOUNTS, 900000, 100 * SECOND)

  const EDIT := Touch("a", 20 * SECOND, CLOSED)
  const FINISH := Finish(200 * SECOND, true)

  /** The walk reads Alice as active, Alice is closed in the directory, the walk goes on to
      Bruno and is over. */
  const EVENTS := [Begin(false), ReadPage, VisitNext(NoFault), EDIT, ReadPage, VisitNext(NoFault)]

  ghost function At(n: nat): Sys
    requires n <= |EVENTS|
  {
    Run(CONFIG, START_STATE, EVENTS[..n])
  }

  lemma AtNext(n: nat)
    requires n < |EVENTS|
    ensures At(n + 1) == Next(CONFIG, At(n), EVENTS[n])
  {
    hide Next;
    assert EVENTS[..n + 1] == EVENTS[..n] + [EVENTS[n]];
    RunOne(CONFIG, START_STATE, EVENTS[..n], EVENTS[n]);
  }

  lemma MatchesBoth(users: seq<User>)
    requires |users| == 2
    ensures AllMatches(users, 0) == [0, 1]
    ensures PageIx(users, 0, 1, 1) == [0] && PageIx(users, 0, 2, 1) == [1]
  {
    assert MatchIx(users, 0, 1) == [0];
  }

  lemma WalkBegins()
    ensures At(1) == Sys(START_STATE.world, NextBegin(CONFIG, START_STATE, false).phase)
  {
    AtNext(0);
    assert EVENTS[..0] == [];
    hide NextVisit, NextReadPage, NextTouch, NextFinish;
  }

  /** A page of one record, read and applied, the record asking for nothing. */
  lemma ReadsOne(s: Sys, i: nat)
    requires Reading(s.phase) && s.phase.since == 0 && i < |s.world.users| == 2
    requires PageIx(s.world.users, 0, s.phase.pager.startIndex, 1) == [i] && AllMatches(s.world.users, 0) == [0, 1]
    ensures
      var p, r := s.phase, Rec(i, s.world.users[i]);
      Next(CONFIG, s, ReadPage) == s.(phase := p.(page := [r], pending := [r], total := 2))
  {
    hide PageIx, AllMatches, NextVisit, NextTouch, NextFinish, NextBegin;
    assert Fetch(s.world.users, [i]) == [Rec(i, s.world.users[i])];
  }

  lemma AppliesOne(s: Sys, i: nat, u: User)
    requires Visiting(s.phase) && s.phase.page == s.phase.pending == [Rec(i, u)] && s.phase.total == 2
    requires !s.phase.full && (u == ALICE || u == BRUNO) && s.world.helpers == ACCOUNTS
    requires s.phase.tally.earliest == 0 && u.lastModified > s.phase.tally.high
    requires u.id != s.phase.pager.prevFirstID && s.phase.pager.pages < 2 && s.phase.pager.maxPages in {0, 10}
    ensures
      var p, s', start := s.phase, Next(CONFIG, s, VisitNext(NoFault)), s.phase.pager.startIndex;
      && s'.world == s.world && s'.phase.Walking? && s'.phase.pending == [] && s'.phase.full == p.full
      && s'.phase.since == p.since && s'.phase.current == p.current
      && s'.phase.hist == p.hist.(log := p.hist.log + [Rec(i, u)])
      && s'.phase.tally.high == u.lastModified && s'.phase.tally.earliest == 0
      && s'.phase.done == (start + 1 > 2)
      && (start + 1 <= 2 ==> s'.phase.pager == Pager(start + 1, p.pager.pages + 1, 10, u.id))
  {}

  lemma AliceIsRead()
    ensures
      var s := At(3);
      && s.world == START_STATE.world && s.phase.Walking? && !s.phase.done && s.phase.pending == []
      && s.phase.since == s.phase.current == 0 && s.phase.pager == Pager(2, 1, 10, "a") && s.phase.full == false
      && s.phase.hist == History([ALICE, BRUNO], ACCOUNTS, [Rec(0, ALICE)], {})
      && s.phase.tally.high == 10 * SECOND && s.phase.tally.earliest == 0
  {
    hide Run, Next, At, PageIx, AllMatches;
    WalkBegins();
    AtNext(1);
    AtNext(2);
    MatchesBoth(START_STATE.world.users);
    ReadsOne(At(1), 0);
    AppliesOne(At(2), 0, ALICE);
  }

  lemma AliceIsClosed()
    ensures At(4).world == START_STATE.world.(users := [CLOSED.(lastModified := 20 * SECOND), BRUNO])
    ensures At(3).phase.Walking? && At(4).phase == At(3).phase.(hist := At(3).phase.hist.(late := {0}))
  {
    AliceIsRead();
    AtNext(3);
    hide Run;
    assert IndexOf([ALICE, BRUNO], "a") == 0;
    assert Served([Rec(0, ALICE)] + [], 0) by { assert ([Rec(0, ALICE)] + [])[0].ix == 0; }
    assert [ALICE, BRUNO][0 := CLOSED.(lastModified := 20 * SECOND)] == [CLOSED.(lastModified := 20 * SECOND), BRUNO];
  }

  lemma BrunoIsRead()
    ensures
      var s := At(6);
      && s.world == END_WORLD.(checkpoint := 0) && s.phase.Walking? && s.phase.done && s.phase.hist.late == {0}
      && s.phase.tally.high == 100 * SECOND && s.phase.tally.earliest == 0 && s.phase.current == 0 && !s.phase.full
  {
    hide Run, Next, At, PageIx, AllMatches;
    AliceIsRead();
    AliceIsClosed();
    AtNext(4);
    AtNext(5);
    MatchesBoth(At(4).world.users);
    ReadsOne(At(4), 1);
    AppliesOne(At(5), 1, BRUNO);
  }

  lemma TimelySoFar()
    ensures TimelyRun(CONFIG, START_STATE, EVENTS, {})
  {
    AliceIsRead();
    hide Run, Next;
    forall k | 0 <= k < |EVENTS| ensures Timely(CONFIG, Run(CONFIG, START_STATE, EVENTS[..k]), EVENTS[k], {}) {
      if k == 3 { assert Run(CONFIG, START_STATE, EVENTS[..3]) == At(3); }
    }
  }

  lemma WalkEnds()
    ensures Next(CONFIG, At(6), FINISH).world == END_WORLD
    ensures PassesOver(CONFIG, At(6), FINISH, 0)
  {
    hide At, Run, FinalDrift, NextVisit, NextReadPage, NextTouch, NextBegin, Failed;
    EndIsUnsound();
    BrunoIsRead();
    var s := At(6);
    assert Target(CONFIG, s.phase, 200 * SECOND) == 100 * SECOND;
    assert 0 in s.phase.hist.late && s.world.users[0].lastModified == 20 * SECOND;
  }

  lemma StartIsSound()
    ensures DistinctIds(START_STATE.world.users) && Sound(CONFIG, START_STATE.world)
  {}

  lemma EndIsUnsound()
    ensures !InView(CONFIG, END_WORLD.users[0], END_WORLD.checkpoint)
    ensures !Reconciled(END_WORLD.users[0], END_WORLD.helpers) && !Sound(CONFIG, END_WORLD)
  {
    assert !SoundAt(CONFIG, END_WORLD, 0);
  }

  /** From a sound state, every event timely until the walk ends: the closure is lost, the
      account stays enabled and no later incremental cycle asks for the record. */
  lemma LateEditIsLost()
    ensures DistinctIds(START_STATE.world.users) && Sound(CONFIG, START_STATE.world)
    ensures TimelyRun(CONFIG, START_STATE, EVENTS, {})
    ensures PassesOver(CONFIG, At(6), FINISH, 0)
    ensures
      var w := Next(CONFIG, At(6), FINISH).world;
      && !Sound(CONFIG, w) && |w.users| == 2 && !InView(CONFIG, w.users[0], w.checkpoint)
      && w.users[0].active == Some(false) && w.users[0].id in w.helpers && w.helpers[w.users[0].id].enabled
  {
    hide At, Run, TimelyRun, Next, Sound, DistinctIds, InView, Timely, PassesOver, Reconciled;
    StartIsSound();
    TimelySoFar();
    WalkEnds();
    EndIsUnsound();
  }
}
