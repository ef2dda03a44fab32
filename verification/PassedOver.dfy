/** Exactly when an update is lost: when a walk that was not told of it takes the checkpoint past
    it. */
module PassedOver {
  import opened Records
  import opened Protocol
  import opened Cycle
  import opened NoLostUpdate
  import Frontier

  /** A walk that has gone through and whose checkpoint is stored leaves all records outside `x`
      sound exactly when it passes over none of them. */
  lemma FinishSoundIff(c: Config, s: Sys, now: int, x: set<nat>)
    requires c.overlap > 0 && Inv(c, s, x) && s.phase.Walking? && s.phase.done
    ensures
      SoundExcept(c, NextFinish(c, s, now, true).world, x)
      <==> forall i: nat :: i !in x ==> !PassesOver(c, s, Finish(now, true), i)
  {
    hide WalkInv, DistinctIds, FinalDrift, Target, Reconciled, InView;
    var w' := s.world.(checkpoint := Target(c, s.phase, now));
    AnchoredWalk(c, s, x);
    forall i: nat | i < |s.world.users| && i !in x
      ensures SoundAt(c, w', i) <==> !PassesOver(c, s, Finish(now, true), i)
    {
      if !PassesOver(c, s, Finish(now, true), i) { FinishedRecord(c, s, now, i, x); }
    }
    assert forall i: nat :: PassesOver(c, s, Finish(now, true), i) ==> i < |s.world.users|;
  }

  lemma AnchoredWalk(c: Config, s: Sys, x: set<nat>)
    requires Inv(c, s, x) && s.phase.Walking?
    ensures s.phase.current == s.world.checkpoint
  {}

  // ---- one record, over a run ----

  /** Record `i` is edited within view; other edits only leave walks under way their records. */
  ghost predicate EditsInView(c: Config, s: Sys, e: Event, i: nat) {
    && KeepsFilter(s, e)
    && (Edits(s, e) && IndexOf(s.world.users, e.id) == i ==> Reaches(c, e.at, s.world.checkpoint))
  }

  ghost predicate EditsInViewRun(c: Config, s: Sys, es: seq<Event>, i: nat)
    requires c.pageSize > 0
  {
    forall k :: 0 <= k < |es| ==> EditsInView(c, Run(c, s, es[..k]), es[k], i)
  }

  ghost predicate NotLost(c: Config, w: World, i: nat) { i < |w.users| && SoundAt(c, w, i) }

  /** Some event of the run passes over the record. */
  ghost predicate IsPassedOver(c: Config, s: Sys, es: seq<Event>, i: nat)
    requires c.pageSize > 0
  {
    exists k :: 0 <= k < |es| && PassesOver(c, Run(c, s, es[..k]), es[k], i)
  }

  function Others(n: nat, i: nat): (x: set<nat>)
    ensures forall j: nat :: j in x <==> j < n && j != i
  {
    if n == 0 then {} else Others(n - 1, i) + (if n - 1 == i then {} else {n - 1})
  }

  lemma NeverPassedOver(c: Config, s: Sys, es: seq<Event>, i: nat)
    requires c.pageSize > 0 && c.overlap > 0 && !c.dryRun
    requires s.phase.Idle? && DistinctIds(s.world.users) && NotLost(c, s.world, i)
    requires EditsInViewRun(c, s, es, i) && !IsPassedOver(c, s, es, i)
    ensures NotLost(c, Run(c, s, es).world, i)
  {
    hide Run, PassesOver, KeepsFilter, SoundAt, DistinctIds, Reaches;
    EditsKeepFilter(c, s, es, i);
    var n := |s.world.users|;
    var x := Others(n, i);
    forall k | 0 <= k < |es| ensures Timely(c, Run(c, s, es[..k]), es[k], x) {
      assert forall j :: 0 <= j < k ==> es[..k][..j] == es[..j];
      RunKeepsIds(c, s, es[..k]);
      assert EditsInView(c, Run(c, s, es[..k]), es[k], i);
      forall j: nat | j !in x ensures !PassesOver(c, Run(c, s, es[..k]), es[k], j) {
        if j >= n { BeyondAll(c, Run(c, s, es[..k]), es[k], j); }
      }
    }
    NoneElseIsLost(c, s, es, x);
    RunKeepsIds(c, s, es);
  }

  lemma EditsKeepFilter(c: Config, s: Sys, es: seq<Event>, i: nat)
    requires c.pageSize > 0 && EditsInViewRun(c, s, es, i)
    ensures KeepsFilterRun(c, s, es)
  {
    hide Run, KeepsFilter;
    forall k | 0 <= k < |es| ensures KeepsFilter(Run(c, s, es[..k]), es[k]) {
      assert EditsInView(c, Run(c, s, es[..k]), es[k], i);
    }
  }

  lemma BeyondAll(c: Config, s: Sys, e: Event, j: nat)
    requires j >= |s.world.users|
    ensures !PassesOver(c, s, e, j)
  {}

  /** A record passed over is lost there and then. */
  lemma PassedOverIsLost(c: Config, s: Sys, e: Event, i: nat)
    requires c.pageSize > 0 && Frontier.Anchored(s) && PassesOver(c, s, e, i)
    ensures !NotLost(c, Next(c, s, e).world, i)
  {
    hide FinalDrift, Reconciled, InView;
  }

  /** The exact condition, for every record and every run: while the record is edited within view,
      it is never lost if and only if no walk passes over it; whatever happens to the others. */
  lemma NeverLostIff(c: Config, s: Sys, es: seq<Event>, i: nat)
    requires c.pageSize > 0 && c.overlap > 0 && !c.dryRun
    requires s.phase.Idle? && DistinctIds(s.world.users) && NotLost(c, s.world, i)
    requires EditsInViewRun(c, s, es, i)
    ensures
      (forall k :: 0 <= k <= |es| ==> NotLost(c, Run(c, s, es[..k]).world, i)) <==> !IsPassedOver(c, s, es, i)
  {
    hide Next, PassesOver, EditsInView, NotLost, DistinctIds;
    if !IsPassedOver(c, s, es, i) {
      forall k | 0 <= k <= |es| ensures NotLost(c, Run(c, s, es[..k]).world, i) {
        assert forall j :: 0 <= j < k ==> es[..k][..j] == es[..j];
        NeverPassedOver(c, s, es[..k], i);
      }
    } else {
      var k :| 0 <= k < |es| && PassesOver(c, Run(c, s, es[..k]), es[k], i);
      Frontier.NeverRetreats(c, s, es[..k]);
      PassedOverIsLost(c, Run(c, s, es[..k]), es[k], i);
      assert es[..k + 1][..k] == es[..k];
      assert !NotLost(c, Run(c, s, es[..k + 1]).world, i);
    }
  }
}
