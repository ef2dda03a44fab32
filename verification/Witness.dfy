/** Accounts change only on an explicit record: absence and unusable records never
    disable anybody. */
module Witness {
  import opened Records
  import opened Protocol
  import opened Cycle
  import opened Pager
  import opened Effects
  import opened Snapshot

  /** Event `k` of the run applies the usable record `u`. */
  ghost predicate Applies(c: Config, s: Sys, es: seq<Event>, k: nat, u: User)
    requires c.pageSize > 0
  {
    && k < |es| && es[k].VisitNext?
    && var p := Run(c, s, es[..k]).phase; Visiting(p) && p.pending[0].user == u && Usable(u)
  }

  /** The directory held `u` when event `m` of the run read a page. */
  ghost predicate WasRead(c: Config, s: Sys, es: seq<Event>, m: nat, u: User)
    requires c.pageSize > 0
  {
    m < |es| && es[m].ReadPage? && u in Run(c, s, es[..m]).world.users
  }

  /** One step leaves account `d` alone, or applies a usable record of that id and leaves
      the account as that record asks. */
  lemma StepWitness(c: Config, s: Sys, e: Event, d: string)
    requires c.pageSize > 0
    requires Get(Next(c, s, e).world.helpers, d) != Get(s.world.helpers, d)
    ensures e.VisitNext? && Visiting(s.phase)
    ensures
      var u := s.phase.pending[0].user;
      && Usable(u) && u.id == d && Agrees(u, Next(c, s, e).world.helpers)
      && (d in s.world.helpers ==>
            d in Next(c, s, e).world.helpers && Next(c, s, e).world.helpers[d].id == s.world.helpers[d].id)
      && (d !in s.world.helpers ==> u.active == Some(true))
  {
    hide Visit, AfterPage, FinalDrift, PrimaryEmail, Validate, InState;
    if e.VisitNext? && Visiting(s.phase) {
      var p := s.phase;
      if c.dryRun { DryVisit(c, p.full, s.world, p.tally, p.pending[0].user, e.fault); }
      else { VisitConfined(c, p.full, s.world, p.tally, p.pending[0].user, e.fault); }
    }
  }

  /** The last change of account `d`: event `k` applied `u`, and the account has been as
      it was then ever since. */
  ghost predicate LastChange(c: Config, s: Sys, es: seq<Event>, d: string, k: nat, u: User)
    requires c.pageSize > 0
  {
    && Applies(c, s, es, k, u) && u.id == d
    && var h := Run(c, s, es[..k + 1]).world.helpers;
      Agrees(u, h) && Get(Run(c, s, es).world.helpers, d) == Get(h, d)
  }

  lemma {:induction false} ChangeHasWitness(c: Config, s: Sys, es: seq<Event>, d: string)
    returns (k: nat, u: User)
    requires c.pageSize > 0
    requires Get(Run(c, s, es).world.helpers, d) != Get(s.world.helpers, d)
    ensures LastChange(c, s, es, d, k, u)
  {
    hide Next, Agrees;
    var n := |es| - 1;
    var r := Run(c, s, es[..n]);
    if Get(Run(c, s, es).world.helpers, d) == Get(r.world.helpers, d) {
      k, u := ChangeHasWitness(c, s, es[..n], d);
      assert es[..n][..k] == es[..k] && es[..n][..k + 1] == es[..k + 1];
    } else {
      StepWitness(c, r, es[n], d);
      k, u := n, r.phase.pending[0].user;
      assert es[..n + 1] == es;
    }
  }

  /** Whatever waits on a page was read from the directory earlier in the run. */
  lemma {:induction false} PendingWasRead(c: Config, s: Sys, es: seq<Event>, r: Rec) returns (m: nat)
    requires c.pageSize > 0 && s.phase.Idle?
    requires var p := Run(c, s, es).phase; p.Walking? && r in p.pending
    ensures WasRead(c, s, es, m, r.user)
  {
    hide Visit, AfterPage, Remember, FinalDrift;
    var n := |es| - 1;
    var q := Run(c, s, es[..n]);
    if q.phase.Walking? && r in q.phase.pending {
      m := PendingWasRead(c, s, es[..n], r);
      assert es[..n][..m] == es[..m];
    } else {
      m := n;
    }
  }

  /** An account goes from enabled to disabled only because a usable record with its id
      and active=false was read from the directory and applied. */
  lemma DisabledByWitness(c: Config, s: Sys, es: seq<Event>, d: string) returns (k: nat, m: nat, u: User)
    requires c.pageSize > 0 && s.phase.Idle?
    requires d in s.world.helpers && s.world.helpers[d].enabled
    requires var h := Run(c, s, es).world.helpers; d in h ==> !h[d].enabled
    ensures Applies(c, s, es, k, u) && WasRead(c, s, es[..k], m, u) && u.id == d && u.active == Some(false)
    ensures d in Run(c, s, es).world.helpers && Run(c, s, es).world.helpers[d].id == s.world.helpers[d].id
  {
    hide Next, PrimaryEmail, Validate;
    AccountsStay(c, s, es, d);
    k, u := ChangeHasWitness(c, s, es, d);
    m := PendingWasRead(c, s, es[..k], Run(c, s, es[..k]).phase.pending[0]);
  }

  /** No account is ever dropped or given another id. */
  lemma {:induction false} AccountsStay(c: Config, s: Sys, es: seq<Event>, d: string)
    requires c.pageSize > 0 && d in s.world.helpers
    ensures d in Run(c, s, es).world.helpers && Run(c, s, es).world.helpers[d].id == s.world.helpers[d].id
  {
    hide Next, Agrees, Usable;
    if es != [] {
      var n := |es| - 1;
      var r := Run(c, s, es[..n]);
      AccountsStay(c, s, es[..n], d);
      if Get(Run(c, s, es).world.helpers, d) != Get(r.world.helpers, d) { StepWitness(c, r, es[n], d); }
    }
  }

  /** An account comes into being only on an active usable record read from the directory. */
  lemma {:induction false} CreatedByWitness(c: Config, s: Sys, es: seq<Event>, d: string)
    returns (k: nat, m: nat, u: User)
    requires c.pageSize > 0 && s.phase.Idle?
    requires d !in s.world.helpers && d in Run(c, s, es).world.helpers
    ensures Applies(c, s, es, k, u) && WasRead(c, s, es[..k], m, u) && u.id == d && u.active == Some(true)
  {
    hide Next, Agrees;
    var n := |es| - 1;
    var r := Run(c, s, es[..n]);
    if d in r.world.helpers {
      k, m, u := CreatedByWitness(c, s, es[..n], d);
      assert es[..n][..k] == es[..k];
    } else {
      StepWitness(c, r, es[n], d);
      k, u := n, r.phase.pending[0].user;
      m := PendingWasRead(c, s, es[..k], r.phase.pending[0]);
    }
  }
}
