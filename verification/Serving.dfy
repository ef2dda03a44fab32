/** What a listing comes to over the network: the requests it makes, retries included, against a
    directory that answers each with the page asked for, as the directory is by then. */
module Serving {
  import opened Records
  import opened Pager
  import opened Client
  import opened Listing
  import Retry

  /** A reply that is final is the page asked for, of the directory at that request. */
  ghost predicate Serves(w: World, film: Film, since: int) {
    forall n: nat, startIndex: int, count: nat :: ServesAt(w, film, since, n, startIndex, count)
  }

  predicate ServesAt(w: World, film: Film, since: int, n: nat, startIndex: int, count: nat) {
    !w.server(n, startIndex, count).retry ==>
      w.server(n, startIndex, count).body == Serve(film(n), since, startIndex, count)
  }

  /** Every request is answered at once. */
  ghost predicate Reliable(w: World) {
    forall n: nat, startIndex: int, count: nat :: AnsweredAt(w, n, startIndex, count)
  }

  predicate AnsweredAt(w: World, n: nat, startIndex: int, count: nat) {
    !w.stopped(n) && !w.server(n, startIndex, count).retry
  }

  // ---- one call ----

  lemma AskedIsServed(w: World, film: Film, since: int, maxRetries: int, first: nat, startIndex: int, size: nat)
    requires Serves(w, film, since) && startIndex >= 1 && size > 0
    ensures
      var (r, n) := Asked(w, maxRetries, first, startIndex, size);
      r.NoPage? || (n > 0 && r == Serve(film(first + n - 1), since, startIndex, size))
  {
    hide Retry.Attempts, Serve;
    var net := ForPage(w, startIndex, size);
    Retry.AttemptsBounded(net, maxRetries, first, 0);
    var a := Retry.Attempts(net, maxRetries, first, 0);
    if a.answer.Answered? { assert ServesAt(w, film, since, first + a.requests - 1, startIndex, size); }
  }

  lemma AskedAtOnce(w: World, maxRetries: int, first: nat, startIndex: int, size: nat)
    requires Reliable(w) && startIndex >= 1 && size > 0
    ensures Asked(w, maxRetries, first, startIndex, size) == (w.server(first, startIndex, size).body, 1)
  {
    assert AnsweredAt(w, first, startIndex, size);
    Retry.AnswersWithFirstFinal(ForPage(w, startIndex, size), maxRetries, first, 0, 0);
  }

  // ---- the calls of a walk ----

  lemma {:induction false} HeardCount(w: World, maxRetries: int, fn: Callback, size: int, k: nat)
    requires size > 0
    ensures
      var (got, n) := Heard(w, maxRetries, fn, size, k);
      |got| <= k && (Walked(fn, size, got).Running? ==> |got| == k)
  {
    hide Walked, Asked;
    if k > 0 {
      HeardCount(w, maxRetries, fn, size, k - 1);
      HeardStep(w, maxRetries, fn, size, k - 1);
    }
  }

  /** One call more: a walk under way asks for the page behind what it has read. */
  lemma HeardStep(w: World, maxRetries: int, fn: Callback, size: int, k: nat)
    requires size > 0
    ensures
      var (got, n) := Heard(w, maxRetries, fn, size, k);
      var (r, more) := Asked(w, maxRetries, n, Read(got) + 1, size);
      Heard(w, maxRetries, fn, size, k + 1)
      == if Walked(fn, size, got).Running? then (got + [r], n + more) else (got, n)
    ensures Heard(w, maxRetries, fn, size, k).1 <= Heard(w, maxRetries, fn, size, k + 1).1
  {
    hide Walked, Asked;
    var (got, n) := Heard(w, maxRetries, fn, size, k);
    if Walked(fn, size, got).Running? {
      RunningPosition(fn, size, got);
      var more: nat := Asked(w, maxRetries, n, Read(got) + 1, size).1;
    }
  }

  /** What was heard first stays heard. */
  lemma {:induction false} HeardPrefix(w: World, maxRetries: int, fn: Callback, size: int, j: nat, k: nat)
    requires size > 0 && j <= |Heard(w, maxRetries, fn, size, k).0|
    ensures j <= k && Heard(w, maxRetries, fn, size, j).0 == Heard(w, maxRetries, fn, size, k).0[..j]
    decreases k
  {
    hide Walked, Asked, Heard, Read;
    HeardCount(w, maxRetries, fn, size, k);
    var got := Heard(w, maxRetries, fn, size, k).0;
    if j == k {
      assert got[..j] == got;
    } else {
      HeardStep(w, maxRetries, fn, size, k - 1);
      HeardCount(w, maxRetries, fn, size, k - 1);
      HeardPrefix(w, maxRetries, fn, size, j, k - 1);
    }
  }

  /** The number of the request that brought page `k`. */
  function RequestOf(w: World, maxRetries: int, fn: Callback, size: int, k: nat): nat
    requires size > 0
  {
    var n := Heard(w, maxRetries, fn, size, k + 1).1;
    if n == 0 then 0 else n - 1
  }

  lemma RequestsGrow(w: World, maxRetries: int, fn: Callback, size: int, k: nat)
    requires size > 0
    ensures RequestOf(w, maxRetries, fn, size, k) <= RequestOf(w, maxRetries, fn, size, k + 1)
  {
    hide Heard, Walked, Asked, Read;
    HeardStep(w, maxRetries, fn, size, k + 1);
  }

  function AsHeard(film: Film, w: World, maxRetries: int, fn: Callback, size: int): Film
    requires size > 0
  {
    (k: nat) => film(RequestOf(w, maxRetries, fn, size, k))
  }

  lemma HeardAt(w: World, film: Film, since: int, maxRetries: int, fn: Callback, size: int, k: nat, j: nat)
    requires size > 0 && Serves(w, film, since) && j < |Heard(w, maxRetries, fn, size, k).0|
    ensures
      var got := Heard(w, maxRetries, fn, size, k).0;
      got[j].NoPage?
      || Answers(film(RequestOf(w, maxRetries, fn, size, j)), since, Walked(fn, size, got[..j]), size, got[j])
  {
    hide Walked, Asked, Heard, Read, Serve, Serves;
    var got := Heard(w, maxRetries, fn, size, k).0;
    HeardPrefix(w, maxRetries, fn, size, j, k);
    HeardPrefix(w, maxRetries, fn, size, j + 1, k);
    HeardStep(w, maxRetries, fn, size, j);
    var n := Heard(w, maxRetries, fn, size, j).1;
    if Walked(fn, size, got[..j]).Running? {
      RunningPosition(fn, size, got[..j]);
      AskedIsServed(w, film, since, maxRetries, n, Read(got[..j]) + 1, size);
      assert got[..j + 1][j] == got[j];
    }
  }

  /** A walk that no page failed has been served every page it asked for, as the directory was when
      the page came. */
  lemma HeardIsServed(w: World, film: Film, since: int, maxRetries: int, fn: Callback, size: int, k: nat)
    requires size > 0 && Serves(w, film, since)
    requires var e := Walked(fn, size, Heard(w, maxRetries, fn, size, k).0); e.Ended? ==> e.outcome != PageFailed
    ensures
      ServedFrom(AsHeard(film, w, maxRetries, fn, size), since, fn, size, Heard(w, maxRetries, fn, size, k).0)
  {
    hide Heard, Walked, Serves, Answers;
    var got := Heard(w, maxRetries, fn, size, k).0;
    var f := AsHeard(film, w, maxRetries, fn, size);
    forall j | 0 <= j < |got| ensures Answers(f(j), since, Walked(fn, size, got[..j]), size, got[j]) {
      HeardAt(w, film, since, maxRetries, fn, size, k, j);
      if got[j].NoPage? {
        NoPageEnds(fn, size, got, j);
        EndedAnswers(f(j), since, Walked(fn, size, got[..j]), size, got[j]);
      }
    }
  }

  lemma EndedAnswers(users: seq<User>, since: int, w: Walk, size: int, r: Response)
    requires size > 0 && w.Ended?
    ensures Answers(users, since, w, size, r)
  {}

  /** A page that fails ends the walk, unless it had ended. */
  lemma NoPageEnds(fn: Callback, size: int, got: seq<Response>, j: nat)
    requires size > 0 && j < |got| && got[j].NoPage?
    requires var e := Walked(fn, size, got); e.Ended? ==> e.outcome != PageFailed
    ensures Walked(fn, size, got[..j]).Ended?
  {
    assert got[..j + 1][..j] == got[..j];
    if Walked(fn, size, got[..j]).Running? { EndedStays(fn, size, got, j + 1); }
  }

  // ---- a quiet directory ----

  function Still(users: seq<User>): Film { (n: nat) => users }

  /** Against a quiet directory with distinct ids, a listing the callback accepts ends with exactly
      the matching records, once each and in order, whatever is retried; only a page that fails
      for good ends it otherwise. */
  lemma ListingIsExact(w: World, users: seq<User>, since: int, maxRetries: int, fn: Callback, size: int, k: nat)
    requires size > 0 && Serves(w, Still(users), since) && DistinctIds(users)
    requires forall n, u :: Accepting(fn, n, u)
    ensures
      var e := Walked(fn, size, Heard(w, maxRetries, fn, size, k).0);
      e.Ended? ==> e.outcome == PageFailed || (e.outcome == Completed && e.visited == Selected(users, since))
  {
    hide Heard, Walked, Serves, Selected, Accepting, DistinctIds;
    var got := Heard(w, maxRetries, fn, size, k).0;
    var e := Walked(fn, size, got);
    if e.Ended? && e.outcome != PageFailed {
      var f := AsHeard(Still(users), w, maxRetries, fn, size);
      HeardIsServed(w, Still(users), since, maxRetries, fn, size, k);
      QuietIsUntroubled(f, users, since, size, |got|);
      ExactOnSettledDirectory(f, since, fn, size, got);
    }
  }

  lemma QuietIsUntroubled(f: Film, users: seq<User>, since: int, size: int, n: nat)
    requires size > 0 && forall k: nat :: f(k) == users
    ensures Untroubled(f, since, size, n)
  {}

  /** With every request answered at once no page fails, so the listing ends well. */
  lemma ReliableNeverFails(w: World, film: Film, since: int, maxRetries: int, fn: Callback, size: int, k: nat)
    requires size > 0 && Serves(w, film, since) && Reliable(w)
    ensures var e := Walked(fn, size, Heard(w, maxRetries, fn, size, k).0); e.Ended? ==> e.outcome != PageFailed
    ensures Heard(w, maxRetries, fn, size, k).1 == |Heard(w, maxRetries, fn, size, k).0|
  {
    hide Heard, Walked, Serves, Reliable, Read, Asked;
    var (got, n) := Heard(w, maxRetries, fn, size, k);
    if k == 0 {
      HeardNothing(w, maxRetries, fn, size);
    } else {
      ReliableNeverFails(w, film, since, maxRetries, fn, size, k - 1);
      HeardStep(w, maxRetries, fn, size, k - 1);
      var (before, m) := Heard(w, maxRetries, fn, size, k - 1);
      if Walked(fn, size, before).Running? {
        AskedAtOnce(w, maxRetries, m, Read(before) + 1, size);
        PageAtOnce(w, film, since, m, Read(before) + 1, size);
        WalkedStep(fn, size, before, got[|before|]);
        FedPage(fn, size, Walked(fn, size, before), got[|before|]);
      }
    }
  }

  lemma HeardNothing(w: World, maxRetries: int, fn: Callback, size: int)
    requires size > 0
    ensures Heard(w, maxRetries, fn, size, 0) == ([], 0) && Walked(fn, size, []).Running?
  {}

  lemma PageAtOnce(w: World, film: Film, since: int, n: nat, startIndex: int, size: nat)
    requires Serves(w, film, since) && Reliable(w)
    ensures w.server(n, startIndex, size).body.Page?
  {
    assert AnsweredAt(w, n, startIndex, size) && ServesAt(w, film, since, n, startIndex, size);
  }

  lemma FedPage(fn: Callback, size: int, w: Walk, r: Response)
    requires size > 0 && w.Running? && r.Page?
    ensures var e := Feed(fn, size, w, r); e.Ended? ==> e.outcome != PageFailed
  {
    HandFails(fn, w.visited, r.resources);
    hide Hand, AfterPage;
  }

  // ---- a growing directory ----

  /** Between requests records join the directory anywhere, and are edited into the filter. */
  ghost predicate AlwaysGrowing(film: Film, moves: Moves, since: int) {
    forall n: nat :: Embeds(film(n), film(n + 1), since, moves(n))
  }

  /** Where the records of request `a` stand at request `b`. */
  function Across(film: Film, moves: Moves, a: nat, b: nat): (at: seq<nat>)
    requires a <= b
    ensures |at| == |film(a)|
    decreases b - a
  {
    if a == b then seq(|film(a)|, i => i)
    else
      var at := Across(film, moves, a, b - 1);
      seq(|at|, i requires 0 <= i < |at| => if at[i] < |moves(b - 1)| then moves(b - 1)[at[i]] else 0)
  }

  lemma {:induction false} AcrossEmbeds(film: Film, moves: Moves, since: int, a: nat, b: nat)
    requires a <= b && AlwaysGrowing(film, moves, since)
    ensures Embeds(film(a), film(b), since, Across(film, moves, a, b))
    decreases b - a
  {
    if a < b {
      AcrossEmbeds(film, moves, since, a, b - 1);
      assert Embeds(film(b - 1), film(b), since, moves(b - 1));
    }
  }

  lemma {:induction false} PlaceAcross(film: Film, moves: Moves, since: int, i: nat, a: nat, b: nat)
    requires a <= b && AlwaysGrowing(film, moves, since) && Place(moves, i, a) < |film(a)|
    ensures Place(moves, i, b) < |film(b)| && Across(film, moves, a, b)[Place(moves, i, a)] == Place(moves, i, b)
    decreases b - a
  {
    AcrossEmbeds(film, moves, since, a, b);
    if a < b {
      PlaceAcross(film, moves, since, i, a, b - 1);
      AcrossEmbeds(film, moves, since, a, b - 1);
      assert Embeds(film(b - 1), film(b), since, moves(b - 1));
    }
  }

  function MovesAsHeard(film: Film, moves: Moves, w: World, maxRetries: int, fn: Callback, size: int): Moves
    requires size > 0
  {
    (k: nat) =>
      var a, b := RequestOf(w, maxRetries, fn, size, k), RequestOf(w, maxRetries, fn, size, k + 1);
      if a <= b then Across(film, moves, a, b) else []
  }

  lemma PlaceNext(moves: Moves, i: nat, n: nat)
    requires n > 0 && Place(moves, i, n - 1) < |moves(n - 1)|
    ensures Place(moves, i, n) == moves(n - 1)[Place(moves, i, n - 1)]
  {}

  lemma MovesAt(film: Film, moves: Moves, w: World, maxRetries: int, fn: Callback, size: int, k: nat)
    requires size > 0
    ensures
      var a, b := RequestOf(w, maxRetries, fn, size, k), RequestOf(w, maxRetries, fn, size, k + 1);
      a <= b && MovesAsHeard(film, moves, w, maxRetries, fn, size)(k) == Across(film, moves, a, b)
  {
    hide RequestOf;
    RequestsGrow(w, maxRetries, fn, size, k);
  }

  lemma {:induction false} PlaceAsHeard(
    film: Film, moves: Moves, since: int, w: World, maxRetries: int, fn: Callback, size: int, i: nat, k: nat)
    requires size > 0 && AlwaysGrowing(film, moves, since) && i < |film(0)|
    ensures
      var at0, at := RequestOf(w, maxRetries, fn, size, 0), RequestOf(w, maxRetries, fn, size, k);
      && Place(moves, i, at) < |film(at)|
      && Place(MovesAsHeard(film, moves, w, maxRetries, fn, size), Place(moves, i, at0), k) == Place(moves, i, at)
  {
    hide RequestOf, Across, AlwaysGrowing, MovesAsHeard, Place;
    var at0, at := RequestOf(w, maxRetries, fn, size, 0), RequestOf(w, maxRetries, fn, size, k);
    var g := MovesAsHeard(film, moves, w, maxRetries, fn, size);
    PlaceFromStart(film, moves, since, i, at);
    if k == 0 {
      PlaceAtStart(g, Place(moves, i, at0));
    } else {
      PlaceAsHeard(film, moves, since, w, maxRetries, fn, size, i, k - 1);
      MovesAt(film, moves, w, maxRetries, fn, size, k - 1);
      PlaceAcross(film, moves, since, i, RequestOf(w, maxRetries, fn, size, k - 1), at);
      PlaceNext(g, Place(moves, i, at0), k);
    }
  }

  lemma PlaceAtStart(moves: Moves, i: nat)
    ensures Place(moves, i, 0) == i
  {}

  lemma PlaceFromStart(film: Film, moves: Moves, since: int, i: nat, n: nat)
    requires AlwaysGrowing(film, moves, since) && i < |film(0)|
    ensures Place(moves, i, n) < |film(n)|
    ensures Matches(film(0)[i], since) ==> Matches(film(n)[Place(moves, i, n)], since)
  {
    PlaceAcross(film, moves, since, i, 0, n);
    AcrossEmbeds(film, moves, since, 0, n);
  }

  /** Against a directory that grows from request to request, a listing that ends well has handed
      every record that matched when it began to the callback, in some state the record had. */
  lemma ListingIsComplete(
    w: World, film: Film, moves: Moves, since: int, maxRetries: int, fn: Callback, size: int, k: nat, i: nat)
    requires size > 0 && Serves(w, film, since) && AlwaysGrowing(film, moves, since)
    requires i < |film(0)| && Matches(film(0)[i], since)
    requires var e := Walked(fn, size, Heard(w, maxRetries, fn, size, k).0); e.Ended? && e.outcome == Completed
    ensures
      var v := Walked(fn, size, Heard(w, maxRetries, fn, size, k).0).visited;
      exists n: nat :: Place(moves, i, n) < |film(n)| && film(n)[Place(moves, i, n)] in v
  {
    hide Heard, Walked, Serves, RequestOf, Across, AlwaysGrowing, Place, Embeds, Matches, MovesAsHeard, ServedFrom;
    var got := Heard(w, maxRetries, fn, size, k).0;
    var f, g := AsHeard(film, w, maxRetries, fn, size), MovesAsHeard(film, moves, w, maxRetries, fn, size);
    var at0 := RequestOf(w, maxRetries, fn, size, 0);
    var i0 := Place(moves, i, at0);
    HeardIsServed(w, film, since, maxRetries, fn, size, k);
    forall j | 0 <= j < |got| ensures Embeds(f(j), f(j + 1), since, g(j)) {
      MovesAt(film, moves, w, maxRetries, fn, size, j);
      AcrossEmbeds(
        film, moves, since, RequestOf(w, maxRetries, fn, size, j), RequestOf(w, maxRetries, fn, size, j + 1));
    }
    PlaceFromStart(film, moves, since, i, at0);
    CompleteOnGrowingDirectory(f, g, since, fn, size, got, i0);
    var j :| 0 <= j < |got| && Place(g, i0, j) < |f(j)| && f(j)[Place(g, i0, j)] in Walked(fn, size, got).visited;
    PlaceAsHeard(film, moves, since, w, maxRetries, fn, size, i, j);
    var n := RequestOf(w, maxRetries, fn, size, j);
    assert f(j) == film(n) && Place(g, i0, j) == Place(moves, i, n);
  }
}
