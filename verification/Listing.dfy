/** The page walk over the fake directory while the directory changes between pages. */
module Listing {
  import opened Records
  import opened Pager
  import opened Client

  /** A directory state, one for every page read. */
  type Film = nat -> seq<User>

  /** The page the directory serves. */
  function Serve(users: seq<User>, since: int, startIndex: int, count: nat): (r: Response)
    ensures r.Page?
  {
    var ix := PageIx(users, since, startIndex, count);
    Page(|AllMatches(users, since)|, seq(|ix|, k requires 0 <= k < |ix| => Some(users[ix[k]])))
  }

  /** Every response is the page the walk asks for, of the directory as it is by then. */
  ghost predicate ServedFrom(film: Film, since: int, fn: Callback, size: int, got: seq<Response>)
    requires size > 0
  {
    forall k :: 0 <= k < |got| ==> Answers(film(k), since, Walked(fn, size, got[..k]), size, got[k])
  }

  predicate Answers(users: seq<User>, since: int, w: Walk, size: int, r: Response)
    requires size > 0
  {
    w.Running? ==> r == Serve(users, since, w.pager.startIndex, size)
  }

  lemma ServedPrefix(film: Film, since: int, fn: Callback, size: int, got: seq<Response>)
    requires size > 0 && got != [] && ServedFrom(film, since, fn, size, got)
    ensures ServedFrom(film, since, fn, size, got[..|got| - 1])
    ensures Answers(film(|got| - 1), since, Walked(fn, size, got[..|got| - 1]), size, got[|got| - 1])
  {
    hide Walked, Answers;
    var n := |got| - 1;
    assert forall k :: 0 <= k < n ==> got[..n][..k] == got[..k];
  }

  /** A page handed over without a failure has been visited record by record. */
  lemma {:induction false} HandedOver(fn: Callback, visited: seq<User>, resources: seq<Option<User>>)
    requires Hand(fn, visited, resources).1 == None
    ensures
      var v := Hand(fn, visited, resources).0;
      && |v| == |visited| + |resources| && v[..|visited|] == visited
      && forall k :: 0 <= k < |resources| ==> resources[k] == Some(v[|visited| + k])
    decreases resources
  {
    if resources != [] {
      var u := resources[0].value;
      HandedOver(fn, visited + [u], resources[1..]);
      var v := Hand(fn, visited, resources).0;
      assert v[..|visited|] == v[..|visited| + 1][..|visited|];
      assert v[|visited|] == v[..|visited| + 1][|visited|];
      forall k | 0 <= k < |resources| ensures resources[k] == Some(v[|visited| + k]) {
        if k > 0 { assert resources[k] == resources[1..][k - 1]; }
      }
    }
  }

  // ---- a growing directory ----

  /** Where the records of one state of the directory stand in the next. */
  type Moves = nat -> seq<nat>

  /** Between page reads records join the directory anywhere, and are edited; none leaves it,
      changes places with another or falls out of the filter. */
  ghost predicate Growing(film: Film, moves: Moves, since: int, n: nat) {
    forall k :: 0 <= k < n ==> Embeds(film(k), film(k + 1), since, moves(k))
  }

  /** Where the record that stood at `i` when the walk began stands when page `n` is read. */
  function Place(moves: Moves, i: nat, n: nat): nat {
    if n == 0 then i
    else
      var p := Place(moves, i, n - 1);
      if p < |moves(n - 1)| then moves(n - 1)[p] else 0
  }

  /** Some state the record had when a page was read was handed to the callback. */
  ghost predicate Seen(film: Film, moves: Moves, n: nat, i: nat, visited: seq<User>) {
    exists k :: 0 <= k < n && Place(moves, i, k) < |film(k)| && film(k)[Place(moves, i, k)] in visited
  }

  lemma SeenLater(film: Film, moves: Moves, n: nat, i: nat, visited: seq<User>, later: seq<User>)
    requires Seen(film, moves, n, i, visited) && |visited| <= |later| && later[..|visited|] == visited
    ensures Seen(film, moves, n + 1, i, later)
  {
    hide Place;
    var k :| 0 <= k < n && Place(moves, i, k) < |film(k)| && film(k)[Place(moves, i, k)] in visited;
    var u := film(k)[Place(moves, i, k)];
    var j :| 0 <= j < |visited| && visited[j] == u;
    assert later[j] == later[..|visited|][j];
    assert u in later;
  }

  /** What the walk owes the record: it has been seen, or it stands ahead. */
  ghost predicate Owed(film: Film, moves: Moves, since: int, n: nat, i: nat, w: Walk) {
    var p := Place(moves, i, n);
    && p < |film(n)| && Matches(film(n)[p], since)
    && (Seen(film, moves, n, i, w.visited) ||
        match w
        case Running(pager, _) => pager.startIndex >= 1 && Rank(film(n), since, p) >= pager.startIndex - 1
        case Ended(o, _) => o != Completed)
  }

  /** One page more, then the directory grows. */
  lemma OwedStep(film: Film, moves: Moves, since: int, fn: Callback, size: int, n: nat, i: nat, w: Walk)
    requires size > 0 && w.Running? && Owed(film, moves, since, n, i, w)
    requires Embeds(film(n), film(n + 1), since, moves(n))
    ensures
      Owed(film, moves, since, n + 1, i, Feed(fn, size, w, Serve(film(n), since, w.pager.startIndex, size)))
  {
    hide Rank, AllMatches, Seen, Hand, Serve, PageIx;
    var p := Place(moves, i, n);
    assert Place(moves, i, n + 1) == moves(n)[p];
    var r := Serve(film(n), since, w.pager.startIndex, size);
    RankEmbeds(film(n), film(n + 1), since, moves(n), p);
    hide Place, Embeds;
    var w' := Feed(fn, size, w, r);
    if Seen(film, moves, n, i, w.visited) {
      VisitedGrows(fn, size, w, r);
      SeenLater(film, moves, n, i, w.visited, w'.visited);
    } else {
      OnPageOrAhead(film, moves, since, fn, size, n, i, w);
    }
  }

  /** Nothing visited is forgotten. */
  lemma VisitedGrows(fn: Callback, size: int, w: Walk, r: Response)
    requires size > 0
    ensures var v := Feed(fn, size, w, r).visited; |w.visited| <= |v| && v[..|w.visited|] == w.visited
  {
    hide AfterPage, Hand;
    if w.Running? && r.Page? { HandAdds(fn, w.visited, r.resources); }
  }

  lemma {:induction false} HandAdds(fn: Callback, visited: seq<User>, resources: seq<Option<User>>)
    ensures
      var v := Hand(fn, visited, resources).0; |visited| <= |v| && v[..|visited|] == visited
    decreases resources
  {
    if resources != [] && resources[0].Some? && fn(|visited|, resources[0].value) {
      HandAdds(fn, visited + [resources[0].value], resources[1..]);
      var v := Hand(fn, visited, resources).0;
      assert v[..|visited|] == v[..|visited| + 1][..|visited|];
    }
  }

  lemma {:induction false} HandedSome(fn: Callback, visited: seq<User>, resources: seq<Option<User>>)
    ensures Hand(fn, visited, resources).1 != Some(Completed)
    decreases resources
  {
    if resources != [] && resources[0].Some? && fn(|visited|, resources[0].value) {
      HandedSome(fn, visited + [resources[0].value], resources[1..]);
    }
  }

  /** An unseen record is on the page at hand, or beyond it on a full page that is not the last. */
  lemma OnOrBeyond(users: seq<User>, since: int, startIndex: int, size: nat, p: nat)
    requires startIndex >= 1 && p < |users| && Matches(users[p], since) && Rank(users, since, p) >= startIndex - 1
    ensures
      var r := Serve(users, since, startIndex, size);
      (exists k :: 0 <= k < |r.resources| && r.resources[k] == Some(users[p]))
      || (|r.resources| == size && r.total >= startIndex + size && Rank(users, since, p) >= startIndex - 1 + size)
  {
    hide PageIx, AllMatches, Rank;
    var ix := PageIx(users, since, startIndex, size);
    if p in ix {
      var k :| 0 <= k < |ix| && ix[k] == p;
      assert Serve(users, since, startIndex, size).resources[k] == Some(users[ix[k]]);
    } else {
      BeyondThePage(users, since, startIndex, size, p);
    }
  }

  /** So once the page has been fed to a walk, the record has been visited, stands ahead of the
      walk, or the walk has failed. */
  lemma OnPageOrAhead(
    film: Film, moves: Moves, since: int, fn: Callback, size: int, n: nat, i: nat, w: Walk)
    requires size > 0 && w.Running? && w.pager.startIndex >= 1
    requires Place(moves, i, n) < |film(n)| && Matches(film(n)[Place(moves, i, n)], since)
    requires Rank(film(n), since, Place(moves, i, n)) >= w.pager.startIndex - 1
    ensures
      var w' := Feed(fn, size, w, Serve(film(n), since, w.pager.startIndex, size));
      Seen(film, moves, n + 1, i, w'.visited) ||
      match w'
      case Running(pager, _) =>
        pager.startIndex >= 1 && Rank(film(n), since, Place(moves, i, n)) >= pager.startIndex - 1
      case Ended(o, _) => o != Completed
  {
    hide Place, Rank, Matches, Serve, Hand;
    var p, r := Place(moves, i, n), Serve(film(n), since, w.pager.startIndex, size);
    OnOrBeyond(film(n), since, w.pager.startIndex, size, p);
    if Hand(fn, w.visited, r.resources).1 == None {
      HandedOver(fn, w.visited, r.resources);
      if k :| 0 <= k < |r.resources| && r.resources[k] == Some(film(n)[p]) {
        var v := Hand(fn, w.visited, r.resources).0;
        assert v[|w.visited| + k] == film(n)[p];
        assert film(n)[p] in v;
      }
    } else {
      HandedSome(fn, w.visited, r.resources);
    }
  }

  lemma {:induction false} OwedAlong(
    film: Film, moves: Moves, since: int, fn: Callback, size: int, got: seq<Response>, i: nat)
    requires size > 0 && ServedFrom(film, since, fn, size, got) && Growing(film, moves, since, |got|)
    requires i < |film(0)| && Matches(film(0)[i], since)
    ensures
      var w := Walked(fn, size, got);
      w.Running? || w.outcome == Completed ==> exists n :: 0 <= n <= |got| && Owed(film, moves, since, n, i, w)
    ensures Walked(fn, size, got).Running? ==> Owed(film, moves, since, |got|, i, Walked(fn, size, got))
  {
    if got == [] {
      assert Owed(film, moves, since, 0, i, Walked(fn, size, got));
    } else {
      hide Owed, Walked, Embeds;
      var n := |got| - 1;
      ServedPrefix(film, since, fn, size, got);
      OwedAlong(film, moves, since, fn, size, got[..n], i);
      var w := Walked(fn, size, got[..n]);
      WalkedLast(fn, size, got);
      if w.Running? { OwedStep(film, moves, since, fn, size, n, i, w); }
    }
  }

  lemma WalkedLast(fn: Callback, size: int, got: seq<Response>)
    requires size > 0 && got != []
    ensures Walked(fn, size, got) == Feed(fn, size, Walked(fn, size, got[..|got| - 1]), got[|got| - 1])
    ensures Walked(fn, size, got[..|got| - 1]).Ended? ==> Walked(fn, size, got) == Walked(fn, size, got[..|got| - 1])
  {}

  /** Completeness on a moving directory: records may join it anywhere between page reads, and
      others be edited into the filter; a listing that ends well has handed every record that
      matched at the start to the callback. */
  lemma CompleteOnGrowingDirectory(
    film: Film, moves: Moves, since: int, fn: Callback, size: int, got: seq<Response>, i: nat)
    requires size > 0 && ServedFrom(film, since, fn, size, got) && Growing(film, moves, since, |got|)
    requires i < |film(0)| && Matches(film(0)[i], since)
    requires Walked(fn, size, got).Ended? && Walked(fn, size, got).outcome == Completed
    ensures Seen(film, moves, |got|, i, Walked(fn, size, got).visited)
  {
    hide Walked, Embeds, Rank, Matches, Place;
    OwedAlong(film, moves, since, fn, size, got, i);
    var w := Walked(fn, size, got);
    var n :| 0 <= n <= |got| && Owed(film, moves, since, n, i, w);
    var k :| 0 <= k < n && Place(moves, i, k) < |film(k)| && film(k)[Place(moves, i, k)] in w.visited;
  }

  // ---- a directory only the walk itself writes to ----

  /** The same records match throughout, and when page `k` is read the records from its
      start on are still what they were; a write-back of a record already handed over
      keeps to that. */
  ghost predicate Untroubled(film: Film, since: int, size: int, n: nat)
    requires size > 0
  {
    forall k :: 0 <= k < n ==> Ahead(film, since, size, k)
  }

  ghost predicate Ahead(film: Film, since: int, size: int, k: nat)
    requires size > 0
  {
    var m := AllMatches(film(0), since);
    && |film(k)| == |film(0)| && AllMatches(film(k), since) == m
    && forall j :: Offset(k, size) <= j < |m| ==> film(k)[m[j]] == film(0)[m[j]]
  }

  predicate Accepting(fn: Callback, n: nat, u: User) { fn(n, u) }

  /** As far as it has come, the walk has visited the snapshot's first pages in order. */
  ghost predicate InOrder(snap: seq<User>, size: int, n: nat, w: Walk)
    requires size > 0
  {
    match w
    case Running(p, visited) =>
      OnTrack(size, p, snap) && p.pages == n && p.startIndex >= 1 && |snap| >= p.startIndex - 1
      && visited == snap[..p.startIndex - 1]
    case Ended(o, visited) => o == Completed && visited == snap
  }

  lemma {:induction false} HandedAll(fn: Callback, visited: seq<User>, resources: seq<Option<User>>)
    requires forall n, u :: Accepting(fn, n, u)
    requires forall k :: 0 <= k < |resources| ==> resources[k].Some?
    ensures Hand(fn, visited, resources).1 == None
    decreases resources
  {
    if resources != [] {
      assert Accepting(fn, |visited|, resources[0].value);
      HandedAll(fn, visited + [resources[0].value], resources[1..]);
    }
  }

  /** Page `n` of the snapshot, as served. */
  lemma ServedSlice(film: Film, since: int, size: int, n: nat, p: Pager)
    requires size > 0 && Ahead(film, since, size, n) && p.startIndex - 1 == Offset(n, size)
    ensures
      var snap, r, at := Selected(film(0), since), Serve(film(n), since, p.startIndex, size), p.startIndex - 1;
      && r.total == |snap|
      && |r.resources| == (if at >= |snap| then 0 else if |snap| - at > size then size else |snap| - at)
      && forall k :: 0 <= k < |r.resources| ==> r.resources[k] == Some(snap[at + k])
  {
    PageSlice(film(n), since, p.startIndex, size);
    hide PageIx, Offset;
  }

  lemma HandedSlice(fn: Callback, snap: seq<User>, at: nat, resources: seq<Option<User>>)
    requires forall n, u :: Accepting(fn, n, u)
    requires at + |resources| <= |snap|
    requires forall k :: 0 <= k < |resources| ==> resources[k] == Some(snap[at + k])
    ensures Hand(fn, snap[..at], resources) == (snap[..at + |resources|], None)
  {
    hide Hand, Accepting;
    HandedAll(fn, snap[..at], resources);
    HandedOver(fn, snap[..at], resources);
    var v := Hand(fn, snap[..at], resources).0;
    forall j | 0 <= j < |v| ensures v[j] == snap[j] {
      if j < at { assert v[j] == v[..at][j]; } else { assert resources[j - at] == Some(v[at + (j - at)]); }
    }
    assert v == snap[..at + |resources|];
  }

  lemma InOrderStep(film: Film, since: int, fn: Callback, size: int, n: nat, w: Walk)
    requires size > 0 && Ahead(film, since, size, n) && w.Running? && DistinctIds(film(0))
    requires forall n, u :: Accepting(fn, n, u)
    requires InOrder(Selected(film(0), since), size, n, w)
    ensures
      InOrder(Selected(film(0), since), size, n + 1,
              Feed(fn, size, w, Serve(film(n), since, w.pager.startIndex, size)))
  {
    hide Ahead, Selected, Offset, AfterPage, Serve, DistinctIds, Hand, Accepting;
    var snap, p, at := Selected(film(0), since), w.pager, w.pager.startIndex - 1;
    var r := Serve(film(n), since, p.startIndex, size);
    ServedSlice(film, since, size, n, p);
    if r.resources != [] {
      HandedSlice(fn, snap, at, r.resources);
      var end := at + |r.resources|;
      SelectedDistinct(film(0), since);
      PageBoundary(size, p, snap, end);
      PageCounted(p, size, r.total, FirstId(r.resources), |r.resources|);
      assert snap[..|snap|] == snap;
    } else {
      assert snap[..at] == snap;
    }
  }

  lemma PageCounted(p: Pager, size: int, total: int, firstID: string, n: nat)
    requires size > 0
    ensures var v := AfterPage(p, size, total, firstID, n); v.More? ==> v.next.pages == p.pages + 1
  {}

  /** If the only changes are the walk's own, it visits exactly the starting snapshot, once
      each, in order; no guard trips. */
  lemma {:induction false} ExactOnSettledDirectory(film: Film, since: int, fn: Callback, size: int, got: seq<Response>)
    requires size > 0 && ServedFrom(film, since, fn, size, got) && Untroubled(film, since, size, |got|)
    requires DistinctIds(film(0)) && forall n, u :: Accepting(fn, n, u)
    ensures InOrder(Selected(film(0), since), size, |got|, Walked(fn, size, got))
  {
    hide Ahead, Selected, InOrder, DistinctIds;
    if got == [] {
      StartInOrder(Selected(film(0), since), size, fn);
    } else {
      var n := |got| - 1;
      ServedPrefix(film, since, fn, size, got);
      ExactOnSettledDirectory(film, since, fn, size, got[..n]);
      WalkedLast(fn, size, got);
      var w := Walked(fn, size, got[..n]);
      if w.Running? { InOrderStep(film, since, fn, size, n, w); }
      else { EndedInOrder(Selected(film(0), since), size, n, w); }
    }
  }

  lemma StartInOrder(snap: seq<User>, size: int, fn: Callback)
    requires size > 0
    ensures InOrder(snap, size, 0, Walked(fn, size, []))
  {}

  lemma EndedInOrder(snap: seq<User>, size: int, n: nat, w: Walk)
    requires size > 0 && w.Ended? && InOrder(snap, size, n, w)
    ensures InOrder(snap, size, n + 1, w)
  {}
}
