/** The page walker: what the client decides after each page, and what the fake
    directory puts on a page. */
module Pager {
  import opened Records

  // ---- client side ----

  const DEFAULT_PAGE_SIZE := 200

  /** The walker's variables; `maxPages` is 0 until a response says how many to expect. */
  datatype Pager = Pager(startIndex: int, pages: nat, maxPages: int, prevFirstID: string)

  const START := Pager(1, 0, 0, "")

  datatype Verdict = More(next: Pager) | Complete | SamePageTwice | TooManyPages

  function PageLimit(p: Pager, pageSize: int, total: int): int
    requires pageSize > 0
  {
    if p.maxPages == 0 && total > 0 then total / pageSize + 8 else p.maxPages
  }

  /** The decision after a non-empty page of `n` records, the first one being `firstID`. */
  function AfterPage(p: Pager, pageSize: int, total: int, firstID: string, n: nat): Verdict
    requires pageSize > 0
  {
    var limit := PageLimit(p, pageSize, total);
    if firstID != "" && firstID == p.prevFirstID then SamePageTwice
    else if limit > 0 && p.pages + 1 >= limit then TooManyPages
    else if n < pageSize || p.startIndex + n > total then Complete
    else More(Pager(p.startIndex + n, p.pages + 1, limit, firstID))
  }

  // ---- directory side ----

  /** Positions of the records among the first `n` that the filter lets through. */
  function MatchIx(users: seq<User>, since: int, n: nat): (r: seq<nat>)
    requires n <= |users|
    ensures |r| <= n
    ensures forall k :: 0 <= k < |r| ==> r[k] < n && Matches(users[r[k]], since)
  {
    if n == 0 then []
    else MatchIx(users, since, n - 1) + (if Matches(users[n - 1], since) then [n - 1] else [])
  }

  function AllMatches(users: seq<User>, since: int): (r: seq<nat>)
    ensures forall k :: 0 <= k < |r| ==> r[k] < |users| && Matches(users[r[k]], since)
  {
    MatchIx(users, since, |users|)
  }

  /** One page: at most `count` positions from the 1-based `startIndex` on. */
  function PageIx(users: seq<User>, since: int, startIndex: int, count: nat): (r: seq<nat>)
    ensures |r| <= count
    ensures forall k :: 0 <= k < |r| ==> r[k] < |users| && Matches(users[r[k]], since)
  {
    var m := AllMatches(users, since);
    var lo := if startIndex < 1 then 0 else startIndex - 1;
    if lo >= |m| then []
    else if |m| - lo > count then m[lo..lo + count] else m[lo..]
  }

  /** How many matching records precede record `i`. */
  function Rank(users: seq<User>, since: int, i: nat): nat
    requires i <= |users|
  {
    |MatchIx(users, since, i)|
  }

  lemma {:induction false} MatchIxPrefix(users: seq<User>, since: int, m: nat, n: nat)
    requires m <= n <= |users|
    ensures MatchIx(users, since, m) <= MatchIx(users, since, n)
  {
    if m < n { MatchIxPrefix(users, since, m, n - 1); }
  }

  /** A matching record stands at its rank. */
  lemma RankIsPosition(users: seq<User>, since: int, i: nat)
    requires i < |users| && Matches(users[i], since)
    ensures Rank(users, since, i) < |AllMatches(users, since)|
    ensures AllMatches(users, since)[Rank(users, since, i)] == i
  {
    MatchIxPrefix(users, since, i + 1, |users|);
  }

  /** Directory `b` still holds every record of `a`, in the same order but possibly with others
      in between; `at` says where. None of them falls out of the filter. */
  ghost predicate Embeds(a: seq<User>, b: seq<User>, since: int, at: seq<nat>) {
    && |at| == |a|
    && (forall i :: 0 <= i < |a| ==> at[i] < |b|)
    && (forall i, j :: 0 <= i < j < |a| ==> at[i] < at[j])
    && (forall i :: 0 <= i < |a| && Matches(a[i], since) ==> Matches(b[at[i]], since))
  }

  /** Records only ever move towards the back of a growing result. */
  lemma {:induction false} RankEmbeds(a: seq<User>, b: seq<User>, since: int, at: seq<nat>, i: nat)
    requires Embeds(a, b, since, at) && i < |a|
    ensures Rank(a, since, i) <= Rank(b, since, at[i])
  {
    if i > 0 {
      RankEmbeds(a, b, since, at, i - 1);
      assert at[i - 1] < at[i];
      MatchIxPrefix(b, since, at[i - 1] + 1, at[i]);
    }
  }

  /** The directory has grown at most at its end, and no record fell out of the filter. */
  ghost predicate Grows(a: seq<User>, b: seq<User>, since: int) {
    |a| <= |b| && forall i :: 0 <= i < |a| && Matches(a[i], since) ==> Matches(b[i], since)
  }

  lemma RankGrows(a: seq<User>, b: seq<User>, since: int, i: nat)
    requires Grows(a, b, since) && i < |a|
    ensures Rank(a, since, i) <= Rank(b, since, i)
  {
    hide Rank;
    RankEmbeds(a, b, since, seq(|a|, k => k), i);
  }

  /** A matching record from `startIndex` on that a page does not show comes after that
      page, and the page is a full one. */
  lemma BeyondThePage(users: seq<User>, since: int, startIndex: int, count: nat, i: nat)
    requires startIndex >= 1 && i < |users| && Matches(users[i], since)
    requires Rank(users, since, i) >= startIndex - 1 && i !in PageIx(users, since, startIndex, count)
    ensures |PageIx(users, since, startIndex, count)| == count
    ensures startIndex - 1 + count <= Rank(users, since, i) < |AllMatches(users, since)|
  {
    RankIsPosition(users, since, i);
    var m, page, lo := AllMatches(users, since), PageIx(users, since, startIndex, count), startIndex - 1;
    var rank := Rank(users, since, i);
    assert forall k :: 0 <= k < |page| ==> page[k] == m[lo + k];
    assert forall k :: lo <= k < lo + |page| ==> m[k] == page[k - lo];
  }

  lemma PageSlice(users: seq<User>, since: int, startIndex: int, count: nat)
    requires startIndex >= 1
    ensures
      var m, page, at := AllMatches(users, since), PageIx(users, since, startIndex, count), startIndex - 1;
      && |page| == (if at >= |m| then 0 else if |m| - at > count then count else |m| - at)
      && forall k :: 0 <= k < |page| ==> page[k] == m[at + k]
  {}

  /** The records a filter lets through, in the directory's order. */
  function Selected(users: seq<User>, since: int): (r: seq<User>)
    ensures |r| == |AllMatches(users, since)|
    ensures forall k :: 0 <= k < |r| ==> r[k] == users[AllMatches(users, since)[k]]
  {
    var ix := AllMatches(users, since);
    seq(|ix|, k requires 0 <= k < |ix| => users[ix[k]])
  }

  lemma {:induction false} SameMatches(a: seq<User>, b: seq<User>, since: int, n: nat)
    requires n <= |a| == |b| && forall i :: 0 <= i < n ==> Matches(a[i], since) == Matches(b[i], since)
    ensures MatchIx(a, since, n) == MatchIx(b, since, n)
  {
    if n > 0 { SameMatches(a, b, since, n - 1); }
  }

  lemma {:induction false} MatchIxSorted(users: seq<User>, since: int, n: nat)
    requires n <= |users|
    ensures forall j, k :: 0 <= j < k < |MatchIx(users, since, n)| ==>
              MatchIx(users, since, n)[j] < MatchIx(users, since, n)[k]
  {
    if n > 0 { MatchIxSorted(users, since, n - 1); }
  }

  lemma SelectedDistinct(users: seq<User>, since: int)
    requires DistinctIds(users)
    ensures DistinctIds(Selected(users, since))
  {
    MatchIxSorted(users, since, |users|);
  }

  lemma {:induction false} AllMatch(users: seq<User>, n: nat)
    requires n <= |users|
    ensures |MatchIx(users, 0, n)| == n && forall k :: 0 <= k < n ==> MatchIx(users, 0, n)[k] == k
  {
    if n > 0 { AllMatch(users, n - 1); }
  }

  /** Without a bound every record is selected. */
  lemma UnboundedSelectsAll(users: seq<User>)
    ensures Selected(users, 0) == users
    ensures |AllMatches(users, 0)| == |users| && forall k :: 0 <= k < |users| ==> AllMatches(users, 0)[k] == k
  {
    AllMatch(users, |users|);
  }

  // ---- a walk over one snapshot ----

  function Offset(pages: nat, size: nat): nat { pages * size }

  /** The pager stands at a page boundary of the snapshot and will not give up. */
  ghost predicate OnTrack(pageSize: int, p: Pager, snap: seq<User>)
    requires pageSize > 0
  {
    var at := p.startIndex - 1;
    && at == Offset(p.pages, pageSize)
    && (if p.pages == 0 then p == START
        else
          && pageSize <= at <= |snap|
          && p.maxPages == |snap| / pageSize + 8
          && p.prevFirstID == snap[at - pageSize].id)
  }

  /** At the end of a page neither guard of the client trips. */
  lemma PageBoundary(pageSize: int, p: Pager, snap: seq<User>, end: nat)
    requires pageSize > 0 && DistinctIds(snap) && OnTrack(pageSize, p, snap)
    requires p.startIndex - 1 < end <= |snap| && end <= p.startIndex - 1 + pageSize
    requires end == |snap| || end == p.startIndex - 1 + pageSize
    ensures
      var v := AfterPage(p, pageSize, |snap|, snap[p.startIndex - 1].id, end - (p.startIndex - 1));
      && (v.Complete? || v.More?)
      && (v.Complete? ==> end == |snap|)
      && (v.More? ==> v.next.startIndex == end + 1 && OnTrack(pageSize, v.next, snap))
  {
    var at := p.startIndex - 1;
    if p.pages > 0 { assert snap[at - pageSize].id == snap[at].id ==> snap[at].id == ""; }
    assert p.pages == 0 ==> at == 0;
    PagesFit(p.pages, pageSize, |snap|);
    hide Offset;
  }

  lemma Multiplied(a: nat, b: nat, size: nat)
    requires a <= b
    ensures a * size <= b * size
  {}

  lemma PagesFit(pages: nat, size: nat, total: nat)
    requires size > 0 && Offset(pages, size) < total
    ensures pages <= total / size && Offset(pages + 1, size) == Offset(pages, size) + size && Offset(0, size) == 0
  {
    var q := total / size;
    assert total < (q + 1) * size;
    if q + 1 <= pages { Multiplied(q + 1, pages, size); }
  }
}
