/** Listing the directory: the page walk over whatever a server answers. */
module Client {
  import opened Records
  import opened Pager
  import Retry

  /** A decoded list response; a record that does not decode is None. Anything else a
      request can end in is NoPage. */
  datatype Response = NoPage | Page(total: int, resources: seq<Option<User>>)

  datatype Outcome = Completed | PageFailed | Undecodable | Rejected | RepeatedPage | Endless

  /** The walk so far: the records handed to the callback, in order, and either the pager's
      variables or how it ended. */
  datatype Walk = Running(pager: Pager, visited: seq<User>) | Ended(outcome: Outcome, visited: seq<User>)

  /** The callback's verdict on its n-th call. */
  type Callback = (nat, User) -> bool

  /** Hands the records of a page to the callback until one does not decode or is rejected. */
  function Hand(fn: Callback, visited: seq<User>, resources: seq<Option<User>>): (seq<User>, Option<Outcome>)
    decreases resources
  {
    if resources == [] then (visited, None)
    else
      match resources[0]
      case None => (visited, Some(Undecodable))
      case Some(u) =>
        if !fn(|visited|, u) then (visited + [u], Some(Rejected)) else Hand(fn, visited + [u], resources[1..])
  }

  function FirstId(resources: seq<Option<User>>): string {
    if resources != [] && resources[0].Some? then resources[0].value.id else ""
  }

  /** One response's effect on the walk. */
  function Feed(fn: Callback, pageSize: int, w: Walk, r: Response): Walk
    requires pageSize > 0
  {
    if w.Ended? then w
    else if r.NoPage? then Ended(PageFailed, w.visited)
    else if r.resources == [] then Ended(Completed, w.visited)
    else
      var (visited, failed) := Hand(fn, w.visited, r.resources);
      match failed
      case Some(o) => Ended(o, visited)
      case None =>
        match AfterPage(w.pager, pageSize, r.total, FirstId(r.resources), |r.resources|)
        case More(next) => Running(next, visited)
        case Complete => Ended(Completed, visited)
        case SamePageTwice => Ended(RepeatedPage, visited)
        case TooManyPages => Ended(Endless, visited)
  }

  /** The walk after these responses: the client is a function of what it is answered. */
  function Walked(fn: Callback, pageSize: int, got: seq<Response>): Walk
    requires pageSize > 0
  {
    if got == [] then Running(START, []) else Feed(fn, pageSize, Walked(fn, pageSize, got[..|got| - 1]), got[|got| - 1])
  }

  lemma WalkedStep(fn: Callback, pageSize: int, got: seq<Response>, r: Response)
    requires pageSize > 0
    ensures Walked(fn, pageSize, got + [r]) == Feed(fn, pageSize, Walked(fn, pageSize, got), r)
  {}

  function PageSize(requested: int): (n: int)
    ensures n > 0
  {
    if requested <= 0 then DEFAULT_PAGE_SIZE else requested
  }

  // ---- it always stops ----

  function Total(r: Response): int { if r.Page? then r.total else 0 }

  /** The bound on the pages read, from the first response. */
  function PageBound(pageSize: int, first: Response): int
    requires pageSize > 0
  {
    if Total(first) <= 0 then 1 else Total(first) / pageSize + 8
  }

  /** A walk still running has read fewer pages than the first response's total allows,
      whatever the server answered since. */
  lemma {:induction false} RunningIsBounded(fn: Callback, pageSize: int, got: seq<Response>)
    requires pageSize > 0 && got != [] && Walked(fn, pageSize, got).Running?
    ensures
      var p := Walked(fn, pageSize, got).pager;
      && p.pages == |got| && p.startIndex > |got|
      && p.maxPages == PageBound(pageSize, got[0]) > 1
      && |got| < PageBound(pageSize, got[0])
  {
    var n := |got| - 1;
    if n == 0 {
      assert Walked(fn, pageSize, got[..0]) == Running(START, []);
    } else {
      RunningIsBounded(fn, pageSize, got[..n]);
    }
  }

  /** However the server answers, the walk has ended after that many pages. */
  lemma TerminatesOnAnyServer(fn: Callback, pageSize: int, got: seq<Response>)
    requires pageSize > 0 && got != [] && |got| >= PageBound(pageSize, got[0])
    ensures Walked(fn, pageSize, got).Ended?
  {
    if Walked(fn, pageSize, got).Running? { RunningIsBounded(fn, pageSize, got); }
  }

  // ---- what a page does to the walk, from the responses alone ----

  /** The callback takes the first `n` of these records. */
  ghost predicate Takes(fn: Callback, before: nat, resources: seq<Option<User>>, n: nat)
    requires n <= |resources|
  {
    forall k :: 0 <= k < n ==> resources[k].Some? && fn(before + k, resources[k].value)
  }

  function Values(resources: seq<Option<User>>, n: nat): (r: seq<User>)
    requires n <= |resources| && forall k :: 0 <= k < n ==> resources[k].Some?
    ensures |r| == n && forall k :: 0 <= k < n ==> resources[k] == Some(r[k])
  {
    seq(n, k requires 0 <= k < n => resources[k].value)
  }

  lemma HandAtFirst(fn: Callback, visited: seq<User>, resources: seq<Option<User>>)
    requires resources != []
    ensures
      resources[0].Some? && fn(|visited|, resources[0].value) ==>
        Hand(fn, visited, resources) == Hand(fn, visited + [resources[0].value], resources[1..])
    ensures resources[0] == None ==> Hand(fn, visited, resources) == (visited, Some(Undecodable))
    ensures
      resources[0].Some? && !fn(|visited|, resources[0].value) ==>
        Hand(fn, visited, resources) == (visited + [resources[0].value], Some(Rejected))
  {}

  lemma TakesRest(fn: Callback, before: nat, resources: seq<Option<User>>, n: nat)
    requires 0 < n <= |resources| && Takes(fn, before, resources, n)
    ensures resources[0].Some? && fn(before, resources[0].value) && Takes(fn, before + 1, resources[1..], n - 1)
    ensures Values(resources, n) == [resources[0].value] + Values(resources[1..], n - 1)
  {
    assert resources[0].Some? && fn(before + 0, resources[0].value);
    forall k | 0 <= k < n - 1 ensures resources[1..][k].Some? && fn(before + 1 + k, resources[1..][k].value) {
      assert resources[k + 1].Some? && fn(before + (k + 1), resources[k + 1].value);
    }
  }

  lemma Shifted(visited: seq<User>, u: User, values: seq<User>, resources: seq<Option<User>>, n: nat)
    requires 0 < n <= |resources|
    ensures visited + ([u] + values) == visited + [u] + values && resources[1..][n - 1..] == resources[n..]
  {}

  lemma {:induction false} HandTakes(fn: Callback, visited: seq<User>, resources: seq<Option<User>>, n: nat)
    requires n <= |resources| && Takes(fn, |visited|, resources, n)
    ensures Hand(fn, visited, resources) == Hand(fn, visited + Values(resources, n), resources[n..])
    decreases n
  {
    hide Hand, Takes, Values;
    if n == 0 {
      assert visited + Values(resources, 0) == visited && resources[0..] == resources;
    } else {
      TakesRest(fn, |visited|, resources, n);
      var u, rest := resources[0].value, resources[1..];
      HandAtFirst(fn, visited, resources);
      HandTakes(fn, visited + [u], rest, n - 1);
      Shifted(visited, u, Values(rest, n - 1), resources, n);
    }
  }

  /** A page is handed over up to the first record that does not decode, or up to and including
      the first one the callback rejects; with neither, all of it is. */
  lemma HandsUpTo(fn: Callback, visited: seq<User>, resources: seq<Option<User>>, n: nat)
    requires n <= |resources| && Takes(fn, |visited|, resources, n)
    ensures
      var (v, failed) := Hand(fn, visited, resources);
      && (n == |resources| ==> v == visited + Values(resources, n) && failed == None)
      && (n < |resources| && resources[n] == None ==>
            v == visited + Values(resources, n) && failed == Some(Undecodable))
      && (n < |resources| && resources[n].Some? && !fn(|visited| + n, resources[n].value) ==>
            v == visited + Values(resources, n) + [resources[n].value] && failed == Some(Rejected))
  {
    hide Hand, Takes;
    HandTakes(fn, visited, resources, n);
    var before := visited + Values(resources, n);
    if n < |resources| { HandAtFirst(fn, before, resources[n..]); }
    else { HandNothing(fn, before); }
  }

  lemma HandNothing(fn: Callback, visited: seq<User>)
    ensures Hand(fn, visited, []) == (visited, None)
  {}

  /** How many records a response holds. */
  function Size(r: Response): nat { if r.Page? then |r.resources| else 0 }

  function Read(got: seq<Response>): nat {
    if got == [] then 0 else Read(got[..|got| - 1]) + Size(got[|got| - 1])
  }

  lemma {:induction false} HandedCount(fn: Callback, visited: seq<User>, resources: seq<Option<User>>)
    requires Hand(fn, visited, resources).1 == None
    ensures |Hand(fn, visited, resources).0| == |visited| + |resources|
    decreases resources
  {
    if resources != [] { HandedCount(fn, visited + [resources[0].value], resources[1..]); }
  }

  /** A walk under way has visited every record of every response, and asks next for the page that
      begins behind them. */
  lemma {:induction false} RunningPosition(fn: Callback, pageSize: int, got: seq<Response>)
    requires pageSize > 0 && Walked(fn, pageSize, got).Running?
    ensures
      var w := Walked(fn, pageSize, got);
      && |w.visited| == Read(got) && w.pager.startIndex == Read(got) + 1
      && (got == [] ==> w.pager.prevFirstID == "")
      && (got != [] ==>
            got[|got| - 1].Page? && Size(got[|got| - 1]) > 0
            && w.pager.prevFirstID == FirstId(got[|got| - 1].resources))
  {
    hide Hand;
    if got != [] {
      var n := |got| - 1;
      RunningPosition(fn, pageSize, got[..n]);
      HandedCount(fn, Walked(fn, pageSize, got[..n]).visited, got[n].resources);
    }
  }

  /** Response `k` begins with the record the one before it began with. */
  predicate Repeats(got: seq<Response>, k: nat)
    requires 0 < k < |got|
  {
    got[k - 1].Page? && got[k].Page?
    && FirstId(got[k].resources) != "" && FirstId(got[k].resources) == FirstId(got[k - 1].resources)
  }

  /** The last response has reached the walk, and all of it has been handed over. */
  ghost predicate HandedOn(fn: Callback, pageSize: int, got: seq<Response>)
    requires pageSize > 0
  {
    && got != []
    && var w, r := Walked(fn, pageSize, got[..|got| - 1]), got[|got| - 1];
    w.Running? && r.Page? && r.resources != [] && Hand(fn, w.visited, r.resources).1 == None
  }

  lemma DecisionCases(p: Pager, pageSize: int, total: int, firstID: string, n: nat)
    requires pageSize > 0
    ensures
      var v, limit := AfterPage(p, pageSize, total, firstID, n), PageLimit(p, pageSize, total);
      && (v.SamePageTwice? <==> firstID != "" && firstID == p.prevFirstID)
      && (v.TooManyPages? <==> !v.SamePageTwice? && limit > 0 && p.pages + 1 >= limit)
      && (v.Complete? ==> n < pageSize || p.startIndex + n > total)
      && (v.More? ==> n >= pageSize && p.startIndex + n <= total)
  {}

  /** As many pages have been read as the first response's total allows. */
  predicate AtBound(pageSize: int, got: seq<Response>)
    requires pageSize > 0 && got != []
  {
    Total(got[0]) > 0 && |got| >= PageBound(pageSize, got[0])
  }

  /** The bound on the pages in force once a page has been read. */
  lemma LimitInForce(fn: Callback, pageSize: int, got: seq<Response>)
    requires pageSize > 0 && got != [] && Walked(fn, pageSize, got[..|got| - 1]).Running? && got[|got| - 1].Page?
    ensures
      var p, limit := Walked(fn, pageSize, got[..|got| - 1]).pager, PageBound(pageSize, got[0]);
      && p.pages == |got| - 1
      && PageLimit(p, pageSize, got[|got| - 1].total) == (if Total(got[0]) > 0 then limit else 0)
      && (Total(got[0]) <= 0 ==> |got| == 1)
  {
    hide Feed;
    var n := |got| - 1;
    if n > 0 {
      RunningIsBounded(fn, pageSize, got[..n]);
      assert got[..n][0] == got[0];
    }
  }

  /** What becomes of the walk then: refused when the page repeats the one before, given up at
      the bound, over when the page is short or the records read are all there are, and under
      way otherwise. */
  lemma EndOfPageDecision(fn: Callback, pageSize: int, got: seq<Response>)
    requires pageSize > 0 && HandedOn(fn, pageSize, got)
    ensures
      var n, r, w := |got|, got[|got| - 1], Walked(fn, pageSize, got);
      var repeats := n > 1 && Repeats(got, n - 1);
      && |w.visited| == Read(got)
      && (w.Ended? ==> w.outcome in {RepeatedPage, Endless, Completed})
      && (w.Ended? && w.outcome == RepeatedPage <==> repeats)
      && (w.Ended? && w.outcome == Endless <==> !repeats && AtBound(pageSize, got))
      && (w.Ended? && w.outcome == Completed ==> |r.resources| < pageSize || Read(got) >= r.total)
      && (w.Running? ==> |r.resources| >= pageSize && Read(got) < r.total)
  {
    hide Hand, AfterPage, PageLimit, PageBound;
    var n := |got| - 1;
    var q, r := Walked(fn, pageSize, got[..n]), got[n];
    RunningPosition(fn, pageSize, got[..n]);
    HandedCount(fn, q.visited, r.resources);
    LimitInForce(fn, pageSize, got);
    BoundAtLeastOne(pageSize, got[0]);
    DecisionCases(q.pager, pageSize, r.total, FirstId(r.resources), |r.resources|);
    if n > 0 { assert got[..n][n - 1] == got[n - 1]; } else { assert got[..n] == []; }
  }

  lemma {:induction false} EndedStays(fn: Callback, pageSize: int, got: seq<Response>, k: nat)
    requires pageSize > 0 && k <= |got| && Walked(fn, pageSize, got[..k]).Ended?
    ensures Walked(fn, pageSize, got) == Walked(fn, pageSize, got[..k])
    decreases |got| - k
  {
    hide Feed;
    if k < |got| {
      assert got[..k + 1][..k] == got[..k];
      FedEnded(fn, pageSize, Walked(fn, pageSize, got[..k]), got[k]);
      EndedStays(fn, pageSize, got, k + 1);
    } else {
      assert got[..k] == got;
    }
  }

  lemma FedEnded(fn: Callback, pageSize: int, w: Walk, r: Response)
    requires pageSize > 0 && w.Ended?
    ensures Feed(fn, pageSize, w, r) == w
  {}

  /** No repeated page passes: a walk that goes on or ends well was never answered two pages in a
      row that begin with the same record. */
  lemma NoRepeatPasses(fn: Callback, pageSize: int, got: seq<Response>, k: nat)
    requires pageSize > 0 && 0 < k < |got| && Walked(fn, pageSize, got[..k]).Running?
    requires var w := Walked(fn, pageSize, got); w.Running? || w.outcome == Completed
    ensures !Repeats(got, k)
  {
    hide Hand, AfterPage;
    var q, w := Walked(fn, pageSize, got[..k]), Walked(fn, pageSize, got[..k + 1]);
    assert got[..k + 1][..k] == got[..k];
    if w.Ended? { EndedStays(fn, pageSize, got, k + 1); }
    if Repeats(got, k) {
      FirstIdOfSome(got[k].resources);
      assert Repeats(got[..k + 1], k);
      if HandedOn(fn, pageSize, got[..k + 1]) {
        EndOfPageDecision(fn, pageSize, got[..k + 1]);
      } else {
        HandFails(fn, q.visited, got[k].resources);
      }
    }
  }

  lemma FirstIdOfSome(resources: seq<Option<User>>)
    ensures FirstId(resources) != "" ==> resources != []
  {}

  lemma {:induction false} HandFails(fn: Callback, visited: seq<User>, resources: seq<Option<User>>)
    ensures Hand(fn, visited, resources).1 in {None, Some(Undecodable), Some(Rejected)}
    decreases resources
  {
    if resources != [] && resources[0].Some? && fn(|visited|, resources[0].value) {
      HandFails(fn, visited + [resources[0].value], resources[1..]);
    }
  }

  /** The server, request by request; a request says which page it asks for. */
  type Server = (nat, int, int) -> Retry.Reply<Response>

  datatype World = World(
    server: Server, stopped: nat -> bool, cancelled: nat -> bool, interrupted: nat -> bool, draw: nat -> nat)

  /** The requests for one page. */
  function ForPage(w: World, startIndex: int, count: int): Retry.Net<Response> {
    Retry.Net(n => w.server(n, startIndex, count), w.stopped, w.cancelled, w.interrupted, w.draw)
  }

  /** What asking for one page comes to, and the requests that takes; `first` is the number of
      the first one. */
  function Asked(w: World, maxRetries: int, first: nat, startIndex: int, count: int): (Response, nat) {
    var net := ForPage(w, if startIndex < 1 then 1 else startIndex, PageSize(count));
    var a := Retry.Attempts(net, maxRetries, first, 0);
    (if a.answer.Answered? then a.answer.body else NoPage, a.requests)
  }

  method ReadPage(w: World, maxRetries: int, first: nat, startIndex: int, count: int)
    returns (r: Response, requests: nat)
    ensures (r, requests) == Asked(w, maxRetries, first, startIndex, count)
    ensures requests <= Retry.Retries(maxRetries) + 1
  {
    var net := ForPage(w, if startIndex < 1 then 1 else startIndex, PageSize(count));
    var answer, n, _, _ := Retry.Do(net, maxRetries, first);
    Retry.AttemptsBounded(net, maxRetries, first, 0);
    requests := n;
    r := if answer.Answered? then answer.body else NoPage;
  }

  /** The responses to the walk's first `k` calls, each asking for the page the walk has come
      to, and the requests made for them. A walk that has ended asks for nothing more. */
  function Heard(w: World, maxRetries: int, fn: Callback, pageSize: int, k: nat): (seq<Response>, nat)
    requires pageSize > 0
  {
    if k == 0 then ([], 0)
    else
      var (got, n) := Heard(w, maxRetries, fn, pageSize, k - 1);
      match Walked(fn, pageSize, got)
      case Ended(_, _) => (got, n)
      case Running(p, _) =>
        var (r, more) := Asked(w, maxRetries, n, p.startIndex, pageSize);
        (got + [r], n + more)
  }

  /** The records of one page, handed to the callback one by one. */
  method HandOver(fn: Callback, before: seq<User>, resources: seq<Option<User>>)
    returns (visited: seq<User>, failed: Option<Outcome>, firstID: string)
    ensures (visited, failed) == Hand(fn, before, resources)
    ensures failed == None ==> firstID == FirstId(resources)
  {
    visited, failed, firstID := before, None, "";
    var i := 0;
    while i < |resources|
      invariant 0 <= i <= |resources|
      invariant Hand(fn, visited, resources[i..]) == Hand(fn, before, resources)
      invariant firstID == if i == 0 then "" else FirstId(resources)
    {
      if resources[i] == None { failed := Some(Undecodable); return; }
      var u := resources[i].value;
      if i == 0 { firstID := u.id; }
      visited := visited + [u];
      if !fn(|visited| - 1, u) { failed := Some(Rejected); return; }
      i := i + 1;
    }
  }

  /** One response: its records handed over, the guards, and the decision whether to go on. */
  method TakePage(fn: Callback, pageSize: int, p: Pager, before: seq<User>, r: Response) returns (w: Walk)
    requires pageSize > 0
    ensures w == Feed(fn, pageSize, Running(p, before), r)
  {
    hide Hand;
    if r.NoPage? { return Ended(PageFailed, before); }
    if r.resources == [] { return Ended(Completed, before); }
    var pages, maxPages := p.pages + 1, p.maxPages;
    if maxPages == 0 && r.total > 0 { maxPages := r.total / pageSize + 8; }
    var visited, failed, firstID := HandOver(fn, before, r.resources);
    if failed.Some? { return Ended(failed.value, visited); }
    if firstID != "" && firstID == p.prevFirstID { return Ended(RepeatedPage, visited); }
    if maxPages > 0 && pages >= maxPages { return Ended(Endless, visited); }
    var startIndex := p.startIndex + |r.resources|;
    if |r.resources| < pageSize || startIndex > r.total { return Ended(Completed, visited); }
    w := Running(Pager(startIndex, pages, maxPages, firstID), visited);
  }

  /** The page walk: it ends as what the server answers its calls makes it end, within the
      bound the first answer sets. */
  method ListUsers(w: World, maxRetries: int, requestedSize: int, fn: Callback)
    returns (visited: seq<User>, outcome: Outcome, calls: nat, requests: nat)
    ensures
      var size := PageSize(requestedSize);
      var (got, n) := Heard(w, maxRetries, fn, size, calls);
      && |got| == calls > 0 && n == requests && Walked(fn, size, got) == Ended(outcome, visited)
      && calls <= PageBound(size, got[0]) && requests <= PageBound(size, got[0]) * (Retry.Retries(maxRetries) + 1)
  {
    hide Walked, Feed, PageSize, PageBound, Asked;
    var pageSize := PageSize(requestedSize);
    WalkedNothing(fn, pageSize);
    var p := START;
    visited, calls, requests := [], 0, 0;
    ghost var got: seq<Response> := [];
    while true
      invariant calls == |got| && Heard(w, maxRetries, fn, pageSize, calls) == (got, requests)
      invariant requests <= calls * (Retry.Retries(maxRetries) + 1)
      invariant Walked(fn, pageSize, got) == Running(p, visited)
      decreases if got == [] then 1 else 0, if got == [] then 0 else PageBound(pageSize, got[0]) - |got|
    {
      if got != [] { RunningIsBounded(fn, pageSize, got); }
      var r, n := ReadPage(w, maxRetries, requests, p.startIndex, pageSize);
      WalkedStep(fn, pageSize, got, r);
      BoundAtLeastOne(pageSize, r);
      got := got + [r];
      calls, requests := calls + 1, requests + n;
      BoundedRequests(calls, requests, PageBound(pageSize, got[0]), Retry.Retries(maxRetries) + 1);
      var walk := TakePage(fn, pageSize, p, visited, r);
      visited := walk.visited;
      if walk.Ended? { outcome := walk.outcome; return; }
      p := walk.pager;
      RunningIsBounded(fn, pageSize, got);
    }
  }

  lemma WalkedNothing(fn: Callback, pageSize: int)
    requires pageSize > 0
    ensures Walked(fn, pageSize, []) == Running(START, [])
  {}

  lemma BoundAtLeastOne(pageSize: int, r: Response)
    requires pageSize > 0
    ensures PageBound(pageSize, r) >= 1
  {}

  lemma BoundedRequests(calls: nat, requests: nat, bound: int, each: nat)
    requires requests <= calls * each
    ensures calls <= bound ==> requests <= bound * each
  {}
}
