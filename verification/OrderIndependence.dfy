/** The order in which a walk meets the records does not matter. */
module OrderIndependence {
  import opened Records
  import opened Protocol
  import opened Effects
  import opened Snapshot

  // ---- permutations ----

  function Without(us: seq<User>, k: nat): seq<User>
    requires k < |us|
  {
    us[..k] + us[k + 1..]
  }

  lemma {:induction false} CountAppend(a: seq<User>, b: seq<User>, p: User -> bool)
    ensures Count(a + b, p) == Count(a, p) + Count(b, p)
  {
    if b == [] {
      assert a + b == a;
    } else {
      var n := |b| - 1;
      assert (a + b)[..|a + b| - 1] == a + b[..n];
      CountAppend(a, b[..n], p);
    }
  }

  lemma CountWithout(us: seq<User>, k: nat, p: User -> bool)
    requires k < |us|
    ensures Count(us, p) == Count(Without(us, k), p) + (if p(us[k]) then 1 else 0)
    ensures multiset(us) == multiset(Without(us, k)) + multiset{us[k]}
  {
    hide Count;
    var a, x, b := us[..k], [us[k]], us[k + 1..];
    CountOne(us[k], p);
    CountAppend(a, x + b, p);
    CountAppend(x, b, p);
    CountAppend(a, b, p);
    SplitAround(us, k);
  }

  lemma SplitAround(us: seq<User>, k: nat)
    requires k < |us|
    ensures us == us[..k] + ([us[k]] + us[k + 1..])
    ensures multiset(us) == multiset(Without(us, k)) + multiset{us[k]}
  {}

  lemma CountOne(u: User, p: User -> bool)
    ensures Count([u], p) == if p(u) then 1 else 0
  {}

  lemma {:induction false} CountPermuted(us: seq<User>, vs: seq<User>, p: User -> bool)
    requires multiset(us) == multiset(vs)
    ensures Count(us, p) == Count(vs, p)
    decreases |us|
  {
    if us == [] {
      assert |vs| == |multiset(vs)|;
    } else {
      assert us[0] in multiset(vs);
      var k :| 0 <= k < |vs| && vs[k] == us[0];
      CountWithout(us, 0, p);
      CountWithout(vs, k, p);
      assert multiset(Without(us, 0)) == multiset(us) - multiset{us[0]} == multiset(Without(vs, k));
      CountPermuted(Without(us, 0), Without(vs, k), p);
    }
  }

  lemma PermutedMembers(us: seq<User>, vs: seq<User>)
    requires multiset(us) == multiset(vs)
    ensures |us| == |vs| && forall u :: u in us <==> u in vs
  {
    assert |us| == |multiset(us)| == |multiset(vs)| == |vs|;
    forall u ensures u in us <==> u in vs {
      assert u in us <==> u in multiset(us);
      assert u in vs <==> u in multiset(vs);
    }
  }

  function Named(d: string): User -> bool { (u: User) => u.id == d }

  lemma {:induction false} NamedAtMostOnce(us: seq<User>, d: string)
    requires DistinctIds(us) && d != ""
    ensures Count(us, Named(d)) <= 1
    ensures Count(us, Named(d)) == 1 ==> exists i :: 0 <= i < |us| && us[i].id == d
  {
    if us != [] {
      var n := |us| - 1;
      assert DistinctIds(us[..n]);
      NamedAtMostOnce(us[..n], d);
      if Count(us[..n], Named(d)) == 1 {
        var i :| 0 <= i < n && us[..n][i].id == d;
        assert us[i].id == d;
      }
    }
  }

  lemma {:induction false} NamedTwice(us: seq<User>, d: string, i: nat, j: nat)
    requires i < j < |us| && us[i].id == us[j].id == d
    ensures Count(us, Named(d)) >= 2
    decreases |us|
  {
    var n := |us| - 1;
    if j < n { NamedTwice(us[..n], d, i, j); }
    else { NamedOnce(us[..n], d, i); }
  }

  lemma {:induction false} NamedOnce(us: seq<User>, d: string, i: nat)
    requires i < |us| && us[i].id == d
    ensures Count(us, Named(d)) >= 1
    decreases |us|
  {
    if i < |us| - 1 { NamedOnce(us[..|us| - 1], d, i); }
  }

  lemma PermutedDistinct(us: seq<User>, vs: seq<User>)
    requires multiset(us) == multiset(vs) && DistinctIds(us)
    ensures DistinctIds(vs)
  {
    forall i, j | 0 <= i < j < |vs| && vs[i].id == vs[j].id ensures vs[i].id == "" {
      if vs[i].id != "" {
        NamedTwice(vs, vs[i].id, i, j);
        CountPermuted(us, vs, Named(vs[i].id));
        NamedAtMostOnce(us, vs[i].id);
      }
    }
  }

  // ---- the theorem ----

  /** Two accounts alike but for the id the store happened to assign. */
  predicate Alike(a: Option<Helpper>, b: Option<Helpper>) {
    match (a, b)
    case (None, None) => true
    case (Some(p), Some(q)) => p.enabled == q.enabled && p.login == q.login && p.displayName == q.displayName
    case _ => false
  }

  lemma SameAccounts(c: Config, full: bool, w: World, us: seq<User>, vs: seq<User>, d: string)
    requires multiset(us) == multiset(vs) && DistinctIds(us) && DistinctIds(vs) && !c.dryRun
    requires Scan(c, full, w, NO_TALLY, us).ok && Scan(c, full, w, NO_TALLY, vs).ok
    ensures Alike(Get(Scan(c, full, w, NO_TALLY, us).w.helpers, d), Get(Scan(c, full, w, NO_TALLY, vs).w.helpers, d))
  {
    hide Scan, PrimaryEmail, Validate, DistinctIds;
    ScanHelppers(c, full, w, NO_TALLY, us);
    ScanHelppers(c, full, w, NO_TALLY, vs);
    PermutedMembers(us, vs);
    if i :| 0 <= i < |us| && Usable(us[i]) && us[i].id == d {
      assert us[i] in vs;
      var j :| 0 <= j < |vs| && vs[j] == us[i];
    } else {
      forall j | 0 <= j < |vs| && Usable(vs[j]) ensures vs[j].id != d { assert vs[j] in us; }
      assert Unnamed(us, d) && Unnamed(vs, d);
    }
  }

  lemma SameMarks(us: seq<User>, vs: seq<User>, t: Tally, t': Tally)
    requires multiset(us) == multiset(vs)
    requires IsHigh(us, t.high) && IsEarliest(us, t.earliest) && IsHigh(vs, t'.high) && IsEarliest(vs, t'.earliest)
    ensures t.high == t'.high && t.earliest == t'.earliest
  {
    PermutedMembers(us, vs);
  }

  lemma PermutedReady(w: World, us: seq<User>, vs: seq<User>)
    requires multiset(us) == multiset(vs) && Ready(w, us)
    ensures Ready(w, vs)
  {
    hide Known, Usable, ValidStore;
    PermutedMembers(us, vs);
    forall i | 0 <= i < |vs| && Usable(vs[i]) ensures Known(w.users, vs[i].id) { assert vs[i] in us; }
  }

  /** Permuting a walk's records leaves unchanged whether it succeeds and, when it does,
      every state-change counter, the write-backs attempted, the watermark, and the
      state of every account. */
  lemma OrderIndependence(c: Config, full: bool, w: World, us: seq<User>, vs: seq<User>)
    requires multiset(us) == multiset(vs) && DistinctIds(us) && Ready(w, us) && !c.dryRun
    ensures
      var a, b := Scan(c, full, w, NO_TALLY, us), Scan(c, full, w, NO_TALLY, vs);
      && a.ok == b.ok
      && (a.ok ==>
            && (forall k: Class :: Field(a.tally.stats, k) == Field(b.tally.stats, k))
            && a.tally.stats.wroteBack + a.tally.stats.conflicts == b.tally.stats.wroteBack + b.tally.stats.conflicts
            && Watermark(a.tally) == Watermark(b.tally)
            && (forall d :: Alike(Get(a.w.helpers, d), Get(b.w.helpers, d))))
  {
    hide Scan, Ready, ValidStore, DistinctIds, Alike, IsHigh, IsEarliest, Count, WithinLimit;
    PermutedDistinct(us, vs);
    PermutedReady(w, us, vs);
    CountPermuted(us, vs, IsUnusable());
    ScanSucceeds(c, full, w, us);
    ScanSucceeds(c, full, w, vs);
    if Scan(c, full, w, NO_TALLY, us).ok {
      ScanCounts(c, full, w, NO_TALLY, us);
      ScanCounts(c, full, w, NO_TALLY, vs);
      forall k: Class { CountPermuted(us, vs, Is(w.helpers, k)); }
      CountPermuted(us, vs, Wanting(w.helpers));
      ScanMarks(c, full, w, us);
      ScanMarks(c, full, w, vs);
      SameMarks(us, vs, Scan(c, full, w, NO_TALLY, us).tally, Scan(c, full, w, NO_TALLY, vs).tally);
      forall d { SameAccounts(c, full, w, us, vs, d); }
    }
  }
}
