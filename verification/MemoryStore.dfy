/** The reference store: two indexes over shared, mutable cells. */
module MemoryStore {
  import opened Records
  import opened Protocol
  import opened Effects
  import Ordering
  import Decimal

  /** One account as the store holds it; both indexes point at the same cell. */
  class Cell {
    const id: string
    const directoryId: string
    var login: string
    var displayName: string
    var enabled: bool

    constructor (id: string, directoryId: string, login: string, displayName: string)
      ensures Value() == Helpper(id, directoryId, login, displayName, true)
    {
      this.id, this.directoryId := id, directoryId;
      this.login, this.displayName, this.enabled := login, displayName, true;
    }

    function Value(): Helpper
      reads this
    {
      Helpper(id, directoryId, login, displayName, enabled)
    }
  }

  datatype CreateResult = Made(account: Helpper) | AlreadyExists

  /** Since ids are unique, an update by account id is an update of one directory id. */
  lemma UpdateIsPointwise(h: Helppers, nextID: nat, d: string, enabled: bool, name: string, login: string)
    requires ValidHelpers(h, nextID) && d in h
    ensures UpdatedById(h, h[d].id, enabled, name, login) == h[d := Restated(h[d], enabled, name, login)]
  {}

  function DirectoryIds(s: seq<Helpper>): (r: seq<string>)
    ensures |r| == |s| && forall k :: 0 <= k < |r| ==> r[k] == s[k].directoryId
  {
    seq(|s|, k requires 0 <= k < |s| => s[k].directoryId)
  }

  ghost function Values(m: map<string, Cell>): Helppers
    reads m.Values
  {
    map d | d in m :: m[d].Value()
  }

  lemma ValuesAdd(m: map<string, Cell>, d: string, p: Cell)
    requires d !in m
    ensures Values(m[d := p]) == Values(m)[d := p.Value()]
    ensures m[d := p].Values == m.Values + {p}
  {
    forall c | c in m.Values ensures c in m[d := p].Values {
      var e :| e in m && m[e] == c;
      assert m[d := p][e] == c;
    }
    assert m[d := p][d] == p;
  }

  class Store {
    var byDirID: map<string, Cell>
    var byID: map<string, Cell>
    var nextID: nat
    var checkpoint: int

    /** The two indexes are the two views of one set of cells, and the counter is at or
        past every id handed out. */
    ghost predicate Valid()
      reads this
    {
      && (forall d :: d in byDirID ==>
            byDirID[d].directoryId == d && byDirID[d].id in byID && byID[byDirID[d].id] == byDirID[d])
      && (forall i :: i in byID ==>
            byID[i].id == i && byID[i].directoryId in byDirID && byDirID[byID[i].directoryId] == byID[i])
      && (forall i :: i in byID ==> Issued(i, nextID))
    }

    /** The one partial map from directory id to account both indexes describe. */
    ghost function Accounts(): Helppers
      reads this, byDirID.Values
    {
      Values(byDirID)
    }

    constructor ()
      ensures Valid() && Accounts() == map[] && nextID == 900000 && checkpoint == 0
    {
      byDirID, byID, nextID, checkpoint := map[], map[], 900000, 0;
    }

    lemma AccountsAreValid()
      requires Valid()
      ensures ValidHelpers(Accounts(), nextID)
    {}

    method HelpperByDirectoryID(d: string) returns (r: Option<Helpper>)
      ensures r == Get(Accounts(), d)
    {
      if d !in byDirID { return None; }
      r := Some(byDirID[d].Value());
    }

    method CreateHelpper(d: string, login: string, displayName: string) returns (r: CreateResult)
      requires Valid()
      modifies this`byDirID, this`byID, this`nextID
      ensures Valid()
      ensures old(byDirID.Values) <= byDirID.Values && fresh(byDirID.Values - old(byDirID.Values))
      ensures d in old(Accounts()) ==>
        r == AlreadyExists && Accounts() == old(Accounts()) && nextID == old(nextID)
      ensures d !in old(Accounts()) ==>
        var p := Helpper(Decimal.Render(old(nextID) + 1), d, login, displayName, true);
        r == Made(p) && Accounts() == old(Accounts())[d := p] && nextID == old(nextID) + 1
    {
      hide Issued, Decimal.Render;
      if d in byDirID { return AlreadyExists; }
      var id := NewID();
      var p := new Cell(id, d, login, displayName);
      Link(p);
      r := Made(p.Value());
    }

    /** The next rendering of the counter, never handed out before. */
    method NewID() returns (id: string)
      requires Valid()
      modifies this`nextID
      ensures Valid() && nextID == old(nextID) + 1
      ensures id == Decimal.Render(nextID) && id !in byID && Issued(id, nextID)
    {
      forall i | i in byID ensures Issued(i, nextID + 1) && i != Decimal.Render(nextID + 1) { NextIdIsNew(i, nextID); }
      nextID := nextID + 1;
      id := Decimal.Render(nextID);
    }

    /** Enters one cell into both indexes. */
    method Link(p: Cell)
      requires Valid() && p.directoryId !in byDirID && p.id !in byID && Issued(p.id, nextID)
      modifies this`byDirID, this`byID
      ensures Valid() && byDirID.Values == old(byDirID.Values) + {p}
      ensures Accounts() == old(Accounts())[p.directoryId := p.Value()]
    {
      hide Issued;
      ValuesAdd(byDirID, p.directoryId, p);
      byDirID := byDirID[p.directoryId := p];
      byID := byID[p.id := p];
    }

    method UpdateHelpper(id: string, enabled: bool, displayName: string, login: string) returns (found: bool)
      requires Valid()
      modifies byDirID.Values
      ensures Valid()
      ensures found <==> exists d :: d in old(Accounts()) && old(Accounts())[d].id == id
      ensures Accounts() == UpdatedById(old(Accounts()), id, enabled, displayName, login)
    {
      hide Issued;
      if id !in byID {
        assert UpdatedById(Accounts(), id, enabled, displayName, login) == Accounts();
        return false;
      }
      var p := byID[id];
      assert byDirID[p.directoryId] == p;
      assert Accounts()[p.directoryId].id == id;
      p.enabled := enabled;
      p.displayName := displayName;
      p.login := login;
      found := true;
    }

    /** The enabled accounts, ordered by directory id. */
    method EnabledHelppers() returns (r: seq<Helpper>)
      requires Valid()
      ensures forall k :: 0 <= k < |r| ==> Get(Accounts(), r[k].directoryId) == Some(r[k])
      ensures DirectoryIds(r) == Ordering.Enumerate(EnabledIds(Accounts()))
    {
      hide Collected, DirectoryIds, Ordering.Enumerate, Distinct, Sorted, Ascending, Get;
      var found: seq<Helpper> := [];
      var rest := byDirID.Keys;
      ghost var h := Accounts();
      CollectedNothing(h);
      assert h.Keys == rest;
      while rest != {}
        invariant rest <= byDirID.Keys && Collected(h, rest, found)
        decreases rest
      {
        var d :| d in rest;
        var p := byDirID[d];
        CollectedStep(h, rest, found, d);
        if p.enabled { found := found + [p.Value()]; }
        rest := rest - {d};
      }
      CollectedAll(h, found);
      r := SortByDirectoryID(found);
      PermutedDistinct(r, found);
      DistinctAscending(r);
      assert forall k :: 0 <= k < |r| ==> r[k] in found;
      SameDirectoryIds(r, found);
      SortedIsEnumeration(r, EnabledIds(h));
    }

    method Checkpoint() returns (at: int)
      ensures at == checkpoint
    {
      at := checkpoint;
    }

    method SetCheckpoint(at: int)
      modifies this`checkpoint
      ensures checkpoint == at
    {
      checkpoint := at;
    }
  }

  /** `found` holds exactly the enabled accounts outside `rest`, once each. */
  ghost predicate Collected(h: Helppers, rest: set<string>, found: seq<Helpper>) {
    && Distinct(found)
    && (forall k :: 0 <= k < |found| ==>
          Get(h, found[k].directoryId) == Some(found[k]) && found[k].directoryId !in rest)
    && (forall d :: d in EnabledIds(h) <==> d in DirectoryIds(found) || (d in rest && d in h && h[d].enabled))
  }

  lemma CollectedNothing(h: Helppers)
    ensures Collected(h, h.Keys, [])
  {}

  lemma CollectedAll(h: Helppers, found: seq<Helpper>)
    requires Collected(h, {}, found)
    ensures Distinct(found) && (forall p :: p in found ==> Get(h, p.directoryId) == Some(p))
    ensures forall d :: d in EnabledIds(h) <==> d in DirectoryIds(found)
  {}

  lemma CollectedStep(h: Helppers, rest: set<string>, found: seq<Helpper>, d: string)
    requires Collected(h, rest, found) && d in rest && d in h && h[d].directoryId == d
    ensures Collected(h, rest - {d}, if h[d].enabled then found + [h[d]] else found)
  {
    DirectoryIdsAppend(found, h[d]);
  }

  lemma SameDirectoryIds(r: seq<Helpper>, s: seq<Helpper>)
    requires forall p :: p in r <==> p in s
    ensures forall d :: d in DirectoryIds(r) <==> d in DirectoryIds(s)
  {
    forall d ensures d in DirectoryIds(r) <==> d in DirectoryIds(s) {
      if k :| 0 <= k < |r| && r[k].directoryId == d {
        assert r[k] in s;
        var j :| 0 <= j < |s| && s[j] == r[k];
        assert DirectoryIds(s)[j] == d;
      }
      if k :| 0 <= k < |s| && s[k].directoryId == d {
        assert s[k] in r;
        var j :| 0 <= j < |r| && r[j] == s[k];
        assert DirectoryIds(r)[j] == d;
      }
    }
  }

  ghost predicate Distinct(s: seq<Helpper>) {
    forall i, j :: 0 <= i < j < |s| ==> s[i].directoryId != s[j].directoryId
  }

  lemma DirectoryIdsAppend(s: seq<Helpper>, p: Helpper)
    ensures DirectoryIds(s + [p]) == DirectoryIds(s) + [p.directoryId]
  {}

  ghost predicate Sorted(s: seq<Helpper>) { Ordering.StrictlySorted(DirectoryIds(s)) }

  lemma SortedIsEnumeration(s: seq<Helpper>, ids: set<string>)
    requires Sorted(s) && forall d :: d in ids <==> d in DirectoryIds(s)
    ensures DirectoryIds(s) == Ordering.Enumerate(ids)
  {
    Ordering.SortedUnique(DirectoryIds(s), Ordering.Enumerate(ids));
  }

  /** No account comes after one with a greater directory id. */
  ghost predicate Ascending(s: seq<Helpper>) {
    forall i, j :: 0 <= i < j < |s| ==> !Ordering.Less(s[j].directoryId, s[i].directoryId)
  }

  lemma DistinctAscending(s: seq<Helpper>)
    requires Ascending(s) && Distinct(s)
    ensures Sorted(s)
  {
    forall i, j | 0 <= i < j < |s| ensures Ordering.Less(DirectoryIds(s)[i], DirectoryIds(s)[j]) {
      Ordering.LessTotal(s[i].directoryId, s[j].directoryId);
    }
    hide Ordering.Less;
  }

  /** Insertion sort by directory id. */
  method SortByDirectoryID(s: seq<Helpper>) returns (r: seq<Helpper>)
    ensures Ascending(r) && multiset(r) == multiset(s)
  {
    hide Ascending;
    r := [];
    AscendingNothing();
    var i := 0;
    while i < |s|
      invariant 0 <= i <= |s| && Ascending(r) && multiset(r) == multiset(s[..i])
    {
      assert s[..i + 1] == s[..i] + [s[i]];
      r := Insert(r, s[i]);
      i := i + 1;
    }
    assert s[..i] == s;
  }

  lemma AscendingNothing()
    ensures Ascending([])
  {}

  method Insert(s: seq<Helpper>, p: Helpper) returns (r: seq<Helpper>)
    requires Ascending(s)
    ensures Ascending(r) && multiset(r) == multiset(s) + multiset{p}
  {
    var i := 0;
    while i < |s| && Ordering.Less(s[i].directoryId, p.directoryId)
      invariant 0 <= i <= |s|
      invariant forall k :: 0 <= k < i ==> Ordering.Less(s[k].directoryId, p.directoryId)
    {
      i := i + 1;
    }
    r := s[..i] + [p] + s[i..];
    assert s == s[..i] + s[i..];
    InsertedAscends(s, p, i);
  }

  lemma InsertedAscends(s: seq<Helpper>, p: Helpper, i: nat)
    requires Ascending(s) && i <= |s|
    requires forall k :: 0 <= k < i ==> Ordering.Less(s[k].directoryId, p.directoryId)
    requires i < |s| ==> !Ordering.Less(s[i].directoryId, p.directoryId)
    ensures Ascending(s[..i] + [p] + s[i..])
  {
    hide Ordering.Less;
    var r := s[..i] + [p] + s[i..];
    forall j, k | 0 <= j < k < |r| ensures !Ordering.Less(r[k].directoryId, r[j].directoryId) {
      if k == i { NotBoth(r[j].directoryId, p.directoryId); }
      else if j == i && k - 1 > i { NotBefore(s[k - 1].directoryId, s[i].directoryId, p.directoryId); }
    }
  }

  lemma NotBoth(a: string, b: string)
    requires Ordering.Less(a, b)
    ensures !Ordering.Less(b, a)
  {
    hide Ordering.Less;
    if Ordering.Less(b, a) {
      Ordering.LessTransitive(a, b, a);
      Ordering.LessIrreflexive(a);
    }
  }

  lemma NotBefore(a: string, b: string, p: string)
    requires !Ordering.Less(a, b) && !Ordering.Less(b, p)
    ensures !Ordering.Less(a, p)
  {
    hide Ordering.Less;
    if Ordering.Less(a, p) && b != p {
      Ordering.LessTotal(b, p);
      Ordering.LessTransitive(a, p, b);
    }
  }

  lemma SameMembers(r: seq<Helpper>, s: seq<Helpper>)
    requires multiset(r) == multiset(s)
    ensures forall p :: p in r <==> p in s
  {
    forall p ensures p in r <==> p in s { assert p in multiset(r) <==> p in multiset(s); }
  }

  lemma OccursTwice(r: seq<Helpper>, i: nat, j: nat)
    requires i < j < |r| && r[i] == r[j]
    ensures multiset(r)[r[i]] >= 2
  {
    assert r == r[..j] + r[j..];
    assert multiset(r) == multiset(r[..j]) + multiset(r[j..]);
    assert r[..j][i] == r[i] && r[j..][0] == r[i];
    assert r[i] in multiset(r[..j]) && r[i] in multiset(r[j..]);
  }

  /** A permutation keeps the ids distinct, and the members. */
  lemma PermutedDistinct(r: seq<Helpper>, s: seq<Helpper>)
    requires multiset(r) == multiset(s) && Distinct(s)
    ensures Distinct(r) && forall p :: p in r <==> p in s
  {
    SameMembers(r, s);
    forall i, j | 0 <= i < j < |r| ensures r[i].directoryId != r[j].directoryId {
      if r[i].directoryId == r[j].directoryId {
        assert r[i] in r && r[j] in r;
        var x :| 0 <= x < |s| && s[x] == r[i];
        var y :| 0 <= y < |s| && s[y] == r[j];
        OnceOnly(s, x);
        OccursTwice(r, i, j);
      }
    }
  }

  lemma OnceOnly(s: seq<Helpper>, x: nat)
    requires Distinct(s) && x < |s|
    ensures multiset(s)[s[x]] == 1
  {
    assert s == s[..x] + [s[x]] + s[x + 1..];
    assert s[x] !in s[..x] && s[x] !in s[x + 1..];
  }
}
