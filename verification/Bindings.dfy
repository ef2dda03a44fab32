/** The directory's table of externalIds: it stays the exact inverse of the records. */
module Bindings {
  import opened Records
  import opened Protocol

  /** Every record's externalId is bound to it, and every binding is some record's. */
  ghost predicate Inverse(users: seq<User>, bound: map<string, string>) {
    && (forall i :: 0 <= i < |users| && users[i].externalId != "" ==>
          users[i].externalId in bound && bound[users[i].externalId] == users[i].id)
    && (forall v :: v in bound ==> v != "" && Holds(users, bound[v], v))
  }

  ghost predicate Holds(users: seq<User>, id: string, v: string) {
    exists i :: 0 <= i < |users| && users[i].id == id && users[i].externalId == v
  }

  /** One PATCH as the directory answers it: any attribute but externalId is refused. */
  datatype PatchOp = PatchOp(id: string, path: string, value: string)

  predicate Takes(users: seq<User>, bound: map<string, string>, op: PatchOp) {
    op.path == "externalId" && PatchOutcome(users, bound, op.id, op.value) == Accepted
  }

  function AfterPatch(w: World, op: PatchOp): World {
    if Takes(w.users, w.bound, op) then Patched(w, op.id, op.value) else w
  }

  lemma PatchKeepsInverse(w: World, id: string, value: string)
    requires Inverse(w.users, w.bound) && value != ""
    requires PatchOutcome(w.users, w.bound, id, value) == Accepted
    ensures Inverse(Patched(w, id, value).users, Patched(w, id, value).bound)
  {
    var w' := Patched(w, id, value);
    var x :| 0 <= x < |w.users| && w.users[x].id == id;
    forall i | 0 <= i < |w.users| && w'.users[i].externalId != ""
      ensures w'.users[i].externalId in w'.bound && w'.bound[w'.users[i].externalId] == w'.users[i].id
    {
      if w.users[i].id != id { assert w.bound[w.users[i].externalId] == w.users[i].id; }
    }
    forall v | v in w'.bound ensures v != "" && Holds(w'.users, w'.bound[v], v) {
      if v == value {
        assert w'.users[x].id == id;
      } else {
        assert Holds(w.users, w.bound[v], v);
        var i :| 0 <= i < |w.users| && w.users[i].id == w.bound[v] && w.users[i].externalId == v;
        assert w'.users[i] == w.users[i];
      }
    }
  }

  /** Accepting the empty value is what breaks the table, whatever the record. */
  lemma EmptyValueBreaksInverse(w: World, id: string)
    requires PatchOutcome(w.users, w.bound, id, "") == Accepted
    ensures !Inverse(Patched(w, id, "").users, Patched(w, id, "").bound)
  {
    assert "" in Patched(w, id, "").bound;
  }

  /** A PATCH keeps the table the inverse of the records exactly when it is refused or carries a
      value; a refused one changes nothing. */
  lemma PatchInverseIff(w: World, op: PatchOp)
    requires Inverse(w.users, w.bound)
    ensures
      Inverse(AfterPatch(w, op).users, AfterPatch(w, op).bound)
      <==> !Takes(w.users, w.bound, op) || op.value != ""
    ensures !Takes(w.users, w.bound, op) ==> AfterPatch(w, op) == w
  {
    hide Inverse;
    if Takes(w.users, w.bound, op) {
      if op.value != "" { PatchKeepsInverse(w, op.id, op.value); } else { EmptyValueBreaksInverse(w, op.id); }
    }
  }

  lemma PatchedDistinct(w: World, id: string, value: string)
    requires DistinctIds(w.users)
    ensures DistinctIds(Patched(w, id, value).users)
  {}

  function AfterPatches(w: World, ops: seq<PatchOp>): World {
    if ops == [] then w else AfterPatch(AfterPatches(w, ops[..|ops| - 1]), ops[|ops| - 1])
  }

  /** Two records never share a value: the bindings answer for that. */
  lemma InverseIsInjective(users: seq<User>, bound: map<string, string>, i: nat, j: nat)
    requires Inverse(users, bound) && DistinctIds(users) && i < |users| && j < |users|
    requires users[i].externalId == users[j].externalId != "" && users[i].id != ""
    ensures i == j
  {}

  /** Over any sequence of non-empty patches. */
  lemma {:induction false} PatchesKeepInverse(w: World, ops: seq<PatchOp>)
    requires Inverse(w.users, w.bound)
    requires forall k :: 0 <= k < |ops| ==> ops[k].value != ""
    ensures var w' := AfterPatches(w, ops); Inverse(w'.users, w'.bound)
  {
    hide Inverse, Takes;
    if ops != [] {
      PatchesKeepInverse(w, ops[..|ops| - 1]);
      PatchInverseIff(AfterPatches(w, ops[..|ops| - 1]), ops[|ops| - 1]);
    }
  }

  // ---- what a partner may write ----

  /** A record without the two fields a write-back changes. */
  function ReadOnly(u: User): User { u.(externalId := "", lastModified := 0) }

  /** Whatever patches are sent, only externalId, and the stamp with it, ever changes; patches of any
      other attribute change nothing at all. */
  lemma {:induction false} OnlyExternalIdIsWritable(w: World, ops: seq<PatchOp>)
    ensures
      var w' := AfterPatches(w, ops);
      && |w'.users| == |w.users| && w'.helpers == w.helpers && w'.checkpoint == w.checkpoint
      && (forall i :: 0 <= i < |w.users| ==> ReadOnly(w'.users[i]) == ReadOnly(w.users[i]))
    ensures (forall k :: 0 <= k < |ops| ==> ops[k].path != "externalId") ==> AfterPatches(w, ops) == w
  {
    hide PatchOutcome, Rebound;
    if ops != [] { OnlyExternalIdIsWritable(w, ops[..|ops| - 1]); }
  }

  // ---- building the table ----

  /** The table of a fresh directory, built record by record. */
  function Tabled(users: seq<User>): map<string, string> {
    if users == [] then map[]
    else
      var u := users[|users| - 1];
      var m := Tabled(users[..|users| - 1]);
      if u.externalId != "" then m[u.externalId := u.id] else m
  }

  ghost predicate DistinctValues(users: seq<User>) {
    forall i, j :: 0 <= i < j < |users| && users[i].externalId == users[j].externalId ==> users[i].externalId == ""
  }

  /** The fresh table is the inverse of the records when no value is shared. */
  lemma {:induction false} TabledIsInverse(users: seq<User>)
    requires DistinctValues(users)
    ensures Inverse(users, Tabled(users))
  {
    if users != [] {
      var n := |users| - 1;
      TabledIsInverse(users[..n]);
      forall v | v in Tabled(users) ensures v != "" && Holds(users, Tabled(users)[v], v) {
        if v in Tabled(users[..n]) && Tabled(users)[v] == Tabled(users[..n])[v] {
          assert Holds(users[..n], Tabled(users)[v], v);
          var i :| 0 <= i < n && users[..n][i].id == Tabled(users)[v] && users[..n][i].externalId == v;
          assert users[i].externalId == v;
        } else {
          assert users[n].externalId == v;
        }
      }
      forall i | 0 <= i < |users| && users[i].externalId != ""
        ensures users[i].externalId in Tabled(users) && Tabled(users)[users[i].externalId] == users[i].id
      {
        if i < n { assert users[..n][i] == users[i]; }
      }
    }
  }

  /** Binding afresh a value the record already holds changes no binding. */
  lemma ReboundSame(w: World, x: nat, v: string)
    requires DistinctIds(w.users) && Inverse(w.users, w.bound)
    requires x < |w.users| && w.users[x].id != "" && w.users[x].externalId == v != ""
    ensures Rebound(w.bound, w.users[x].id, v) == w.bound
  {}
}
