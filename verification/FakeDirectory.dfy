/** The directory: records changed in place, and the table of bound externalIds. */
module FakeDirectory {
  import opened Records
  import opened Protocol
  import opened Pager
  import opened Cycle
  import opened Bindings

  const DEFAULT_COUNT := 100

  class Directory {
    var users: seq<User>
    var bound: map<string, string>

    constructor (records: seq<User>)
      ensures users == records && bound == Tabled(records)
    {
      users := records;
      bound := map[];
      new;
      var i := 0;
      while i < |users|
        invariant 0 <= i <= |users| && users == records && bound == Tabled(users[..i])
      {
        var u := users[i];
        assert users[..i + 1][..i] == users[..i];
        if u.externalId != "" { bound := bound[u.externalId := u.id]; }
        i := i + 1;
      }
      assert users[..i] == users;
    }

    /** Edits the first record carrying `id`, if any, and stamps it. */
    method Touch(id: string, at: int, mutate: User -> User)
      modifies this`users
      ensures
        var i := IndexOf(old(users), id);
        users == if i < |old(users)| then old(users)[i := mutate(old(users)[i]).(lastModified := at)] else old(users)
    {
      var i := 0;
      while i < |users|
        invariant 0 <= i <= |users| && users == old(users)
        invariant forall j :: 0 <= j < i ==> users[j].id != id
      {
        if users[i].id == id {
          FirstIndex(users, id, i);
          users := users[i := mutate(users[i]).(lastModified := at)];
          return;
        }
        i := i + 1;
      }
    }

    /** One page of the records after `since`, and how many there are in all. `ix` are the
        positions the page was read from. */
    method List(since: int, startIndex: int, count: int) returns (page: seq<User>, total: nat, ghost ix: seq<nat>)
      ensures total == |AllMatches(users, since)|
      ensures ix == PageIx(users, since, startIndex, if count <= 0 then DEFAULT_COUNT else count)
      ensures |page| == |ix| && forall k :: 0 <= k < |page| ==> page[k] == users[ix[k]]
    {
      var first, size := if startIndex < 1 then 1 else startIndex, if count <= 0 then DEFAULT_COUNT else count;
      var matched: seq<User> := [];
      ix := [];
      var i := 0;
      while i < |users|
        invariant 0 <= i <= |users|
        invariant ix == MatchIx(users, since, i) && |matched| == |ix|
        invariant forall k :: 0 <= k < |matched| ==> matched[k] == users[ix[k]]
      {
        if since == 0 || users[i].lastModified > since {
          matched, ix := matched + [users[i]], ix + [i];
        }
        i := i + 1;
      }
      total := |matched|;
      if first - 1 < |matched| { page, ix := matched[first - 1..], ix[first - 1..]; } else { page, ix := [], []; }
      if |page| > size { page, ix := page[..size], ix[..size]; }
    }

    /** One PATCH operation: refused unless it names externalId and a known record, refused
        when the value is another identity's; else the old binding is released, the value
        bound, and the record stamped a second later. */
    method Patch(op: PatchOp) returns (r: PatchResult, forbidden: bool)
      modifies this
      ensures forbidden <==> Known(old(users), op.id) && op.path != "externalId"
      ensures !forbidden ==> r == PatchOutcome(old(users), old(bound), op.id, op.value)
      ensures
        if Takes(old(users), old(bound), op)
        then users == PatchedUsers(old(users), op.id, op.value) && bound == Rebound(old(bound), op.id, op.value)
        else users == old(users) && bound == old(bound)
    {
      r, forbidden := NotFound, false;
      if !(exists i :: 0 <= i < |users| && users[i].id == op.id) { return; }
      if op.path != "externalId" { forbidden := true; return; }
      if op.value in bound && bound[op.value] != op.id { r := Conflict; return; }

      Release(op.id, op.value);
      bound := bound[op.value := op.id];
      Stamp(op.id, op.value);
      r := Accepted;
    }

    /** Deletes the identity's bindings to other values. */
    method Release(id: string, value: string)
      modifies this`bound
      ensures bound == map k | k in old(bound) && (old(bound)[k] != id || k == value) :: old(bound)[k]
    {
      var rest := bound.Keys;
      while rest != {}
        invariant rest <= old(bound).Keys
        invariant forall k :: k in bound ==> k in old(bound) && bound[k] == old(bound)[k]
        invariant forall k :: k in old(bound) && (k in rest || old(bound)[k] != id || k == value) ==> k in bound
        invariant forall k :: k in bound && k !in rest && bound[k] == id ==> k == value
        decreases rest
      {
        var k :| k in rest;
        if bound[k] == id && k != value { bound := map j | j in bound && j != k :: bound[j]; }
        rest := rest - {k};
      }
    }

    /** Sets the value of every record with the id, and stamps it a second later. */
    method Stamp(id: string, value: string)
      modifies this`users
      ensures users == PatchedUsers(old(users), id, value)
    {
      var i := 0;
      while i < |users|
        invariant 0 <= i <= |users| == |old(users)|
        invariant forall j :: 0 <= j < i ==> users[j] == PatchedUsers(old(users), id, value)[j]
        invariant forall j :: i <= j < |users| ==> users[j] == old(users)[j]
      {
        if users[i].id == id {
          users := users[i := users[i].(externalId := value, lastModified := users[i].lastModified + SECOND)];
        }
        i := i + 1;
      }
    }
  }

  lemma {:induction false} FirstIndex(users: seq<User>, id: string, i: nat)
    requires i < |users| && users[i].id == id && forall j :: 0 <= j < i ==> users[j].id != id
    ensures IndexOf(users, id) == i
  {}
}
