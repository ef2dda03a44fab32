/** Directory records and the projection of them the reconciler reads. */
module Records {

  datatype Option<+T> = None | Some(value: T)

  /** Time is an integer number of nanoseconds; 0 is the zero time, "never". */
  const SECOND := 1_000_000_000
  const MINUTE := 60 * SECOND

  datatype Email = Email(value: string, primary: bool)

  /** One identity as the directory publishes it. `active` is optional because a
      missing flag must never be read as "disabled". */
  datatype User = User(
    id: string,
    externalId: string,
    userName: string,
    displayName: string,
    emails: seq<Email>,
    active: Option<bool>,
    lastModified: int)

  /** The alias of the first address marked primary, if any. */
  function FirstPrimary(emails: seq<Email>): Option<string> {
    if emails == [] then None
    else if emails[0].primary then Some(emails[0].value)
    else FirstPrimary(emails[1..])
  }

  function PrimaryEmail(u: User): string {
    match FirstPrimary(u.emails)
    case Some(v) => v
    case None => if |u.emails| > 0 then u.emails[0].value else u.userName
  }

  /** Which address is chosen, said by position: the earliest primary one, else the
      first one, else the user name. */
  lemma {:induction false} PrimaryEmailIsEarliestPrimary(u: User)
    ensures forall k :: EarliestPrimary(u.emails, k) ==> PrimaryEmail(u) == u.emails[k].value
    ensures (forall k :: !EarliestPrimary(u.emails, k))
              ==> PrimaryEmail(u) == if |u.emails| > 0 then u.emails[0].value else u.userName
  {
    var k := FirstPrimaryAt(u.emails);
  }

  predicate EarliestPrimary(emails: seq<Email>, k: int) {
    0 <= k < |emails| && emails[k].primary && forall j :: 0 <= j < k ==> !emails[j].primary
  }

  lemma {:induction false} FirstPrimaryAt(emails: seq<Email>) returns (k: nat)
    ensures if FirstPrimary(emails) == None then forall j :: 0 <= j < |emails| ==> !emails[j].primary
            else EarliestPrimary(emails, k) && FirstPrimary(emails) == Some(emails[k].value)
  {
    k := 0;
    if emails != [] && !emails[0].primary {
      k := FirstPrimaryAt(emails[1..]);
      assert forall j :: 0 <= j < |emails[1..]| ==> emails[1..][j] == emails[j + 1];
      k := k + 1;
    }
  }

  datatype Unusable = NoId | NoActiveFlag | NoLogin

  /** Why a record cannot be used, or None when it can. */
  function Validate(u: User): Option<Unusable> {
    if u.id == "" then Some(NoId)
    else if u.active == None then Some(NoActiveFlag)
    else if u.userName == "" && PrimaryEmail(u) == "" then Some(NoLogin)
    else None
  }

  predicate Usable(u: User) { Validate(u) == None }

  lemma UsableHasFlag(u: User)
    requires Validate(u) == None
    ensures u.active.Some? && u.id != ""
  {}

  /** The email that stands for the record: the earliest primary one, else the first. */
  ghost predicate StandsFor(emails: seq<Email>, k: int) {
    EarliestPrimary(emails, k) || (k == 0 < |emails| && forall j :: !EarliestPrimary(emails, j))
  }

  /** A record is usable exactly when it has an id, an active flag, and a user name or an
      address that stands for it. */
  lemma UsableIff(u: User)
    ensures
      Usable(u)
      <==> u.id != "" && u.active.Some?
           && (u.userName != "" || exists k :: StandsFor(u.emails, k) && u.emails[k].value != "")
  {
    PrimaryEmailIsEarliestPrimary(u);
    var k := FirstPrimaryAt(u.emails);
    if FirstPrimary(u.emails) == None && |u.emails| > 0 { assert StandsFor(u.emails, 0); }
  }

  /** No two records share a non-empty directory id. */
  ghost predicate DistinctIds(users: seq<User>) {
    forall i, j :: 0 <= i < j < |users| && users[i].id == users[j].id ==> users[i].id == ""
  }

  /** RFC 3339 rendering without fractional seconds (section 5.6) drops the fraction. */
  function FloorSecond(t: int): int { t - t % SECOND }

  /** The "modified since" bound an incremental cycle sends; 0 means no bound. */
  function Cutoff(checkpoint: int, overlap: int): int {
    if checkpoint == 0 then 0 else FloorSecond(checkpoint - overlap)
  }

  /** Whether the directory's filter lets a record stamped `lastModified` through. */
  predicate After(lastModified: int, since: int) { since == 0 || lastModified > since }

  predicate Matches(u: User, since: int) { After(u.lastModified, since) }

  /** The bound of an incremental cycle is the whole second at or before the overlap behind the
      checkpoint; a record stamped exactly at the bound is not served, one stamped a nanosecond later
      is. A full cycle has no bound. */
  lemma FilterIsStrict(u: User, checkpoint: int, overlap: int)
    requires checkpoint != 0
    ensures
      var since := Cutoff(checkpoint, overlap);
      && since % 1_000_000_000 == 0 && since <= checkpoint - overlap < since + 1_000_000_000
      && (since != 0 ==>
            !Matches(u.(lastModified := since), since) && Matches(u.(lastModified := since + 1), since))
    ensures Matches(u, 0)
  {}
}
