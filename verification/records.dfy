/**
 The persistent records (users and one-time passcodes), the client session,
 and the store queries the handlers issue.  The store is two sequences in
 insertion order; nothing is ever deleted, so a record's position is a
 stable identity.
 */
module Records {

  datatype Option<+T> = None | Some(value: T)

  /** Database ids are assigned from 1 upward, so no real id is falsy:
      `if not pending_id` holds exactly when the session has no entry. */
  type UserId = x: int | x >= 1 witness 1

  /** A registered account.  `passwordHash` is the salted one-way hash made
      at registration; the plaintext password is never kept. */
  datatype User = User(id: UserId, username: string, email: string, passwordHash: string)

  /** One issued passcode.  Only the digest of the code is kept.  Times are
      microseconds on the server's UTC clock. */
  datatype Otp = Otp(
    userId: UserId,
    otpHash: string,
    createdAt: int,
    expiresAt: int,
    used: bool,
    attempts: int)

  /** The two session entries the flow reads and writes: the user waiting
      for passcode confirmation, and the signed-in user. */
  datatype Session = Session(pendingUserId: Option<UserId>, userId: Option<UserId>)

  datatype Store = Store(users: seq<User>, otps: seq<Otp>)

  const NoSession := Session(None, None)
  const EmptyStore := Store([], [])

  /** The id the database gives the next user: one past the last, since ids
      count from 1 and no user is ever removed. */
  function NextUserId(users: seq<User>): UserId {
    |users| + 1
  }

  /** `User.query.filter_by(username=name).first()`: the earliest user with
      that name, if any.  Names compare character by character, as under
      SQLite's default (binary) collation. */
  function FindByUsername(users: seq<User>, name: string): (r: Option<nat>)
    ensures r.Some? ==> r.value < |users| && users[r.value].username == name
    ensures r.Some? ==> forall k :: 0 <= k < r.value ==> users[k].username != name
    ensures r.None? <==> forall k :: 0 <= k < |users| ==> users[k].username != name
  {
    if |users| == 0 then None
    else if users[0].username == name then Some(0)
    else match FindByUsername(users[1..], name)
      case None => None
      case Some(k) => Some(k + 1)
  }

  /** The duplicate test at registration: some user already has this
      username or this email.  Like the query's `=`, the comparison is
      character by character (SQLite's default binary collation). */
  predicate NameOrEmailTaken(users: seq<User>, name: string, email: string) {
    exists k :: 0 <= k < |users| && (users[k].username == name || users[k].email == email)
  }

  /** A passcode row the verification query can see for `uid`:
      `filter_by(user_id=uid, used=False)`. */
  predicate Unused(o: Otp, uid: UserId) {
    o.userId == uid && !o.used
  }

  /** The most recent unused passcode of `uid`: the last such row in
      insertion order.  The source orders by `created_at` descending; using
      the position instead leaves no tie between equal timestamps. */
  function LatestUnused(otps: seq<Otp>, uid: UserId): (r: Option<nat>)
    ensures r.Some? ==> r.value < |otps| && Unused(otps[r.value], uid)
    ensures r.Some? ==> forall j :: r.value < j < |otps| ==> !Unused(otps[j], uid)
    ensures r.None? <==> forall j :: 0 <= j < |otps| ==> !Unused(otps[j], uid)
  {
    if |otps| == 0 then None
    else if Unused(otps[|otps| - 1], uid) then Some(|otps| - 1)
    else LatestUnused(otps[..|otps| - 1], uid)
  }

  /** The latest passcode of `uid` of any kind, used or not. */
  function LatestOf(otps: seq<Otp>, uid: UserId): (r: Option<nat>)
    ensures r.Some? ==> r.value < |otps| && otps[r.value].userId == uid
    ensures r.Some? ==> forall j :: r.value < j < |otps| ==> otps[j].userId != uid
    ensures r.None? <==> forall j :: 0 <= j < |otps| ==> otps[j].userId != uid
  {
    if |otps| == 0 then None
    else if otps[|otps| - 1].userId == uid then Some(|otps| - 1)
    else LatestOf(otps[..|otps| - 1], uid)
  }

  /** Rows are stored in order of creation time. */
  predicate CreatedInOrder(otps: seq<Otp>) {
    forall i, j :: 0 <= i < j < |otps| ==> otps[i].createdAt <= otps[j].createdAt
  }

  /** The tie-break is sound: while rows are stored in order of creation time,
      the row chosen by position has the greatest `created_at` among the
      candidates, and it is the last of those sharing that time; so it is the
      first row `order_by(created_at.desc())` could return. */
  lemma LatestUnusedIsNewest(otps: seq<Otp>, uid: UserId)
    requires CreatedInOrder(otps)
    requires LatestUnused(otps, uid).Some?
    ensures var i := LatestUnused(otps, uid).value;
            forall j :: 0 <= j < |otps| && Unused(otps[j], uid) ==>
              otps[j].createdAt <= otps[i].createdAt && j <= i
  {
  }
}
