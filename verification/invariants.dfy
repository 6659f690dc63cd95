/**
 Invariants of a store used by a single client session, starting from an
 empty database.  Registration keeps usernames and emails unique; a pending
 login always has a live passcode row, so with one session the
 "No OTP found" exit of verification cannot be reached.
 */
module Invariants {
  import opened Text
  import opened Records
  import opened OtpEngine
  import opened Flow
  import opened Lifecycle

  /** Ids are handed out 1, 2, 3, ... in insertion order. */
  predicate UsersIndexed(users: seq<User>) {
    forall k :: 0 <= k < |users| ==> users[k].id == k + 1
  }

  predicate UniqueUsernames(users: seq<User>) {
    forall j, k :: 0 <= j < k < |users| ==> users[j].username != users[k].username
  }

  predicate UniqueEmails(users: seq<User>) {
    forall j, k :: 0 <= j < k < |users| ==> users[j].email != users[k].email
  }

  /** Every passcode row belongs to a registered user. */
  predicate OwnersExist(st: Store) {
    forall j :: 0 <= j < |st.otps| ==> st.otps[j].userId <= |st.users|
  }

  /** The user a pending login refers to exists, and their newest passcode
      row has not been consumed. */
  predicate PendingHasLiveRow(st: Store, sess: Session) {
    sess.pendingUserId.Some? ==>
      var u := sess.pendingUserId.value;
      && u <= |st.users|
      && LatestOf(st.otps, u).Some?
      && !st.otps[LatestOf(st.otps, u).value].used
  }

  predicate Consistent(sys: System) {
    && UsersIndexed(sys.store.users)
    && UniqueUsernames(sys.store.users)
    && UniqueEmails(sys.store.users)
    && OwnersExist(sys.store)
    && CountersNonNegative(sys.store)
    && PendingHasLiveRow(sys.store, sys.session)
    && (sys.session.userId.Some? ==> sys.session.userId.value <= |sys.store.users|)
  }

  const Fresh := System(EmptyStore, NoSession)

  lemma FreshIsConsistent()
    ensures Consistent(Fresh)
  {
  }

  /** `LatestOf` looks only at owners, so rows updated in place do not move it. */
  lemma {:induction false} LatestOfSameOwners(a: seq<Otp>, b: seq<Otp>, u: UserId)
    requires |a| == |b|
    requires forall j :: 0 <= j < |a| ==> a[j].userId == b[j].userId
    ensures LatestOf(a, u) == LatestOf(b, u)
  {
    if |a| > 0 {
      LatestOfSameOwners(a[..|a| - 1], b[..|b| - 1], u);
    }
  }

  lemma RegisterPreservesConsistent(sys: System, username: string, email: string, password: string, passwordHash: string)
    requires Consistent(sys)
    ensures var r := Register(sys.store, username, email, password, passwordHash);
            Consistent(System(r.store, sys.session))
  {
    var r := Register(sys.store, username, email, password, passwordHash);
    if r.outcome.Registered? {
      var users := sys.store.users;
      var users' := r.store.users;
      assert users'[..|users|] == users;
      forall j, k | 0 <= j < k < |users'|
        ensures users'[j].username != users'[k].username
        ensures users'[j].email != users'[k].email
      {
        if k == |users| {
          assert users'[j] == users[j];
          assert !NameOrEmailTaken(users, Strip(username), Lower(Strip(email)));
        }
      }
    }
  }

  lemma LoginPreservesConsistent(cfg: Config, sys: System, username: string, password: string, draw: int, now: int)
    requires Consistent(sys)
    requires 0 <= draw < 900000
    ensures var r := Login(cfg, sys.store, sys.session, username, password, draw, now);
            Consistent(System(r.store, r.session))
  {
    var r := Login(cfg, sys.store, sys.session, username, password, draw, now);
    if r.outcome.OtpIssued? {
      var otps := sys.store.otps;
      var otps' := r.store.otps;
      assert otps'[..|otps|] == otps;
      forall j | 0 <= j < |otps'|
        ensures otps'[j].userId <= |r.store.users| && otps'[j].attempts >= 0
      {
        if j < |otps| { assert otps'[j] == otps[j]; }
      }
      var v := r.outcome.userId;
      assert v <= |sys.store.users|;
      assert LatestOf(otps', v) == Some(|otps|);
      assert PendingHasLiveRow(r.store, r.session);
    }
  }

  lemma VerifyPreservesConsistent(cfg: Config, sys: System, submitted: string, now: int)
    requires Consistent(sys)
    ensures var r := Verify(cfg, sys.store, sys.session, submitted, now);
            Consistent(System(r.store, r.session))
  {
    var r := Verify(cfg, sys.store, sys.session, submitted, now);
    if r.outcome.ReachedRow() {
      var u := sys.session.pendingUserId.value;
      var i := r.outcome.index;
      var otps := sys.store.otps;
      var otps' := r.store.otps;
      var a := Attempt(otps[i], cfg.digest(Strip(submitted)), now, cfg.maxAttempts);
      assert otps' == otps[i := a.row];
      forall j | 0 <= j < |otps|
        ensures otps'[j].userId == otps[j].userId
        ensures otps'[j].attempts >= otps[j].attempts
        ensures !r.outcome.Verified? ==> otps'[j].used == otps[j].used
      {
      }
      if !r.outcome.Verified? {
        LatestOfSameOwners(otps, otps', u);
      }
    }
  }

  /** Every handler keeps the store and the session consistent. */
  lemma StepPreservesConsistent(cfg: Config, sys: System, e: Event)
    requires Consistent(sys)
    requires WellFormed(e)
    ensures Consistent(Step(cfg, sys, e).system)
  {
    match e.request
    case RegisterRequest(u, m, p, h) => RegisterPreservesConsistent(sys, u, m, p, h);
    case LoginRequest(u, p, d) => LoginPreservesConsistent(cfg, sys, u, p, d, e.now);
    case VerifyRequest(c) => VerifyPreservesConsistent(cfg, sys, c, e.now);
    case LogoutRequest =>
  }

  lemma {:induction false} RunPreservesConsistent(cfg: Config, sys: System, evs: seq<Event>)
    requires Consistent(sys)
    requires AllWellFormed(evs)
    ensures Consistent(Run(cfg, sys, evs).last)
    decreases |evs|
  {
    if |evs| > 0 {
      StepPreservesConsistent(cfg, sys, evs[0]);
      RunPreservesConsistent(cfg, Step(cfg, sys, evs[0]).system, evs[1..]);
    }
  }

  /** In a consistent system verification always finds a row. */
  lemma ConsistentFindsRow(cfg: Config, sys: System, submitted: string, now: int)
    requires Consistent(sys)
    ensures Verify(cfg, sys.store, sys.session, submitted, now).outcome != NoActiveOtp
  {
    if sys.session.pendingUserId.Some? {
      var u := sys.session.pendingUserId.value;
      var i := LatestOf(sys.store.otps, u).value;
      assert Unused(sys.store.otps[i], u);
    }
  }

  /** With a single session from an empty database, no request sequence ever
      reaches the "No OTP found" exit. */
  lemma {:induction false} NoActiveOtpUnreachable(cfg: Config, sys: System, evs: seq<Event>)
    requires Consistent(sys)
    requires AllWellFormed(evs)
    ensures forall k :: 0 <= k < |evs| ==> Run(cfg, sys, evs).outcomes[k] != VerifyDone(NoActiveOtp)
    decreases |evs|
  {
    if |evs| > 0 {
      var s := Step(cfg, sys, evs[0]);
      var rest := Run(cfg, s.system, evs[1..]);
      var outs := Run(cfg, sys, evs).outcomes;
      assert outs == [s.outcome] + rest.outcomes;
      if evs[0].request.VerifyRequest? {
        ConsistentFindsRow(cfg, sys, evs[0].request.code, evs[0].now);
      }
      StepPreservesConsistent(cfg, sys, evs[0]);
      NoActiveOtpUnreachable(cfg, s.system, evs[1..]);
      forall k | 0 <= k < |evs| ensures outs[k] != VerifyDone(NoActiveOtp) {
        if k > 0 { assert outs[k] == rest.outcomes[k - 1]; }
      }
    }
  }

  /** With unique usernames, login authenticates exactly when some user has
      the stripped name and the password checks against that user's hash. */
  lemma LoginSucceedsIff(cfg: Config, users: seq<User>, username: string, password: string)
    requires UniqueUsernames(users)
    ensures Authenticate(cfg, users, username, password).Some? <==>
            exists k :: 0 <= k < |users| && users[k].username == Strip(username)
                        && cfg.checkPassword(users[k].passwordHash, password)
  {
    var f := FindByUsername(users, Strip(username));
    if f.Some? {
      forall k | 0 <= k < |users| && users[k].username == Strip(username)
        ensures k == f.value
      {
      }
    }
  }

  /** Two emails that differ only in letter case (and surrounding blanks)
      cannot both be registered: the second registration is refused. */
  lemma EmailsDifferingInCaseCollide(
    st: Store,
    name1: string, email1: string, password1: string, hash1: string,
    name2: string, email2: string, password2: string, hash2: string)
    requires Register(st, name1, email1, password1, hash1).outcome.Registered?
    requires Lower(email1) == Lower(email2)
    requires !AnyFieldMissing(name2, email2, password2)
    ensures Register(Register(st, name1, email1, password1, hash1).store, name2, email2, password2, hash2).outcome
            == AlreadyExists
  {
    var st1 := Register(st, name1, email1, password1, hash1).store;
    LowerStripCommute(email1);
    LowerStripCommute(email2);
    var k := |st.users|;
    assert st1.users[k].email == Lower(Strip(email2));
    assert NameOrEmailTaken(st1.users, Strip(name2), Lower(Strip(email2)));
  }
}
