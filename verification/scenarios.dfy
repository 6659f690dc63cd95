/**
 The login step and the verification step together: the code mailed by a
 successful login is accepted while it is fresh, rejected once it has
 expired, and a wrong code costs exactly one attempt.
 */
module Scenarios {
  import opened Text
  import opened Records
  import opened Flow
  import opened Lifecycle

  /** Distinct codes have distinct digests (what "collision resistant" buys
      the flow). */
  ghost predicate DigestInjective(cfg: Config) {
    forall a, b :: cfg.digest(a) == cfg.digest(b) ==> a == b
  }

  /** Submitting the mailed code (with or without surrounding blanks) before
      the expiry time, with at least one attempt allowed, signs the user in:
      the new row is consumed and the pending login becomes the session's
      user. */
  lemma IssuedCodeVerifies(
    cfg: Config, st: Store, sess: Session, username: string, password: string,
    draw: int, issuedAt: int, submitted: string, now: int)
    requires 0 <= draw < 900000
    requires Login(cfg, st, sess, username, password, draw, issuedAt).outcome.OtpIssued?
    requires Strip(submitted) == OtpText(draw)
    requires now <= issuedAt + cfg.otpExpirySeconds * MicrosPerSecond
    requires cfg.maxAttempts >= 1
    ensures var l := Login(cfg, st, sess, username, password, draw, issuedAt);
            var v := Verify(cfg, l.store, l.session, submitted, now);
            && v.outcome == Verified(|st.otps|)
            && v.store.otps[|st.otps|].used
            && v.session == Session(None, Some(l.outcome.userId))
  {
    var l := Login(cfg, st, sess, username, password, draw, issuedAt);
    OtpTextIsSixDigits(draw);
    assert !AllSpace(submitted);
    assert LatestUnused(l.store.otps, l.outcome.userId) == Some(|st.otps|);
  }

  /** After the expiry time even the right code is refused as expired, and
      nothing changes, the pending login included. */
  lemma IssuedCodeExpires(
    cfg: Config, st: Store, sess: Session, username: string, password: string,
    draw: int, issuedAt: int, submitted: string, now: int)
    requires 0 <= draw < 900000
    requires Login(cfg, st, sess, username, password, draw, issuedAt).outcome.OtpIssued?
    requires !AllSpace(submitted)
    requires now > issuedAt + cfg.otpExpirySeconds * MicrosPerSecond
    ensures var l := Login(cfg, st, sess, username, password, draw, issuedAt);
            var v := Verify(cfg, l.store, l.session, submitted, now);
            && v.outcome == OtpExpired(|st.otps|)
            && v.store == l.store
            && v.session == l.session
  {
    var l := Login(cfg, st, sess, username, password, draw, issuedAt);
    assert LatestUnused(l.store.otps, l.outcome.userId) == Some(|st.otps|);
  }

  /** With the default settings (300 seconds, 5 attempts) the mailed code is
      still accepted exactly 300 seconds after the login, and refused as
      expired one second later. */
  lemma DefaultExpiryIsFiveMinutes(
    cfg: Config, st: Store, sess: Session, username: string, password: string,
    draw: int, issuedAt: int)
    requires 0 <= draw < 900000
    requires cfg.otpExpirySeconds == DefaultOtpExpirySeconds
    requires cfg.maxAttempts == DefaultMaxAttempts
    requires Login(cfg, st, sess, username, password, draw, issuedAt).outcome.OtpIssued?
    ensures var l := Login(cfg, st, sess, username, password, draw, issuedAt);
            && Verify(cfg, l.store, l.session, OtpText(draw), issuedAt + 300 * MicrosPerSecond).outcome
               == Verified(|st.otps|)
            && Verify(cfg, l.store, l.session, OtpText(draw), issuedAt + 301 * MicrosPerSecond).outcome
               == OtpExpired(|st.otps|)
  {
    OtpTextIsSixDigits(draw);
    var code := OtpText(draw);
    assert !AllSpace(code) by { assert !IsSpace(code[0]); }
    IssuedCodeVerifies(cfg, st, sess, username, password, draw, issuedAt, code, issuedAt + 300 * MicrosPerSecond);
    IssuedCodeExpires(cfg, st, sess, username, password, draw, issuedAt, code, issuedAt + 301 * MicrosPerSecond);
  }

  /** A non-blank code other than the mailed one, while the row is fresh, is
      a wrong code: the row's counter becomes 1 and the pending login stays. */
  lemma WrongCodeCountsOnce(
    cfg: Config, st: Store, sess: Session, username: string, password: string,
    draw: int, issuedAt: int, submitted: string, now: int)
    requires 0 <= draw < 900000
    requires Login(cfg, st, sess, username, password, draw, issuedAt).outcome.OtpIssued?
    requires DigestInjective(cfg)
    requires !AllSpace(submitted) && Strip(submitted) != OtpText(draw)
    requires now <= issuedAt + cfg.otpExpirySeconds * MicrosPerSecond
    requires cfg.maxAttempts >= 1
    ensures var l := Login(cfg, st, sess, username, password, draw, issuedAt);
            var v := Verify(cfg, l.store, l.session, submitted, now);
            && v.outcome == WrongCode(|st.otps|)
            && v.store.otps[|st.otps|].attempts == 1
            && !v.store.otps[|st.otps|].used
            && v.session == l.session
  {
    var l := Login(cfg, st, sess, username, password, draw, issuedAt);
    assert LatestUnused(l.store.otps, l.outcome.userId) == Some(|st.otps|);
    assert cfg.digest(Strip(submitted)) != cfg.digest(OtpText(draw));
  }

  /** The walk-through of a first sign-in on an empty database: register,
      log in with the same name and password, submit a wrong code (refused,
      one attempt counted), then the mailed code (signed in as user 1). */
  lemma FirstSignIn(
    cfg: Config, name: string, email: string, password: string, hash: string,
    wrong: string, draw: int, t0: int)
    requires 0 <= draw < 900000
    requires !AnyFieldMissing(name, email, password)
    requires cfg.checkPassword(hash, password)
    requires DigestInjective(cfg)
    requires !AllSpace(wrong) && Strip(wrong) != OtpText(draw)
    requires cfg.maxAttempts >= 2
    requires cfg.otpExpirySeconds >= 2
    ensures var r0 := Step(cfg, System(EmptyStore, NoSession),
                           Event(RegisterRequest(name, email, password, hash), t0));
            var r1 := Step(cfg, r0.system, Event(LoginRequest(name, password, draw), t0));
            var r2 := Step(cfg, r1.system, Event(VerifyRequest(wrong), t0 + MicrosPerSecond));
            var r3 := Step(cfg, r2.system, Event(VerifyRequest(OtpText(draw)), t0 + 2 * MicrosPerSecond));
            && r0.outcome == RegisterDone(Registered(1))
            && r1.outcome == LoginDone(OtpIssued(1, OtpText(draw), Lower(Strip(email))))
            && r2.outcome == VerifyDone(WrongCode(0))
            && r2.system.store.otps[0].attempts == 1
            && r3.outcome == VerifyDone(Verified(0))
            && r3.system.session == Session(None, Some(1))
            && r3.system.store.otps[0].used
  {
    var user := User(1, Strip(name), Lower(Strip(email)), hash);
    var row := NewOtp(cfg, 1, OtpText(draw), t0);
    var r0 := Step(cfg, System(EmptyStore, NoSession),
                   Event(RegisterRequest(name, email, password, hash), t0));
    FirstRegister(cfg, name, email, password, hash, t0);
    assert r0.system == System(Store([user], []), NoSession);
    var r1 := Step(cfg, r0.system, Event(LoginRequest(name, password, draw), t0));
    FirstLogin(cfg, user, name, password, draw, t0);
    assert r1.system == System(Store([user], [row]), Session(Some(1), None));
    var r2 := Step(cfg, r1.system, Event(VerifyRequest(wrong), t0 + MicrosPerSecond));
    FirstMistype(cfg, user, row, wrong, draw, t0 + MicrosPerSecond);
    assert r2.system == System(Store([user], [row.(attempts := 1)]), Session(Some(1), None));
    FirstTypesCode(cfg, user, row.(attempts := 1), draw, t0 + 2 * MicrosPerSecond);
  }

  /** Registering on an empty database creates user 1 and nothing else. */
  lemma FirstRegister(cfg: Config, name: string, email: string, password: string, hash: string, t0: int)
    requires !AnyFieldMissing(name, email, password)
    ensures Step(cfg, System(EmptyStore, NoSession),
                 Event(RegisterRequest(name, email, password, hash), t0))
            == StepResult(RegisterDone(Registered(1)),
                          System(Store([User(1, Strip(name), Lower(Strip(email)), hash)], []), NoSession))
  {
  }

  /** The only user logs in with the right password: one row, pending login. */
  lemma FirstLogin(cfg: Config, user: User, name: string, password: string, draw: int, t0: int)
    requires 0 <= draw < 900000
    requires user.id == 1 && user.username == Strip(name)
    requires cfg.checkPassword(user.passwordHash, password)
    ensures Step(cfg, System(Store([user], []), NoSession),
                 Event(LoginRequest(name, password, draw), t0))
            == StepResult(LoginDone(OtpIssued(1, OtpText(draw), user.email)),
                          System(Store([user], [NewOtp(cfg, 1, OtpText(draw), t0)]),
                                 Session(Some(1), None)))
  {
    assert FindByUsername([user], Strip(name)) == Some(0);
  }

  /** A wrong code against the only, fresh row counts one attempt. */
  lemma FirstMistype(cfg: Config, user: User, row: Otp, wrong: string, draw: int, now: int)
    requires 0 <= draw < 900000
    requires DigestInjective(cfg)
    requires user.id == 1 && row.userId == 1 && !row.used && row.attempts == 0
    requires row.otpHash == cfg.digest(OtpText(draw))
    requires now <= row.expiresAt && cfg.maxAttempts >= 1
    requires !AllSpace(wrong) && Strip(wrong) != OtpText(draw)
    ensures Step(cfg, System(Store([user], [row]), Session(Some(1), None)),
                 Event(VerifyRequest(wrong), now))
            == StepResult(VerifyDone(WrongCode(0)),
                          System(Store([user], [row.(attempts := 1)]), Session(Some(1), None)))
  {
    assert cfg.digest(Strip(wrong)) != cfg.digest(OtpText(draw));
  }

  /** The mailed code against the only, fresh row signs user 1 in. */
  lemma FirstTypesCode(cfg: Config, user: User, row: Otp, draw: int, now: int)
    requires 0 <= draw < 900000
    requires user.id == 1 && row.userId == 1 && !row.used
    requires row.otpHash == cfg.digest(OtpText(draw))
    requires now <= row.expiresAt && row.attempts < cfg.maxAttempts
    ensures Step(cfg, System(Store([user], [row]), Session(Some(1), None)),
                 Event(VerifyRequest(OtpText(draw)), now))
            == StepResult(VerifyDone(Verified(0)),
                          System(Store([user], [row.(used := true)]), Session(None, Some(1))))
  {
    OtpTextIsSixDigits(draw);
    var code := OtpText(draw);
    assert !AllSpace(code) by { assert !IsSpace(code[0]); }
  }
}
