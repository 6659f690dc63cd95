/**
 The four request handlers of the login flow (register, login, verify,
 logout) as pure transitions from (store, session, clock, form input) to
 (outcome, store, session).  Routing, templates, flash messages and
 redirects are reduced to the outcome that was reached.
 */
module Flow {
  import opened Text
  import opened Decimal
  import opened Records
  import opened OtpEngine

  /** Deployment settings and the cryptographic primitives, which the model
      does not look inside: `digest` is SHA-256 hex digest of the code's
      text, `checkPassword(hash, password)` is werkzeug's
      `check_password_hash`. */
  datatype Config = Config(
    otpExpirySeconds: int,
    maxAttempts: int,
    digest: string -> string,
    checkPassword: (string, string) -> bool)

  /** `OTP_EXPIRY_SECONDS` and `MAX_OTP_ATTEMPTS` when the environment does
      not set them. */
  const DefaultOtpExpirySeconds := 300
  const DefaultMaxAttempts := 5

  /** The clock counts microseconds, the resolution of `datetime.utcnow()`. */
  const MicrosPerSecond := 1_000_000

  // ---------------------------------------------------------------- register

  datatype RegisterOutcome = Registered(id: UserId) | MissingField | AlreadyExists

  datatype RegisterResult = RegisterResult(outcome: RegisterOutcome, store: Store)

  /** A form field the handler treats as missing: blank once stripped.  The
      password is not stripped, so only the empty password is missing. */
  predicate AnyFieldMissing(username: string, email: string, password: string) {
    AllSpace(username) || AllSpace(email) || password == []
  }

  /** `register` on POST.  `passwordHash` is what `generate_password_hash`
      returned for `password`; it is salted at random, so it is an input.
      The username is stored stripped and the email stripped and lowered;
      the duplicate test compares those normalised values. */
  function Register(st: Store, username: string, email: string, password: string, passwordHash: string): (res: RegisterResult)
    ensures res.outcome == MissingField <==> AnyFieldMissing(username, email, password)
    ensures res.outcome == AlreadyExists <==>
              && !AnyFieldMissing(username, email, password)
              && NameOrEmailTaken(st.users, Strip(username), Lower(Strip(email)))
    ensures !res.outcome.Registered? ==> res.store == st
    ensures res.outcome.Registered? ==>
              && res.outcome.id == NextUserId(st.users)
              && res.store.otps == st.otps
              && res.store.users ==
                 st.users + [User(res.outcome.id, Strip(username), Lower(Strip(email)), passwordHash)]
  {
    var name := Strip(username);
    var mail := Lower(Strip(email));
    if name == [] || mail == [] || password == [] then
      RegisterResult(MissingField, st)
    else if NameOrEmailTaken(st.users, name, mail) then
      RegisterResult(AlreadyExists, st)
    else
      var u := User(NextUserId(st.users), name, mail, passwordHash);
      RegisterResult(Registered(u.id), Store(st.users + [u], st.otps))
  }

  // ------------------------------------------------------------------- login

  /** `secrets.randbelow(900000) + 100000`, for a draw in [0, 900000). */
  function OtpCode(draw: int): (code: nat)
    requires 0 <= draw < 900000
    ensures 100000 <= code <= 999999
  {
    draw + 100000
  }

  /** The plaintext passcode: `f"{code}"`. */
  function OtpText(draw: int): string
    requires 0 <= draw < 900000
  {
    ToDecimal(OtpCode(draw))
  }

  /** Every passcode is six decimal digits, the first not zero, holds no
      whitespace (so stripping the submission leaves it intact), and reads
      back as the drawn number plus 100000. */
  lemma OtpTextIsSixDigits(draw: int)
    requires 0 <= draw < 900000
    ensures |OtpText(draw)| == 6
    ensures AllDigits(OtpText(draw)) && OtpText(draw)[0] != '0'
    ensures ParseDecimal(OtpText(draw)) == draw + 100000
    ensures Strip(OtpText(draw)) == OtpText(draw)
  {
    var n := OtpCode(draw);
    DecimalLength(n, 5);
    ParseToDecimal(n);
    var s := OtpText(draw);
    forall k | 0 <= k < |s| ensures !IsSpace(s[k]) {
      assert IsDigit(s[k]);
    }
    StripNoSpace(s);
  }

  /** Conversely every six-digit text without a leading zero is the passcode
      of exactly one draw. */
  lemma EverySixDigitTextIsDrawn(s: string)
    requires |s| == 6 && AllDigits(s) && s[0] != '0'
    ensures 0 <= ParseDecimal(s) - 100000 < 900000
    ensures OtpText(ParseDecimal(s) - 100000) == s
    ensures forall d :: 0 <= d < 900000 && OtpText(d) == s ==> d == ParseDecimal(s) - 100000
  {
    ParseBounds(s);
    ToDecimalOfParse(s);
    forall d | 0 <= d < 900000 && OtpText(d) == s ensures d == ParseDecimal(s) - 100000 {
      OtpTextIsSixDigits(d);
    }
  }

  /** The row `login` inserts: owner, digest of the code (never the code),
      creation time, expiry `OTP_EXPIRY` seconds later, and the column
      defaults `used = False`, `attempts = 0`. */
  function NewOtp(cfg: Config, uid: UserId, code: string, now: int): (o: Otp)
    ensures o.otpHash == cfg.digest(code) && o.userId == uid
    ensures o.createdAt == now && o.expiresAt == now + cfg.otpExpirySeconds * MicrosPerSecond
    ensures !o.used && o.attempts == 0
    ensures StatusAt(o, now, cfg.maxAttempts) ==
            (if cfg.otpExpirySeconds < 0 then Expired
             else if cfg.maxAttempts <= 0 then Exhausted
             else Pending)
  {
    Otp(uid, cfg.digest(code), now, now + cfg.otpExpirySeconds * MicrosPerSecond, false, 0)
  }

  /** `sentTo` is where the plaintext code was mailed; the mailer's result is
      ignored by the handler, so it is not part of the outcome. */
  datatype LoginOutcome = InvalidCredentials | OtpIssued(userId: UserId, code: string, sentTo: string)

  datatype LoginResult = LoginResult(outcome: LoginOutcome, store: Store, session: Session)

  /** The user `login` would authenticate: the first with the stripped name,
      provided the password checks against that user's hash. */
  function Authenticate(cfg: Config, users: seq<User>, username: string, password: string): (r: Option<nat>)
    ensures r.Some? ==> r.value < |users| && users[r.value].username == Strip(username)
                        && cfg.checkPassword(users[r.value].passwordHash, password)
    ensures r.Some? ==> forall k :: 0 <= k < r.value ==> users[k].username != Strip(username)
    ensures r.None? <==>
              var f := FindByUsername(users, Strip(username));
              f.None? || !cfg.checkPassword(users[f.value].passwordHash, password)
  {
    match FindByUsername(users, Strip(username))
    case None => None
    case Some(k) => if cfg.checkPassword(users[k].passwordHash, password) then Some(k) else None
  }

  /** `login` on POST.  `draw` is the value of `secrets.randbelow(900000)`
      and `now` the value of `datetime.utcnow()`.  A failure touches nothing;
      a success appends exactly one row, keeps every other row and user, and
      sets only the pending entry of the session. */
  function Login(cfg: Config, st: Store, sess: Session, username: string, password: string, draw: int, now: int): (res: LoginResult)
    requires 0 <= draw < 900000
    ensures res.outcome.InvalidCredentials? <==> Authenticate(cfg, st.users, username, password).None?
    ensures res.outcome.InvalidCredentials? ==> res.store == st && res.session == sess
    ensures res.outcome.OtpIssued? ==>
              var u := st.users[Authenticate(cfg, st.users, username, password).value];
              && res.outcome == OtpIssued(u.id, OtpText(draw), u.email)
              && res.store.users == st.users
              && |res.store.otps| == |st.otps| + 1
              && res.store.otps[..|st.otps|] == st.otps
              && res.store.otps[|st.otps|] == NewOtp(cfg, u.id, OtpText(draw), now)
              && res.session == sess.(pendingUserId := Some(u.id))
  {
    match Authenticate(cfg, st.users, username, password)
    case None => LoginResult(InvalidCredentials, st, sess)
    case Some(k) =>
      var u := st.users[k];
      var code := OtpText(draw);
      var row := NewOtp(cfg, u.id, code, now);
      LoginResult(OtpIssued(u.id, code, u.email), Store(st.users, st.otps + [row]), sess.(pendingUserId := Some(u.id)))
  }

  // ------------------------------------------------------------------ verify

  /** Which exit of `verify` was taken; the ones that reached a row name it
      by its position in the store. */
  datatype VerifyOutcome =
    | NoPendingLogin
    | EmptyCode
    | NoActiveOtp
    | OtpExpired(index: nat)
    | TooManyAttempts(index: nat)
    | WrongCode(index: nat)
    | Verified(index: nat)
  {
    predicate ReachedRow() {
      OtpExpired? || TooManyAttempts? || WrongCode? || Verified?
    }
  }

  function Report(v: Verdict, i: nat): (r: VerifyOutcome)
    ensures r.ReachedRow() && r.index == i
  {
    match v
    case RejectExpired => OtpExpired(i)
    case RejectExhausted => TooManyAttempts(i)
    case Accept => Verified(i)
    case RejectMismatch => WrongCode(i)
  }

  datatype VerifyResult = VerifyResult(outcome: VerifyOutcome, store: Store, session: Session)

  /** `verify` on POST.  Without a pending login nothing happens; a blank
      submission changes nothing; otherwise the latest unused row of the
      pending user gets one `Attempt` with the digest of the stripped code.
      Only a match changes the session (pending moves to signed-in); every
      other exit keeps the pending entry, as the handler does not clear it. */
  function Verify(cfg: Config, st: Store, sess: Session, submitted: string, now: int): (res: VerifyResult)
    ensures res.store.users == st.users && |res.store.otps| == |st.otps|
    ensures res.outcome == NoPendingLogin <==> sess.pendingUserId.None?
    ensures res.outcome == EmptyCode <==> sess.pendingUserId.Some? && AllSpace(submitted)
    ensures res.outcome == NoActiveOtp <==>
              && sess.pendingUserId.Some? && !AllSpace(submitted)
              && LatestUnused(st.otps, sess.pendingUserId.value).None?
    ensures res.outcome.ReachedRow() ==>
              var i := res.outcome.index;
              && sess.pendingUserId.Some?
              && LatestUnused(st.otps, sess.pendingUserId.value) == Some(i)
              && var a := Attempt(st.otps[i], cfg.digest(Strip(submitted)), now, cfg.maxAttempts);
                 && res.outcome == Report(a.verdict, i)
                 && res.store.otps == st.otps[i := a.row]
    ensures !res.outcome.ReachedRow() ==> res.store == st
    ensures !res.outcome.Verified? ==> res.session == sess
    ensures res.outcome.Verified? ==> res.session == Session(None, sess.pendingUserId)
  {
    match sess.pendingUserId
    case None => VerifyResult(NoPendingLogin, st, sess)
    case Some(uid) =>
      var code := Strip(submitted);
      if code == [] then VerifyResult(EmptyCode, st, sess)
      else match LatestUnused(st.otps, uid)
        case None => VerifyResult(NoActiveOtp, st, sess)
        case Some(i) =>
          var a := Attempt(st.otps[i], cfg.digest(code), now, cfg.maxAttempts);
          var st' := st.(otps := st.otps[i := a.row]);
          if a.verdict == Accept then
            VerifyResult(Verified(i), st', Session(None, Some(uid)))
          else
            VerifyResult(Report(a.verdict, i), st', sess)
  }

  // ------------------------------------------------------------------ logout

  /** `logout`: drops the signed-in entry and nothing else; a pending login
      survives. */
  function Logout(sess: Session): (r: Session)
    ensures r.userId.None? && r.pendingUserId == sess.pendingUserId
  {
    sess.(userId := None)
  }
}
