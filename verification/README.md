# Two-step login with emailed one-time passcodes, in Dafny

This project models the login flow of a small Flask application. The flow has
two steps:

- a username and password check;
- a six-digit one-time passcode (OTP), mailed to the user, that must be typed
  back before the session is signed in.

The request handlers `register`, `login`, `verify` and `logout` in `app.py`
become pure transitions over a store and a client session. `Register` takes the
store and the form input and returns an outcome and a new store. `Login` and
`Verify` also take the session and a clock reading, and return an outcome, a
new store and a new session. `Logout` takes the session and returns a new one.
`Lifecycle.Step` dispatches a request to one of them and returns an outcome
together with the whole new state. The
store holds a sequence of user records and a sequence of passcode rows, kept in
insertion order. The session holds two entries: `pending_user_id` (the user
waiting for the passcode) and `user_id` (the signed-in user).

Files and modules:

- `text.dfy` (`Text`): Python's `str.strip()` and `str.lower()`, as applied to
  form fields.
- `decimal.dfy` (`Decimal`): decimal text of a number, `f"{n}"`, and parsing it
  back.
- `records.dfy` (`Records`): the records (`User`, `Otp`, `Session`, `Store`) and
  the store queries: lookup by username, duplicate test, and "latest unused
  passcode of a user".
- `otp_engine.dfy` (`OtpEngine`): one verification attempt against a passcode
  row, and the row's life-cycle status (Pending, Consumed, Expired, Exhausted).
- `flow.dfy` (`Flow`): the four handlers.
- `lifecycle.dfy` (`Lifecycle`): sequences of requests, and what they can do to
  a row over its whole life.
- `invariants.dfy` (`Invariants`): invariants of a store used by one client
  session.
- `scenarios.dfy` (`Scenarios`): the login step and the verify step taken
  together.

Abstractions:

- The SHA-256 digest of the code is an uninterpreted function `digest`.
- werkzeug's `check_password_hash` is an uninterpreted predicate
  `checkPassword`.
- The value `generate_password_hash` returns is an input of `Register`. The
  real value is salted at random, so it cannot be computed here.
- `secrets.randbelow(900000)` becomes a parameter `draw`, with a precondition
  that it lies in [0, 900000).
- `datetime.utcnow()` becomes an integer parameter `now`, counting
  microseconds.
- `OTP_EXPIRY_SECONDS` and `MAX_OTP_ATTEMPTS` are fields of a `Config` value.
  Their defaults, 300 and 5, are named constants.

Assumptions about `models.py`, which is not part of this model:

- A new passcode row starts with `used = False` and `attempts = 0`. Its
  `created_at` is the time of the request. `login` sets none of these three at
  app.py:70.
- User ids are assigned 1, 2, 3, … in insertion order. So no real id is falsy,
  and `if not pending_id` holds exactly when the session has no pending entry.
- Usernames and emails compare exactly, character by character, as under
  SQLite's default binary collation. The duplicate test (app.py:46) and the
  login lookup (app.py:62) are SQL `=` comparisons. Their result depends on the
  column collation in `models.py` and on the database chosen by `DATABASE_URL`
  (app.py:18). With a case-insensitive collation, such as `COLLATE NOCASE` or
  MySQL's default, "Alice" and "alice" would match at both places. The
  duplicate test, the login lookup and `Invariants.UniqueUsernames` rest on
  this assumption.

"Most recent unused passcode" is the last matching row in insertion order. The
source orders by `created_at` descending. Choosing by position leaves no tie
between equal timestamps. `Records.LatestUnusedIsNewest` and
`Lifecycle.StepKeepsCreationOrder` show the two orders agree while the clock
does not run backwards.

In one place the code may not do what one would expect, and the model follows
the code. One might expect the pending login to be cleared when verification
finds no passcode, finds it expired, or finds it out of attempts. The handler
redirects on those paths but does not clear `pending_user_id` (app.py:99-107).
`Flow.Verify` keeps the session unchanged on every outcome except a match. The
row is left alone on those paths: `Lifecycle.TerminalRowFrozen` shows that a
row that is expired or out of attempts is never changed and never accepted by
any later request. The reported outcome can still change: an exhausted row is
reported as `TooManyAttempts` until its expiry time passes, and as `OtpExpired`
after that, because the expiry test comes first (app.py:102).

## Model

| member | source | states |
|---|---|---|
| Text.Strip | app.py:38-41 | the stripped field has no leading or trailing whitespace (Python's `isspace` set), the input is exactly that text padded with whitespace on both sides, and the result is empty if and only if the input is all whitespace, which is when `not field` rejects it |
| Text.StripNoSpace | app.py:38-41 | a text without whitespace is unchanged by stripping |
| Text.LowerIsIdempotent | app.py:39 | after lowering no ASCII capital remains, and lowering a lowered text changes nothing |
| Text.LowerKeepsSpace | app.py:39 | lowering a character keeps it whitespace or non-whitespace, so `lower()` never changes what `strip()` removes |
| Text.LowerStripCommute | app.py:39 | normalising an email as `strip().lower()` gives the same text as `lower().strip()` |
| Decimal.ParseToDecimal | app.py:67 | reading back the decimal text of any natural number gives that number |
| Decimal.ToDecimalOfParse | app.py:67 | a digit string with no leading zero is the decimal text of its value, so text and number are in one-to-one correspondence |
| Decimal.DecimalLength | app.py:67 | the decimal text of n has k+1 digits if and only if n lies in [10^k, 10^(k+1)) (or n < 10 when k = 0) |
| Records.FindByUsername | app.py:62 | the result is the first user with exactly that username, and none is returned if and only if no user has it |
| Records.LatestUnused | app.py:98 | the result is an unused row of the user with no unused row of that user after it, and none is returned if and only if the user has no unused row at all |
| Records.LatestUnusedIsNewest | app.py:98 | while rows are sorted by creation time, the chosen row has the greatest `created_at` of the user's unused rows, so it is a row `order_by(created_at.desc()).first()` can return |
| OtpEngine.Attempt | app.py:102-121 | on an unused row: rejects as expired exactly when `now > expires_at`; rejects as exhausted exactly when the row is unexpired and `attempts >= MAX_ATTEMPTS`; otherwise accepts exactly when the digests match. Acceptance sets `used`, a mismatch adds exactly one attempt, the two rejections leave the row as it was, and owner, digest and times never change |
| OtpEngine.TerminalIsAbsorbing | app.py:102-107 | an attempt on an expired or exhausted row returns it unchanged and never accepts, even with the right code, and the row stays terminal at every later time |
| OtpEngine.MismatchStatus | app.py:105-107 | a mismatch on a pending row leaves it pending, or exhausted exactly when that mismatch used the last allowed attempt |
| Flow.Register | app.py:36-54 | rejected as missing if and only if the username or email is blank after stripping or the password is empty; rejected as a duplicate if and only if, otherwise, the stripped username or the stripped lowercased email is taken; a rejection leaves the store unchanged; success appends exactly one user with the normalised fields and the next id, and no passcode row |
| Flow.OtpCode | app.py:67 | the drawn code lies in [100000, 999999] |
| Flow.OtpTextIsSixDigits | app.py:67 | the mailed code is six decimal digits with a non-zero first digit, reads back as draw + 100000, and has no whitespace, so stripping the submission keeps it intact |
| Flow.EverySixDigitTextIsDrawn | app.py:67 | every six-digit text without a leading zero is the code of exactly one draw |
| Flow.NewOtp | app.py:68-70 | the new row stores the digest of the code and no plaintext, belongs to the user, is created at `now`, expires OTP_EXPIRY seconds after `now`, starts unused with no attempts, and is pending when created, given a non-negative expiry and at least one allowed attempt |
| Flow.Authenticate | app.py:60-63 | authentication picks a user with the stripped username and no user before it of that name, whose hash checks against the password; it fails if and only if there is no such user or the password does not check against the first one's hash |
| Flow.Login | app.py:58-82 | invalid credentials leave the store and the session unchanged; success appends exactly one new row for that user, keeps every other user and row, mails the plaintext code to the user's email, and sets only `pending_user_id` |
| Flow.Verify | app.py:86-121 | no pending login if and only if the session has none; blank submission if and only if the text is all whitespace; "no OTP" if and only if the pending user has no unused row; otherwise exactly the latest unused row gets one attempt with the digest of the stripped code and no other row changes. Only a match changes the session, moving the pending user to the signed-in entry; every other outcome keeps `pending_user_id` |
| Flow.Logout | app.py:134-137 | logout drops the signed-in user and keeps a pending login |
| Lifecycle.Step | app.py:35-137 | any request only adds users and rows, never resets `used`, never lowers `attempts`, and never changes a row's owner, digest or times; a row is accepted only if it was pending at that moment, and it is consumed afterwards |
| Lifecycle.VerifyEvolves | app.py:98-121 | verification adds no record, changes at most the row it reached, never resets `used` or lowers `attempts`, and accepts a row only while it is pending, consuming it |
| Lifecycle.LoginEvolves | app.py:66-72 | login only appends a row and leaves every existing user and row as it was |
| Lifecycle.StepAttempts | app.py:117-119 | a request adds one to a row's attempt counter exactly when it reports a wrong code against that row |
| Lifecycle.StepFreezesTerminal | app.py:98-107 | a request leaves a consumed, expired or exhausted row unchanged and never accepts it |
| Lifecycle.VerifiedAtMostOnce | app.py:110-112 | over any sequence of requests a row is accepted at most once, and never if it was already consumed |
| Lifecycle.AttemptsCountWrongCodes | app.py:117-119 | a row's attempt counter at the end of any request sequence equals its counter at the start plus the number of wrong codes reported against it |
| Lifecycle.ExhaustedNeverVerified | app.py:105-107 | once a row's counter has reached MAX_ATTEMPTS, no later request sequence accepts it, whatever code is submitted |
| Lifecycle.WrongCodesExhaustRow | app.py:105-121 | after MAX_ATTEMPTS wrong codes against a row, the right code can never succeed on that row |
| Lifecycle.TerminalRowFrozen | app.py:98-107 | a row that is consumed, expired or exhausted at time t is never changed and never accepted by requests handled at t or later |
| Lifecycle.StepKeepsCreationOrder | app.py:69-72 | while the clock does not run backwards, rows stay sorted by creation time |
| Invariants.RegisterPreservesConsistent | app.py:46-52 | registration keeps user ids sequential and usernames and emails unique |
| Invariants.StepPreservesConsistent | app.py:35-137 | every handler keeps the store consistent: ids sequential, names and emails unique, rows owned by existing users, counters non-negative, and a pending user's newest row unconsumed |
| Invariants.NoActiveOtpUnreachable | app.py:98-101 | with one client session starting from a consistent state (an empty database is one), no request sequence ever reaches the "No OTP found" exit |
| Invariants.LoginSucceedsIff | app.py:62-63 | with unique usernames, login authenticates if and only if some user has the stripped username and the password checks against that user's hash |
| Invariants.EmailsDifferingInCaseCollide | app.py:39-48 | after one email is registered, registering a second email that differs only in letter case is refused as a duplicate |
| Scenarios.IssuedCodeVerifies | app.py:67-116 | submitting the mailed code, with or without surrounding blanks, no later than the expiry time and with at least one attempt allowed, signs the user in and consumes the new row |
| Scenarios.IssuedCodeExpires | app.py:69-104 | after the expiry time, any non-blank code, the right one included, is refused as expired, and neither the store nor the session changes |
| Scenarios.DefaultExpiryIsFiveMinutes | app.py:26-27 | with the default 300 seconds and 5 attempts (expiry set at app.py:69, tested strictly at app.py:102), the mailed code is accepted exactly 300 seconds after login and refused as expired one second later |
| Scenarios.WrongCodeCountsOnce | app.py:109-121 | with an injective digest, a non-blank wrong code on a fresh row is reported as wrong, sets the counter to 1, and keeps the pending login |
| Scenarios.FirstSignIn | app.py:35-121 | on an empty database, registering with non-blank fields, logging in with that name and password, submitting a wrong non-blank code, then the mailed code, gives: registered as user 1, code mailed to the normalised email, wrong code with one attempt counted and the login still pending, then signed in as user 1 with the row consumed |

## Left out

- `email_utils.py` is not part of this model. The login outcome records the
  plaintext code and the address it is mailed to. SMTP delivery, console
  printing and the mailer's return value are not modelled, because the handler
  ignores that value (app.py:77).
- The mail subject and body text are left out, including the expiry written as
  `OTP_EXPIRY//60` minutes.
- Flask routing is left out. So are GET requests (they only render a form), the
  `index` and `dashboard` routes, templates, flash messages, redirects and
  cookie signing. Only the outcome and the session entries are kept.
- SQLAlchemy and `models.py` are replaced by immutable sequences. Column
  defaults and id assignment are assumptions, stated above.
- Text.Lower: lowercases only the ASCII letters A-Z. Python's `str.lower()`
  also lowercases other Unicode letters, so emails differing in the case of
  non-ASCII letters are not shown to collide.
- Form fields missing from the request are not modelled. There
  `request.form.get(...)` returns `None` and `.strip()` raises; in the model
  every field is a string.
- SHA-256, UTF-8 encoding of the code, and werkzeug password hashing are
  uninterpreted. Only the lemmas that need it assume an injective digest.
- Reading configuration from the environment (app.py:13-27) is left out. The
  expiry and the attempt limit are fields of `Config`.
- Concurrency is left out. Two requests updating the same row at once is not
  modellable here. The model treats the session as state that changes only
  through the handlers' responses. Flask's default session is a signed cookie
  held by the client (app.py:87), so a request can carry a stale copy of it:
  a verify form submitted twice, or a replayed cookie. Only such a request can
  reach "No OTP found" (app.py:98-101), which `Flow.Verify` handles as the
  source does. `Invariants.NoActiveOtpUnreachable` shows that, without stale
  copies, the exit is never reached.
- Flow.Login: does not model the `OverflowError` that
  `datetime.utcnow() + timedelta(seconds=OTP_EXPIRY)` raises at app.py:69 when
  the expiry falls outside the years 1 to 9999. The source's login then fails
  before adding a row or setting `pending_user_id`. The clock is an unbounded
  integer here, so every `OTP_EXPIRY` yields a row and a mailed code.
- Lifecycle.StepKeepsCreationOrder: `created_at` is taken to be the same
  instant as the `utcnow()` read at app.py:69. In the source the column default
  may be read a moment later.
