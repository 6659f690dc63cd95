/**
 Sequences of requests against one store and one client session, and what
 they can and cannot do to a passcode row over its whole life: a row is
 accepted at most once, its attempt counter counts exactly the wrong codes
 submitted against it, and once it is consumed, expired or out of attempts
 it never changes again.
 */
module Lifecycle {
  import opened Text
  import opened Records
  import opened OtpEngine
  import opened Flow

  datatype Request =
    | RegisterRequest(username: string, email: string, password: string, passwordHash: string)
    | LoginRequest(username: string, password: string, draw: int)
    | VerifyRequest(code: string)
    | LogoutRequest

  /** A request together with the clock reading while it is handled. */
  datatype Event = Event(request: Request, now: int)

  /** The random draw of a login is a value `secrets.randbelow(900000)` can
      return. */
  predicate WellFormed(e: Event) {
    e.request.LoginRequest? ==> 0 <= e.request.draw < 900000
  }

  predicate AllWellFormed(evs: seq<Event>) {
    forall k :: 0 <= k < |evs| ==> WellFormed(evs[k])
  }

  datatype Outcome =
    | RegisterDone(registered: RegisterOutcome)
    | LoginDone(login: LoginOutcome)
    | VerifyDone(verify: VerifyOutcome)
    | LoggedOut

  datatype System = System(store: Store, session: Session)

  datatype StepResult = StepResult(outcome: Outcome, system: System)

  /** What may happen to a row between two moments: its owner, digest and
      times stay, `used` is never reset, and `attempts` never decreases. */
  predicate RowEvolves(x: Otp, y: Otp) {
    SameIdentity(x, y) && (x.used ==> y.used) && x.attempts <= y.attempts
  }

  /** Records are only ever added, and existing rows only evolve. */
  predicate Evolves(a: Store, b: Store) {
    && |a.users| <= |b.users| && b.users[..|a.users|] == a.users
    && |a.otps| <= |b.otps|
    && forall j :: 0 <= j < |a.otps| ==> RowEvolves(a.otps[j], b.otps[j])
  }

  /** The attempt counter of the row at position `i`, and 0 for a row not yet
      created (which is what it will start with). */
  function AttemptsOf(st: Store, i: nat): int {
    if i < |st.otps| then st.otps[i].attempts else 0
  }

  /** Dispatch one request to its handler. */
  function Step(cfg: Config, sys: System, e: Event): (res: StepResult)
    requires WellFormed(e)
    ensures Evolves(sys.store, res.system.store)
    ensures res.outcome.VerifyDone? && res.outcome.verify.Verified? ==>
              var i := res.outcome.verify.index;
              && i < |sys.store.otps|
              && StatusAt(sys.store.otps[i], e.now, cfg.maxAttempts) == Pending
              && res.system.store.otps[i].used
  {
    match e.request
    case RegisterRequest(u, m, p, h) =>
      var r := Register(sys.store, u, m, p, h);
      assert r.store.users[..|sys.store.users|] == sys.store.users;
      StepResult(RegisterDone(r.outcome), System(r.store, sys.session))
    case LoginRequest(u, p, d) =>
      var r := Login(cfg, sys.store, sys.session, u, p, d, e.now);
      LoginEvolves(cfg, sys.store, sys.session, u, p, d, e.now);
      StepResult(LoginDone(r.outcome), System(r.store, r.session))
    case VerifyRequest(c) =>
      var r := Verify(cfg, sys.store, sys.session, c, e.now);
      VerifyEvolves(cfg, sys.store, sys.session, c, e.now);
      StepResult(VerifyDone(r.outcome), System(r.store, r.session))
    case LogoutRequest =>
      StepResult(LoggedOut, System(sys.store, Logout(sys.session)))
  }

  /** A login only appends a row: users and existing rows stay as they were. */
  lemma LoginEvolves(cfg: Config, st: Store, sess: Session, username: string, password: string, draw: int, now: int)
    requires 0 <= draw < 900000
    ensures var r := Login(cfg, st, sess, username, password, draw, now);
            && Evolves(st, r.store)
            && r.store.users == st.users
            && |st.otps| <= |r.store.otps| <= |st.otps| + 1
            && r.store.otps[..|st.otps|] == st.otps
  {
    var r := Login(cfg, st, sess, username, password, draw, now);
    assert r.store.users[..|st.users|] == st.users;
    forall j | 0 <= j < |st.otps| ensures RowEvolves(st.otps[j], r.store.otps[j]) {
      assert r.store.otps[j] == r.store.otps[..|st.otps|][j];
    }
  }

  /** A verification changes at most the row it reached, and accepts it only
      while it is pending. */
  lemma VerifyEvolves(cfg: Config, st: Store, sess: Session, submitted: string, now: int)
    ensures var r := Verify(cfg, st, sess, submitted, now);
            && Evolves(st, r.store)
            && r.store.users == st.users && |r.store.otps| == |st.otps|
            && (forall j :: 0 <= j < |st.otps| && !(r.outcome.ReachedRow() && j == r.outcome.index) ==>
                  r.store.otps[j] == st.otps[j])
            && (r.outcome.Verified? ==>
                  var i := r.outcome.index;
                  && i < |st.otps|
                  && StatusAt(st.otps[i], now, cfg.maxAttempts) == Pending
                  && r.store.otps[i].used)
  {
    var r := Verify(cfg, st, sess, submitted, now);
    assert r.store.users[..|st.users|] == st.users;
    if r.outcome.ReachedRow() {
      var i := r.outcome.index;
      var a := Attempt(st.otps[i], cfg.digest(Strip(submitted)), now, cfg.maxAttempts);
      assert RowEvolves(st.otps[i], a.row);
    }
  }

  datatype Trace = Trace(outcomes: seq<Outcome>, last: System)

  /** Handle the requests in order, collecting one outcome per request. */
  function Run(cfg: Config, sys: System, evs: seq<Event>): (t: Trace)
    requires AllWellFormed(evs)
    ensures |t.outcomes| == |evs|
    ensures Evolves(sys.store, t.last.store)
    decreases |evs|
  {
    if |evs| == 0 then Trace([], sys)
    else
      var s := Step(cfg, sys, evs[0]);
      var rest := Run(cfg, s.system, evs[1..]);
      Trace([s.outcome] + rest.outcomes, rest.last)
  }

  /** How often row `i` was accepted. */
  function VerifiedCount(outs: seq<Outcome>, i: nat): nat {
    if |outs| == 0 then 0
    else (if outs[0] == VerifyDone(Verified(i)) then 1 else 0) + VerifiedCount(outs[1..], i)
  }

  /** How often a wrong code was submitted against row `i`. */
  function WrongCodeCount(outs: seq<Outcome>, i: nat): nat {
    if |outs| == 0 then 0
    else (if outs[0] == VerifyDone(WrongCode(i)) then 1 else 0) + WrongCodeCount(outs[1..], i)
  }

  // ------------------------------------------------------ single-step facts

  /** A step adds one to the counter of row `i` exactly when it reports a
      wrong code against that row, and otherwise leaves it alone. */
  lemma StepAttempts(cfg: Config, sys: System, e: Event, i: nat)
    requires WellFormed(e)
    ensures var s := Step(cfg, sys, e);
            AttemptsOf(s.system.store, i) ==
            AttemptsOf(sys.store, i) + (if s.outcome == VerifyDone(WrongCode(i)) then 1 else 0)
  {
    var s := Step(cfg, sys, e);
    if e.request.LoginRequest? && i == |sys.store.otps| < |s.system.store.otps| {
      assert s.system.store.otps[i].attempts == 0;
    }
  }

  /** A step leaves a terminal row exactly as it was and does not accept it. */
  lemma StepFreezesTerminal(cfg: Config, sys: System, e: Event, i: nat)
    requires WellFormed(e)
    requires i < |sys.store.otps|
    requires Terminal(sys.store.otps[i], e.now, cfg.maxAttempts)
    ensures var s := Step(cfg, sys, e);
            && s.system.store.otps[i] == sys.store.otps[i]
            && s.outcome != VerifyDone(Verified(i))
  {
    var s := Step(cfg, sys, e);
    if e.request.VerifyRequest? {
      var r := Verify(cfg, sys.store, sys.session, e.request.code, e.now);
      if r.outcome.ReachedRow() && r.outcome.index == i {
        var a := Attempt(sys.store.otps[i], cfg.digest(Strip(e.request.code)), e.now, cfg.maxAttempts);
        assert a.row == sys.store.otps[i];
      }
    }
  }

  // ------------------------------------------------------------ whole runs

  /** A row is accepted at most once over any run, and never if it was
      already consumed at the start. */
  lemma {:induction false} VerifiedAtMostOnce(cfg: Config, sys: System, evs: seq<Event>, i: nat)
    requires AllWellFormed(evs)
    ensures VerifiedCount(Run(cfg, sys, evs).outcomes, i) <= 1
    ensures i < |sys.store.otps| && sys.store.otps[i].used ==>
            VerifiedCount(Run(cfg, sys, evs).outcomes, i) == 0
    decreases |evs|
  {
    if |evs| > 0 {
      var s := Step(cfg, sys, evs[0]);
      var rest := Run(cfg, s.system, evs[1..]);
      assert Run(cfg, sys, evs).outcomes == [s.outcome] + rest.outcomes;
      assert ([s.outcome] + rest.outcomes)[1..] == rest.outcomes;
      VerifiedAtMostOnce(cfg, s.system, evs[1..], i);
    }
  }

  /** The counter of row `i` at the end of a run is its counter at the start
      plus the number of wrong codes reported against it in between. */
  lemma {:induction false} AttemptsCountWrongCodes(cfg: Config, sys: System, evs: seq<Event>, i: nat)
    requires AllWellFormed(evs)
    ensures AttemptsOf(Run(cfg, sys, evs).last.store, i) ==
            AttemptsOf(sys.store, i) + WrongCodeCount(Run(cfg, sys, evs).outcomes, i)
    decreases |evs|
  {
    if |evs| > 0 {
      var s := Step(cfg, sys, evs[0]);
      var rest := Run(cfg, s.system, evs[1..]);
      assert ([s.outcome] + rest.outcomes)[1..] == rest.outcomes;
      StepAttempts(cfg, sys, evs[0], i);
      AttemptsCountWrongCodes(cfg, s.system, evs[1..], i);
    }
  }

  /** Once the counter of row `i` has reached the limit, no run accepts it,
      whatever code is submitted. */
  lemma {:induction false} ExhaustedNeverVerified(cfg: Config, sys: System, evs: seq<Event>, i: nat)
    requires AllWellFormed(evs)
    requires AttemptsOf(sys.store, i) >= cfg.maxAttempts
    ensures VerifiedCount(Run(cfg, sys, evs).outcomes, i) == 0
    decreases |evs|
  {
    if |evs| > 0 {
      var s := Step(cfg, sys, evs[0]);
      var rest := Run(cfg, s.system, evs[1..]);
      assert ([s.outcome] + rest.outcomes)[1..] == rest.outcomes;
      StepAttempts(cfg, sys, evs[0], i);
      ExhaustedNeverVerified(cfg, s.system, evs[1..], i);
    }
  }

  /** Counters start at zero and only grow. */
  predicate CountersNonNegative(st: Store) {
    forall j :: 0 <= j < |st.otps| ==> st.otps[j].attempts >= 0
  }

  /** After `MAX_OTP_ATTEMPTS` wrong codes against a row, no later run
      accepts that row, the right code included. */
  lemma WrongCodesExhaustRow(cfg: Config, sys: System, before: seq<Event>, after: seq<Event>, i: nat)
    requires AllWellFormed(before) && AllWellFormed(after)
    requires CountersNonNegative(sys.store)
    requires WrongCodeCount(Run(cfg, sys, before).outcomes, i) >= cfg.maxAttempts
    ensures VerifiedCount(Run(cfg, Run(cfg, sys, before).last, after).outcomes, i) == 0
  {
    AttemptsCountWrongCodes(cfg, sys, before, i);
    ExhaustedNeverVerified(cfg, Run(cfg, sys, before).last, after, i);
  }

  /** Requests handled no earlier than `t`. */
  predicate NotBefore(evs: seq<Event>, t: int) {
    forall k :: 0 <= k < |evs| ==> evs[k].now >= t
  }

  /** A row that is terminal at time `t` (consumed, expired, or out of
      attempts) is never changed and never accepted by requests handled at
      `t` or later. */
  lemma {:induction false} TerminalRowFrozen(cfg: Config, sys: System, evs: seq<Event>, i: nat, t: int)
    requires AllWellFormed(evs)
    requires NotBefore(evs, t)
    requires i < |sys.store.otps|
    requires Terminal(sys.store.otps[i], t, cfg.maxAttempts)
    ensures Run(cfg, sys, evs).last.store.otps[i] == sys.store.otps[i]
    ensures VerifiedCount(Run(cfg, sys, evs).outcomes, i) == 0
    decreases |evs|
  {
    if |evs| > 0 {
      var s := Step(cfg, sys, evs[0]);
      var rest := Run(cfg, s.system, evs[1..]);
      assert ([s.outcome] + rest.outcomes)[1..] == rest.outcomes;
      assert Terminal(sys.store.otps[i], evs[0].now, cfg.maxAttempts);
      StepFreezesTerminal(cfg, sys, evs[0], i);
      assert NotBefore(evs[1..], t) by {
        forall k | 0 <= k < |evs[1..]| ensures evs[1..][k].now >= t {
          assert evs[1..][k] == evs[k + 1];
        }
      }
      TerminalRowFrozen(cfg, s.system, evs[1..], i, t);
    }
  }

  /** Rows created so far carry creation times no later than `now`. */
  predicate CreatedBy(st: Store, now: int) {
    forall j :: 0 <= j < |st.otps| ==> st.otps[j].createdAt <= now
  }

  /** With a clock that does not run backwards, rows stay sorted by creation
      time, so the position order used by `LatestUnused` agrees with the
      `created_at` order of the source's query. */
  lemma StepKeepsCreationOrder(cfg: Config, sys: System, e: Event)
    requires WellFormed(e)
    requires CreatedInOrder(sys.store.otps)
    requires CreatedBy(sys.store, e.now)
    ensures CreatedInOrder(Step(cfg, sys, e).system.store.otps)
    ensures CreatedBy(Step(cfg, sys, e).system.store, e.now)
  {
    var otps := sys.store.otps;
    var otps' := Step(cfg, sys, e).system.store.otps;
    forall j | 0 <= j < |otps| ensures otps'[j].createdAt == otps[j].createdAt {
      assert RowEvolves(otps[j], otps'[j]);
    }
    if |otps'| > |otps| {
      assert otps'[|otps|].createdAt == e.now;
    }
  }
}
