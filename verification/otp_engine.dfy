/**
 The per-passcode state machine: what one verification attempt does to the
 row the flow selected, and the life-cycle status of a row at a given time.
 */
module OtpEngine {
  import opened Records

  /** Life-cycle status of a row at time `now`.  Consumed, Expired and
      Exhausted are terminal; the checks run in the same order as the
      verification handler (`used`, then expiry, then the attempt count). */
  datatype Status = Pending | Consumed | Expired | Exhausted

  function StatusAt(o: Otp, now: int, maxAttempts: int): Status {
    if o.used then Consumed
    else if now > o.expiresAt then Expired
    else if o.attempts >= maxAttempts then Exhausted
    else Pending
  }

  predicate Terminal(o: Otp, now: int, maxAttempts: int) {
    StatusAt(o, now, maxAttempts) != Pending
  }

  /** The verdict of one attempt against a selected row. */
  datatype Verdict = RejectExpired | RejectExhausted | Accept | RejectMismatch

  datatype AttemptResult = AttemptResult(verdict: Verdict, row: Otp)

  /** Only `used` and `attempts` can change; owner, digest and times never do. */
  predicate SameIdentity(a: Otp, b: Otp) {
    && a.userId == b.userId
    && a.otpHash == b.otpHash
    && a.createdAt == b.createdAt
    && a.expiresAt == b.expiresAt
  }

  /** One attempt with a submitted code whose digest is `submittedHash`, on an
      unused row.  The expiry check is strict (`now > expires_at`) and both
      it and the attempt limit are tested before the digests are compared,
      so a row past either limit rejects even the right code and stays as it
      was.  A match consumes the row; a mismatch counts one more attempt. */
  function Attempt(o: Otp, submittedHash: string, now: int, maxAttempts: int): (res: AttemptResult)
    requires !o.used
    ensures SameIdentity(o, res.row)
    ensures res.verdict == RejectExpired <==> StatusAt(o, now, maxAttempts) == Expired
    ensures res.verdict == RejectExhausted <==> StatusAt(o, now, maxAttempts) == Exhausted
    ensures res.verdict == Accept <==>
              StatusAt(o, now, maxAttempts) == Pending && submittedHash == o.otpHash
    ensures res.verdict == RejectMismatch <==>
              StatusAt(o, now, maxAttempts) == Pending && submittedHash != o.otpHash
    ensures res.verdict == Accept ==>
              res.row.used && res.row.attempts == o.attempts
              && StatusAt(res.row, now, maxAttempts) == Consumed
    ensures res.verdict == RejectMismatch ==>
              !res.row.used && res.row.attempts == o.attempts + 1
    ensures res.verdict in {RejectExpired, RejectExhausted} ==> res.row == o
  {
    if now > o.expiresAt then AttemptResult(RejectExpired, o)
    else if o.attempts >= maxAttempts then AttemptResult(RejectExhausted, o)
    else if submittedHash == o.otpHash then AttemptResult(Accept, o.(used := true))
    else AttemptResult(RejectMismatch, o.(attempts := o.attempts + 1))
  }

  /** Attempts never leave a terminal status: a terminal row is returned
      unchanged and never accepted, and stays terminal at any later time. */
  lemma TerminalIsAbsorbing(o: Otp, submittedHash: string, now: int, later: int, maxAttempts: int)
    requires !o.used
    requires Terminal(o, now, maxAttempts)
    requires later >= now
    ensures Attempt(o, submittedHash, now, maxAttempts).row == o
    ensures Attempt(o, submittedHash, now, maxAttempts).verdict != Accept
    ensures Terminal(o, later, maxAttempts)
  {
  }

  /** A pending row moves, on a mismatch, to Pending again or to Exhausted,
      and it is Exhausted exactly when this mismatch used the last allowed
      attempt. */
  lemma MismatchStatus(o: Otp, submittedHash: string, now: int, maxAttempts: int)
    requires !o.used
    requires StatusAt(o, now, maxAttempts) == Pending
    requires submittedHash != o.otpHash
    ensures var r := Attempt(o, submittedHash, now, maxAttempts).row;
            StatusAt(r, now, maxAttempts) == (if o.attempts + 1 >= maxAttempts then Exhausted else Pending)
  {
  }
}
