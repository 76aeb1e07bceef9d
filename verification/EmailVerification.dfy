/** E-mail verification: one counter and one timestamp, shared by two endpoints with three
    windows: fifteen minutes of code life, thirty of lockout, and a daily reset. */
module EmailVerification {
  import opened Clock
  import opened Wrappers

  const MAX_ATTEMPTS: int := 5
  const LOCKOUT: Time := 1_800_000_000
  const CODE_LIFE: Time := 900_000_000
  const RATE_LIMIT: Time := 60_000_000
  const DAILY_LIMIT: int := 10

  /** The committed user row. Codes are named by the order they were issued in, and
      `issued` counts them. */
  datatype Account = Account(
    code: Option<nat>,
    expiresAt: Option<Time>,
    attempts: int,
    lastRequest: Option<Time>,
    emailVerified: bool,
    active: bool,
    issued: nat)

  datatype VerifyReply =
    | Locked(minutes: int)
    | NoCode
    | Expired
    | Wrong(remaining: int)
    | WrongAndLocked
    | Verified

  datatype ResendOutcome = NotPending | TooSoon | DailyLimitHit | Sent

  function Registered(now: Time): Account {
    Account(Some(0), Some(now + CODE_LIFE), 0, None, false, false, 1)
  }

  /** An exception leaves the row as it was: what was assigned before it is not committed. */
  function Verify(a: Account, now: Time, correct: bool): (Account, VerifyReply) {
    var over := a.attempts >= MAX_ATTEMPTS && a.lastRequest.Some?;
    if over && now < a.lastRequest.value + LOCKOUT then
      (a, Locked((a.lastRequest.value + LOCKOUT - now) / 60_000_000))
    else
      var attempts := if over then 0 else a.attempts;
      if a.code.None? then (a, NoCode)
      else if a.expiresAt.Some? && a.expiresAt.value < now then (a, Expired)
      else if !correct then
        (a.(attempts := attempts + 1, lastRequest := Some(now)),
         if MAX_ATTEMPTS - (attempts + 1) <= 0 then WrongAndLocked else Wrong(MAX_ATTEMPTS - (attempts + 1)))
      else
        (a.(emailVerified := true, active := true, code := None, expiresAt := None, attempts := 0, lastRequest := None),
         Verified)
  }

  function Resend(a: Account, now: Time): (Account, ResendOutcome) {
    if a.emailVerified then (a, NotPending)
    else if a.lastRequest.Some? && now - a.lastRequest.value < RATE_LIMIT then (a, TooSoon)
    else
      var sameDay := a.lastRequest.Some? && StartOfDay(now) <= a.lastRequest.value;
      if sameDay && a.attempts >= DAILY_LIMIT then (a, DailyLimitHit)
      else
        (a.(code := Some(a.issued), issued := a.issued + 1, expiresAt := Some(now + CODE_LIFE),
            lastRequest := Some(now), attempts := (if sameDay then a.attempts else 0) + 1),
         Sent)
  }

  // ---------------------------------------------------------------- runs

  datatype Request = VerifyRequest(now: Time, correct: bool) | ResendRequest(now: Time)

  function Next(a: Account, r: Request): Account {
    match r
    case VerifyRequest(now, correct) => Verify(a, now, correct).0
    case ResendRequest(now) => Resend(a, now).0
  }

  function Run(a: Account, rs: seq<Request>): Account
    decreases |rs|
  {
    if rs == [] then a else Run(Next(a, rs[0]), rs[1..])
  }

  predicate InOrder(from: Time, rs: seq<Request>)
    decreases |rs|
  {
    rs == [] || (from <= rs[0].now && InOrder(rs[0].now, rs[1..]))
  }

  predicate GuessesWrong(a: Account, r: Request, code: nat) {
    && r.VerifyRequest?
    && a.code == Some(code)
    && (var reply := Verify(a, r.now, r.correct).1; reply.Wrong? || reply.WrongAndLocked?)
  }

  predicate Verifies(a: Account, r: Request, code: nat) {
    r.VerifyRequest? && a.code == Some(code) && Verify(a, r.now, r.correct).1.Verified?
  }

  /** How many wrong guesses a run tests against one code. */
  function WrongGuesses(a: Account, rs: seq<Request>, code: nat): nat
    decreases |rs|
  {
    if rs == [] then 0
    else (if GuessesWrong(a, rs[0], code) then 1 else 0) + WrongGuesses(Next(a, rs[0]), rs[1..], code)
  }

  /** How many requests of a run the code verifies. */
  function Verifications(a: Account, rs: seq<Request>, code: nat): nat
    decreases |rs|
  {
    if rs == [] then 0
    else (if Verifies(a, rs[0], code) then 1 else 0) + Verifications(Next(a, rs[0]), rs[1..], code)
  }

  // ---------------------------------------------------------------- the invariant

  /** The counter's range and its tie to the timestamp; and the code never outlives the
      last request by more than its own life, which the lockout exceeds. */
  predicate Sound(a: Account, now: Time) {
    && 0 <= a.attempts <= DAILY_LIMIT
    && (a.attempts > 0 ==> a.lastRequest.Some?)
    && (a.lastRequest.Some? ==> a.lastRequest.value <= now)
    && (a.code.Some? ==>
          && a.code.value + 1 == a.issued
          && a.expiresAt.Some? && a.expiresAt.value <= now + CODE_LIFE
          && (a.lastRequest.Some? ==> a.expiresAt.value <= a.lastRequest.value + CODE_LIFE))
    && (a.emailVerified ==> a.code.None? && a.attempts == 0)
  }

  lemma NextSound(a: Account, now: Time, r: Request)
    requires Sound(a, now) && now <= r.now
    ensures Sound(Next(a, r), r.now)
  {
  }

  /** In every run from a registration the counter stays within 0..10 and is positive only
      if the last-request time is set. */
  lemma {:induction false} CounterInRange(a: Account, now: Time, rs: seq<Request>)
    requires Sound(a, now) && InOrder(now, rs)
    ensures 0 <= Run(a, rs).attempts <= 10
    ensures Run(a, rs).attempts > 0 ==> Run(a, rs).lastRequest.Some?
    ensures Run(a, rs).emailVerified ==> Run(a, rs).code.None?
    decreases |rs|
  {
    if rs != [] {
      NextSound(a, now, rs[0]);
      CounterInRange(Next(a, rs[0]), rs[0].now, rs[1..]);
    }
  }

  // ---------------------------------------------------------------- theorems

  /** Once the counter has reached five, no verification request changes the row, inside
      the lockout or after it: the reset after the lockout is never committed, because by
      then the code has always expired. */
  lemma LockedRowNeverChanges(a: Account, now: Time, correct: bool)
    requires Sound(a, now) && MAX_ATTEMPTS <= a.attempts
    ensures Verify(a, now, correct).0 == a
    ensures !Verify(a, now, correct).1.Verified?
  {
  }

  /** Exactly when a request verifies the account. */
  lemma VerifiesExactlyWhen(a: Account, now: Time, correct: bool)
    requires Sound(a, now)
    ensures Verify(a, now, correct).1.Verified?
       <==> correct && a.code.Some? && now <= a.expiresAt.value && a.attempts < MAX_ATTEMPTS
  {
  }

  /** The wrong guesses still open to a code: what its counter leaves, nothing once it is
      replaced or consumed, five for a code not yet issued. */
  function Budget(a: Account, code: nat): nat {
    if a.code == Some(code) then
      if a.attempts < MAX_ATTEMPTS && 0 <= a.attempts then MAX_ATTEMPTS - a.attempts else 0
    else if code < a.issued then 0 else 5
  }

  lemma {:induction false} GuessesWithinBudget(a: Account, now: Time, rs: seq<Request>, code: nat)
    requires Sound(a, now) && InOrder(now, rs)
    ensures WrongGuesses(a, rs, code) <= Budget(a, code)
    decreases |rs|
  {
    if rs != [] {
      NextSound(a, now, rs[0]);
      GuessesWithinBudget(Next(a, rs[0]), rs[0].now, rs[1..], code);
    }
  }

  /** Every code ever issued meets at most five wrong guesses, whatever the
      interleaving of verify and resend requests. */
  lemma FiveGuessesPerCode(start: Time, rs: seq<Request>, code: nat)
    requires InOrder(start, rs)
    ensures WrongGuesses(Registered(start), rs, code) <= 5
  {
    GuessesWithinBudget(Registered(start), start, rs, code);
  }

  /** Resends count against the same limit: the code they issue has only what the counter
      then leaves, and one issued at five or more can never verify the account. */
  lemma {:induction false} ResentCodeHasTheRest(a: Account, now: Time, rs: seq<Request>)
    requires Sound(a, now) && InOrder(now, rs) && Resend(a, now).1.Sent?
    ensures var a' := Resend(a, now).0;
            && WrongGuesses(a', rs, a.issued) <= (if a'.attempts < 5 then 5 - a'.attempts else 0)
            && (5 <= a'.attempts ==> Verifications(a', rs, a.issued) == 0)
  {
    NextSound(a, now, ResendRequest(now));
    GuessesWithinBudget(Resend(a, now).0, now, rs, a.issued);
    if 5 <= Resend(a, now).0.attempts { SpentCodeNeverVerifies(Resend(a, now).0, now, rs, a.issued); }
  }

  lemma {:induction false} SpentCodeNeverVerifies(a: Account, now: Time, rs: seq<Request>, code: nat)
    requires Sound(a, now) && InOrder(now, rs)
    requires Budget(a, code) == 0
    ensures Verifications(a, rs, code) == 0
    decreases |rs|
  {
    if rs != [] {
      NextSound(a, now, rs[0]);
      SpentCodeNeverVerifies(Next(a, rs[0]), rs[0].now, rs[1..], code);
    }
  }

  function WrongTries(now: Time, n: nat): seq<Request> {
    seq(n, _ => VerifyRequest(now, false))
  }

  /** The bound is reached: while the code lives, the whole budget can be spent, and only
      then do guesses stop counting. */
  lemma {:induction false} BudgetCanBeSpent(a: Account, now: Time, code: nat, n: nat)
    requires Sound(a, now) && a.code == Some(code) && now <= a.expiresAt.value
    ensures WrongGuesses(a, WrongTries(now, n), code) == if n < Budget(a, code) then n else Budget(a, code)
    decreases n
  {
    if n > 0 {
      var rs := WrongTries(now, n);
      assert rs[1..] == WrongTries(now, n - 1);
      NextSound(a, now, rs[0]);
      BudgetCanBeSpent(Next(a, rs[0]), now, code, n - 1);
    }
  }

  // ---------------------------------------------------------------- the endpoints

  /** The user row as the endpoints update it. */
  class UserRow {
    var verificationCode: Option<nat>
    var verificationCodeExpiresAt: Option<Time>
    var verificationAttempts: int
    var lastVerificationRequestAt: Option<Time>
    var emailVerified: bool
    var isActive: bool
    var codesIssued: nat

    ghost function Row(): Account
      reads this
    {
      Account(verificationCode, verificationCodeExpiresAt, verificationAttempts,
              lastVerificationRequestAt, emailVerified, isActive, codesIssued)
    }

    /** `register`, on the path that sends a code. */
    constructor Register(now: Time)
      ensures Row() == Registered(now) && Sound(Row(), now)
    {
      verificationCode, verificationCodeExpiresAt := Some(0), Some(now + CODE_LIFE);
      verificationAttempts, lastVerificationRequestAt := 0, None;
      emailVerified, isActive, codesIssued := false, false, 1;
    }

    method VerifyEmail(now: Time, correct: bool) returns (reply: VerifyReply)
      modifies this
      ensures (Row(), reply) == Verify(old(Row()), now, correct)
      ensures old(Sound(Row(), now)) ==> Sound(Row(), now)
    {
      var attempts := verificationAttempts; // the session's copy, until a commit
      if attempts >= MAX_ATTEMPTS {
        if lastVerificationRequestAt.Some? {
          var lockoutExpires := lastVerificationRequestAt.value + LOCKOUT;
          if now < lockoutExpires {
            return Locked((lockoutExpires - now) / 60_000_000);
          }
          attempts := 0;
        }
      }
      if verificationCode.None? {
        return NoCode;
      }
      if verificationCodeExpiresAt.Some? && verificationCodeExpiresAt.value < now {
        return Expired;
      }
      if !correct {
        attempts := attempts + 1;
        verificationAttempts := attempts;
        lastVerificationRequestAt := Some(now);
        var remaining := MAX_ATTEMPTS - verificationAttempts;
        if remaining <= 0 {
          return WrongAndLocked;
        }
        return Wrong(remaining);
      }
      emailVerified := true;
      isActive := true;
      verificationCode := None;
      verificationCodeExpiresAt := None;
      verificationAttempts := 0;
      lastVerificationRequestAt := None;
      return Verified;
    }

    method ResendVerification(now: Time) returns (outcome: ResendOutcome)
      modifies this
      ensures (Row(), outcome) == Resend(old(Row()), now)
      ensures old(Sound(Row(), now)) ==> Sound(Row(), now)
    {
      if emailVerified {
        return NotPending;
      }
      if lastVerificationRequestAt.Some? {
        if now - lastVerificationRequestAt.value < RATE_LIMIT {
          return TooSoon;
        }
      }
      if lastVerificationRequestAt.Some? && lastVerificationRequestAt.value >= StartOfDay(now) {
        if verificationAttempts >= DAILY_LIMIT {
          return DailyLimitHit;
        }
      } else {
        verificationAttempts := 0;
      }
      verificationCode := Some(codesIssued);
      codesIssued := codesIssued + 1;
      verificationCodeExpiresAt := Some(now + CODE_LIFE);
      lastVerificationRequestAt := Some(now);
      verificationAttempts := verificationAttempts + 1;
      return Sent;
    }
  }
}
