/** When a registered account becomes active: over every run, exactly by a request that brings the
    right code in time; and what each request is answered. */
module AccountActivation {
  import opened Clock
  import opened EmailVerification
  import opened Wrappers

  const MINUTE: int := 60_000_000

  /** The request brings the right code, alive, to an account with fewer than five attempts. */
  predicate Meets(a: Account, r: Request) {
    && r.VerifyRequest? && r.correct
    && a.code.Some? && a.expiresAt.Some? && r.now <= a.expiresAt.value && a.attempts < 5
  }

  /** Some request of the run does. */
  predicate MetIn(a: Account, rs: seq<Request>)
    decreases |rs|
  {
    rs != [] && (Meets(a, rs[0]) || MetIn(Next(a, rs[0]), rs[1..]))
  }

  /** A verified account is active, and has nothing left of its verification. */
  predicate Settled(a: Account) {
    && (a.active <==> a.emailVerified)
    && (a.emailVerified ==> a.code.None? && a.expiresAt.None? && a.attempts == 0 && a.lastRequest.None?)
  }

  /** No reply but success, and no resend, touches either flag; success sets both. */
  lemma FlagsChangeOnSuccess(a: Account, now: Time, r: Request)
    requires Sound(a, now) && Settled(a) && now <= r.now
    ensures var a' := Next(a, r);
            && Settled(a') && (a'.active <==> a.active || Meets(a, r))
            && (r.VerifyRequest? ==> (Verify(a, r.now, r.correct).1.Verified? <==> Meets(a, r)))
  {
  }

  lemma {:induction false} ActiveExactly(a: Account, now: Time, rs: seq<Request>)
    requires Sound(a, now) && Settled(a) && InOrder(now, rs)
    ensures Settled(Run(a, rs)) && (Run(a, rs).active <==> a.active || MetIn(a, rs))
    decreases |rs|
  {
    if rs != [] {
      NextSound(a, now, rs[0]);
      FlagsChangeOnSuccess(a, now, rs[0]);
      ActiveExactly(Next(a, rs[0]), rs[0].now, rs[1..]);
    }
  }

  /** In every run from a registration the account is active, and its address verified, exactly if
      some request met the right code in time; and then no code, expiry, count or timestamp of
      the verification is left. */
  lemma ActivatedExactly(start: Time, rs: seq<Request>)
    requires InOrder(start, rs)
    ensures var a, met := Run(Registered(start), rs), MetIn(Registered(start), rs);
            && (a.active <==> met) && (a.emailVerified <==> met)
            && (met ==> a.code.None? && a.expiresAt.None? && a.attempts == 0 && a.lastRequest.None?)
  {
    ActiveExactly(Registered(start), start, rs);
  }

  // ---------------------------------------------------------------- how long a code lives

  /** The code of a registration verifies for fifteen minutes. */
  lemma FirstCodeLivesFifteenMinutes(start: Time, now: Time)
    ensures Verify(Registered(start), now, true).1.Verified? <==> now <= start + 15 * MINUTE
  {
  }

  /** So does a code that is resent, while it has an attempt; it is a new one, and the account's
      flags are as they were. */
  lemma ResentCodeLivesFifteenMinutes(a: Account, sent: Time, now: Time)
    requires Sound(a, sent) && Resend(a, sent).1.Sent? && sent <= now
    ensures var a' := Resend(a, sent).0;
            && a'.code == Some(a.issued) && a.code != a'.code
            && a'.active == a.active && !a'.emailVerified
            && (Verify(a', now, true).1.Verified? <==> now <= sent + 15 * MINUTE && a'.attempts < 5)
  {
  }

  // ---------------------------------------------------------------- the replies

  /** The answer to every verification request, by what the row holds: locked for half an hour
      after the last of five attempts, counted in whole minutes; then no code, expired, wrong
      with what is left of five, or verified. */
  lemma RepliesExactly(a: Account, now: Time, correct: bool)
    requires Sound(a, now)
    ensures var reply := Verify(a, now, correct).1;
            if a.attempts >= 5 && now < a.lastRequest.value + 30 * MINUTE then
              reply.Locked? && reply.minutes * MINUTE <= a.lastRequest.value + 30 * MINUTE - now
              && a.lastRequest.value + 30 * MINUTE - now < (reply.minutes + 1) * MINUTE
            else if a.code.None? then reply == NoCode
            else if a.expiresAt.value < now then reply == Expired
            else if correct then reply == Verified
            else if a.attempts == 4 then reply == WrongAndLocked
            else reply == Wrong(4 - a.attempts)
  {
  }

  /** A wrong guess is counted, and nothing else of the row changes but the time of the last
      request. */
  lemma WrongGuessIsCounted(a: Account, now: Time)
    requires Sound(a, now)
    ensures var (a', reply) := Verify(a, now, false);
            if reply.Wrong? || reply.WrongAndLocked?
            then a' == a.(attempts := a.attempts + 1, lastRequest := Some(now)) else a' == a
  {
  }

  /** Both instants fall on one UTC day. */
  predicate SameDay(s: Time, t: Time) {
    s / (24 * 60 * MINUTE) == t / (24 * 60 * MINUTE)
  }

  /** A code is resent exactly to an address not yet verified, a minute or more after the last
      request that counted, unless that was on the same day and ten count already. What is
      counted starts anew with the day's first resend; a refusal changes nothing. */
  lemma ResendsExactly(a: Account, now: Time)
    requires Sound(a, now)
    ensures var (a', outcome) := Resend(a, now);
            var last := a.lastRequest;
            && (outcome.Sent? <==>
                  && !a.emailVerified
                  && (last.Some? ==> now >= last.value + MINUTE)
                  && (last.Some? && SameDay(last.value, now) ==> a.attempts < 10))
            && (if outcome.Sent? then
                  && a'.attempts == (if last.Some? && SameDay(last.value, now) then a.attempts + 1 else 1)
                  && a'.lastRequest == Some(now) && a'.issued == a.issued + 1
                else a' == a)
  {
    if a.lastRequest.Some? {
      SameDayIsSinceMidnight(a.lastRequest.value, now);
    }
  }

  lemma SameDayIsSinceMidnight(s: Time, t: Time)
    requires s <= t
    ensures SameDay(s, t) <==> StartOfDay(t) <= s
  {
    assert t == t / DAY * DAY + t % DAY;
    assert s == s / DAY * DAY + s % DAY;
  }
}
