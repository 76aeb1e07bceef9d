/** What the verification counter limits over a day: wrong guesses and codes sent, over every
    run; and a run that spends it on resends. */
module VerificationLimits {
  import opened Clock
  import opened EmailVerification
  import opened Wrappers

  /** The instant falls on the UTC day that begins at `day`. */
  predicate OnDay(t: Time, day: Time) {
    day <= t < day + DAY
  }

  predicate Guessing(a: Account, r: Request) {
    r.VerifyRequest? && var reply := Verify(a, r.now, r.correct).1; reply.Wrong? || reply.WrongAndLocked?
  }

  predicate Sends(a: Account, r: Request) {
    r.ResendRequest? && Resend(a, r.now).1.Sent?
  }

  /** How many wrong guesses a run makes on a day, whatever the code. */
  function GuessesOn(a: Account, rs: seq<Request>, day: Time): nat
    decreases |rs|
  {
    if rs == [] then 0
    else (if Guessing(a, rs[0]) && OnDay(rs[0].now, day) then 1 else 0) + GuessesOn(Next(a, rs[0]), rs[1..], day)
  }

  /** How many codes a run sends on a day. */
  function SentOn(a: Account, rs: seq<Request>, day: Time): nat
    decreases |rs|
  {
    if rs == [] then 0
    else (if Sends(a, rs[0]) && OnDay(rs[0].now, day) then 1 else 0) + SentOn(Next(a, rs[0]), rs[1..], day)
  }

  /** What a limit leaves for the day at an instant: all of it before the day's first request,
      what the counter leaves after that, nothing when the day is over. */
  function Left(a: Account, now: Time, day: Time, limit: nat): nat {
    if a.emailVerified || day + DAY <= now then 0
    else if a.lastRequest.Some? && day <= a.lastRequest.value then
      if 0 <= a.attempts <= limit then limit - a.attempts else 0
    else limit
  }

  lemma GuessUsesOne(a: Account, now: Time, r: Request, day: Time)
    requires Sound(a, now) && now <= r.now && day % DAY == 0
    ensures (if Guessing(a, r) && OnDay(r.now, day) then 1 else 0) + Left(Next(a, r), r.now, day, 5)
         <= Left(a, now, day, 5)
  {
  }

  lemma RequestUsesOne(a: Account, now: Time, r: Request, day: Time)
    requires Sound(a, now) && now <= r.now && day % DAY == 0
    ensures (if (Sends(a, r) || Guessing(a, r)) && OnDay(r.now, day) then 1 else 0) + Left(Next(a, r), r.now, day, 10)
         <= Left(a, now, day, 10)
  {
  }

  lemma {:induction false} GuessesWithinTheDay(a: Account, now: Time, rs: seq<Request>, day: Time)
    requires Sound(a, now) && InOrder(now, rs) && day % DAY == 0
    ensures GuessesOn(a, rs, day) <= Left(a, now, day, 5)
    decreases |rs|
  {
    if rs != [] {
      NextSound(a, now, rs[0]);
      GuessUsesOne(a, now, rs[0], day);
      GuessesWithinTheDay(Next(a, rs[0]), rs[0].now, rs[1..], day);
    }
  }

  lemma {:induction false} RequestsWithinTheDay(a: Account, now: Time, rs: seq<Request>, day: Time)
    requires Sound(a, now) && InOrder(now, rs) && day % DAY == 0
    ensures SentOn(a, rs, day) + GuessesOn(a, rs, day) <= Left(a, now, day, 10)
    decreases |rs|
  {
    if rs != [] {
      NextSound(a, now, rs[0]);
      RequestUsesOne(a, now, rs[0], day);
      RequestsWithinTheDay(Next(a, rs[0]), rs[0].now, rs[1..], day);
    }
  }

  /** An account meets at most five wrong guesses on any UTC day, over all its codes and in
      every run. */
  lemma FiveGuessesADay(start: Time, rs: seq<Request>, day: Time)
    requires InOrder(start, rs) && day % DAY == 0
    ensures GuessesOn(Registered(start), rs, day) <= 5
  {
    GuessesWithinTheDay(Registered(start), start, rs, day);
  }

  /** Codes sent and wrong guesses together are ten at most. */
  lemma TenRequestsADay(start: Time, rs: seq<Request>, day: Time)
    requires InOrder(start, rs) && day % DAY == 0
    ensures SentOn(Registered(start), rs, day) + GuessesOn(Registered(start), rs, day) <= 10
  {
    RequestsWithinTheDay(Registered(start), start, rs, day);
  }

  // ---------------------------------------------------------------- a minute apart

  /** Request `i` of the run sends a code. */
  predicate SendsAt(a: Account, rs: seq<Request>, i: nat)
    requires i < |rs|
    decreases i
  {
    if i == 0 then Sends(a, rs[0]) else SendsAt(Next(a, rs[0]), rs[1..], i - 1)
  }

  /** The account has seen a request at or after an instant, or is verified and sends no more. */
  predicate RequestedSince(a: Account, from: Time) {
    a.emailVerified || (a.lastRequest.Some? && from <= a.lastRequest.value)
  }

  lemma {:induction false} LaterSend(a: Account, from: Time, rs: seq<Request>, i: nat)
    requires RequestedSince(a, from) && i < |rs| && InOrder(from, rs) && SendsAt(a, rs, i)
    ensures from + RATE_LIMIT <= rs[i].now
    decreases i
  {
    if i > 0 {
      InOrderLater(from, rs);
      LaterSend(Next(a, rs[0]), from, rs[1..], i - 1);
    }
  }

  lemma InOrderLater(from: Time, rs: seq<Request>)
    requires rs != [] && InOrder(from, rs)
    ensures InOrder(from, rs[1..])
  {
  }

  /** Any two codes that a run sends are a minute apart. */
  lemma {:induction false} CodesAreAMinuteApart(a: Account, now: Time, rs: seq<Request>, i: nat, j: nat)
    requires InOrder(now, rs) && i < j < |rs| && SendsAt(a, rs, i) && SendsAt(a, rs, j)
    ensures rs[i].now + RATE_LIMIT <= rs[j].now
    decreases i
  {
    if i == 0 {
      LaterSend(Next(a, rs[0]), rs[0].now, rs[1..], j - 1);
    } else {
      CodesAreAMinuteApart(Next(a, rs[0]), rs[0].now, rs[1..], i - 1, j - 1);
    }
  }

  // ---------------------------------------------------------------- a run that spends the counter on resends

  function AfterResends(n: nat): Account {
    if n == 0 then Registered(0) else Resend(AfterResends(n - 1), n * RATE_LIMIT).0
  }

  function Resends(n: nat): seq<Request>
    ensures |Resends(n)| == n
  {
    if n == 0 then [] else Resends(n - 1) + [ResendRequest(n * RATE_LIMIT)]
  }

  /** Five resends, a minute apart from the registration on, each send a code, and leave the
      last one with no attempt: the right code is refused at once, and for half an hour. */
  lemma FifthResentCodeIsDead()
    ensures var a := Run(Registered(0), Resends(5));
            && a == AfterResends(5) && a.attempts == 5 && a.code == Some(5)
            && (forall i: nat | i < 5 :: SendsAt(Registered(0), Resends(5), i))
            && Verify(a, 5 * RATE_LIMIT + 1, true).1 == Locked(29)
  {
  }
}
