/** What logging out one token guarantees, over whole runs. */
module LogoutSafety {
  import opened Clock
  import opened Wrappers
  import opened Tokens

  /** The token is kept out until less than a second before it expires: either that
      moment has come, or a blacklist key stands until then. */
  predicate Guarded(w: World, j: Jti, margin: Time) {
    && Genuine(w, j)
    && var end := InstantOf(w.minted[j].token.exp);
       || end - margin < w.now
       || (BlacklistKey(j) in w.store && end - margin < w.store[BlacklistKey(j)].deadline)
  }

  predicate Whole(t: int) {
    t % 1_000_000 == 0
  }

  /** Every instant the run touches is a whole second. */
  predicate OnWholeSecond(w: World) {
    Whole(w.now)
  }

  function Elapses(step: Step): nat {
    match step
    case Wait(gap) => gap
    case BeginRefresh(_) => 0
    case Authenticate(_, lag) => lag
    case FinishRefresh(_, _, lag) => lag
    case Logout(_, _, _, lag) => lag
    case RevokeAll(_, lag) => lag
  }

  predicate WholeSteps(steps: seq<Step>) {
    forall i | 0 <= i < |steps| :: Whole(Elapses(steps[i]))
  }

  lemma WholeSums(a: int, b: int)
    requires Whole(a) && Whole(b)
    ensures Whole(a + b) && Whole(a + b + b)
  {
  }

  /** Truncation cuts off less than a second, and nothing between whole seconds. */
  lemma TtlCovers(token: Token, now: Time)
    ensures var end, ttl := InstantOf(token.exp), RemainingTtl(token, now);
            && end - SECOND < now + InstantOf(ttl)
            && (Whole(now) ==> end <= now + InstantOf(ttl))
  {
  }

  lemma BlacklistTokenGuards(w: World, j: Jti, lag: nat)
    requires Genuine(w, j)
    ensures Guarded(BlacklistToken(w, j, lag), j, SECOND)
    ensures OnWholeSecond(w) && Whole(lag) ==>
              OnWholeSecond(BlacklistToken(w, j, lag)) && Guarded(BlacklistToken(w, j, lag), j, 1)
  {
    var token := w.minted[j].token;
    TtlCovers(token, w.now);
    KeyCovers(w, j, RemainingTtl(token, w.now), lag, InstantOf(token.exp), SECOND);
    if OnWholeSecond(w) && Whole(lag) {
      WholeSums(w.now, lag);
      KeyCovers(w, j, RemainingTtl(token, w.now), lag, InstantOf(token.exp), 1);
    }
  }

  lemma KeyCovers(w: World, j: Jti, ttl: int, lag: nat, end: Time, margin: Time)
    requires Genuine(w, j) && end == InstantOf(w.minted[j].token.exp)
    requires 0 <= ttl && end - margin < w.now + InstantOf(ttl)
    ensures Guarded(AddToBlacklist(w, j, ttl, lag), j, margin)
  {
  }

  /** Blacklisting again, here or elsewhere, may move the deadline but not below the margin. */
  lemma BlacklistTokenKeepsGuard(w: World, k: Jti, lag: nat, j: Jti)
    requires Genuine(w, k)
    ensures Guarded(w, j, SECOND) ==> Guarded(BlacklistToken(w, k, lag), j, SECOND)
    ensures OnWholeSecond(w) && Whole(lag) ==>
              && OnWholeSecond(BlacklistToken(w, k, lag))
              && (Guarded(w, j, 1) ==> Guarded(BlacklistToken(w, k, lag), j, 1))
  {
    BlacklistTokenGuards(w, k, lag);
  }

  lemma GuardOutlastsTime(w: World, w': World, j: Jti, margin: Time)
    requires Guarded(w, j, margin) && w.minted <= w'.minted && w.now <= w'.now
    requires BlacklistKey(j) in w.store ==>
               BlacklistKey(j) in w'.store && w'.store[BlacklistKey(j)] == w.store[BlacklistKey(j)]
    ensures Guarded(w', j, margin)
  {
  }

  lemma LogoutKeepsGuard(w: World, access: Jti, refresh: Option<Jti>, userExists: bool, lag: nat, j: Jti)
    ensures var w' := LogoutTokens(w, access, refresh, userExists, lag);
            && (Guarded(w, j, SECOND) ==> Guarded(w', j, SECOND))
            && (OnWholeSecond(w) && Whole(lag) ==>
                  OnWholeSecond(w') && (Guarded(w, j, 1) ==> Guarded(w', j, 1)))
  {
    if AcceptsAs(w, access, Access) && userExists {
      BlacklistTokenKeepsGuard(w, access, lag, j);
      var w' := BlacklistToken(w, access, lag);
      if refresh.Some? && Genuine(w', refresh.value) {
        BlacklistTokenKeepsGuard(w', refresh.value, lag, j);
      }
    }
  }

  lemma MintPairTakesTime(cfg: Lifetimes, w: World, user: UserId, began: nat, origin: Origin, lag: nat)
    ensures var w' := MintPair(cfg, w, user, began, origin, lag);
            w'.store == w.store && w'.now == w.now + lag + lag
  {
  }

  /** Only logout touches blacklist keys. */
  lemma OtherStepsKeepKey(cfg: Lifetimes, w: World, step: Step, j: Jti)
    requires !step.Logout?
    ensures var w' := Apply(cfg, w, step);
            && (BlacklistKey(j) in w.store ==>
                  BlacklistKey(j) in w'.store && w'.store[BlacklistKey(j)] == w.store[BlacklistKey(j)])
            && var e := Elapses(step); w'.now in [w.now, w.now + e, w.now + e + e]
  {
    match step
    case Authenticate(user, lag) => MintPairTakesTime(cfg, w, user, w.steps, Authentication, lag);
    case FinishRefresh(q, active, lag) =>
      if q in w.pending && Genuine(w, q.parent) && active {
        var w' := w.(pending := w.pending - {q});
        MintPairTakesTime(cfg, w', w.minted[q.parent].token.user, q.began, RefreshOf(q.parent), lag);
      }
    case _ =>
  }

  lemma ApplyKeepsGuard(cfg: Lifetimes, w: World, step: Step, j: Jti)
    requires WorldSound(cfg, w)
    ensures Guarded(w, j, SECOND) ==> Guarded(Apply(cfg, w, step), j, SECOND)
    ensures OnWholeSecond(w) && Whole(Elapses(step)) ==>
              OnWholeSecond(Apply(cfg, w, step)) && (Guarded(w, j, 1) ==> Guarded(Apply(cfg, w, step), j, 1))
  {
    if step.Logout? {
      LogoutKeepsGuard(w, step.access, step.refresh, step.userExists, step.lag, j);
    } else {
      OtherStepsKeepKey(cfg, w, step, j);
      ApplyKeepsSound(cfg, w, step);
      if OnWholeSecond(w) && Whole(Elapses(step)) { WholeSums(w.now, Elapses(step)); }
      var w' := Apply(cfg, w, step);
      if Guarded(w, j, SECOND) { GuardOutlastsTime(w, w', j, SECOND); }
      if Guarded(w, j, 1) { GuardOutlastsTime(w, w', j, 1); }
    }
  }

  lemma {:induction false} RunKeepsGuard(cfg: Lifetimes, w: World, steps: seq<Step>, j: Jti)
    requires WorldSound(cfg, w)
    ensures Guarded(w, j, SECOND) ==> Guarded(Run(cfg, w, steps), j, SECOND)
    ensures OnWholeSecond(w) && WholeSteps(steps) && Guarded(w, j, 1) ==> Guarded(Run(cfg, w, steps), j, 1)
    decreases |steps|
  {
    if steps != [] {
      ApplyKeepsSound(cfg, w, steps[0]);
      ApplyKeepsGuard(cfg, w, steps[0], j);
      RunKeepsGuard(cfg, Apply(cfg, w, steps[0]), steps[1..], j);
    }
  }

  predicate NamedByLogout(w: World, access: Jti, refresh: Option<Jti>, j: Jti) {
    j == access || (refresh == Some(j) && Genuine(w, j))
  }

  function AfterLogout(cfg: Lifetimes, w: World, access: Jti, refresh: Option<Jti>, lag: nat, after: seq<Step>): World {
    Run(cfg, Apply(cfg, w, Logout(access, refresh, true, lag)), after)
  }

  /** In every run, a token named by a successful logout can be accepted again only inside
      the final second before it expires, and on a whole-second clock never. */
  lemma LoggedOutStaysOut(cfg: Lifetimes, w: World, access: Jti, refresh: Option<Jti>, lag: nat,
                          after: seq<Step>, j: Jti)
    requires WorldSound(cfg, w)
    requires AcceptsAs(w, access, Access) && NamedByLogout(w, access, refresh, j)
    ensures var w2 := AfterLogout(cfg, w, access, refresh, lag, after);
            var end := InstantOf(w.minted[j].token.exp);
            && (Accepts(w2, j) ==> end - SECOND < w2.now < end)
            && (OnWholeSecond(w) && Whole(lag) && WholeSteps(after) ==> !Accepts(w2, j))
  {
    var step := Logout(access, refresh, true, lag);
    var w1 := BlacklistToken(w, access, lag);
    BlacklistTokenGuards(w, access, lag);
    if refresh.Some? && Genuine(w1, refresh.value) {
      BlacklistTokenGuards(w1, refresh.value, lag);
      BlacklistTokenKeepsGuard(w1, refresh.value, lag, j);
    }
    var w' := Apply(cfg, w, step);
    assert Guarded(w', j, SECOND);
    assert OnWholeSecond(w) && Whole(lag) ==> Guarded(w', j, 1) && OnWholeSecond(w');
    ApplyKeepsSound(cfg, w, step);
    RunKeepsSound(cfg, w', after);
    RunKeepsGuard(cfg, w', after, j);
    assert Run(cfg, w', after).minted[j] == w.minted[j];
    assert MintSound(cfg, w, j);
  }

  /** An example: with a second and a half to live, the key lasts one second, and from then on
      the token is accepted again. */
  lemma AcceptedInItsLastHalfSecond(w: World, j: Jti)
    requires j < |w.minted| && w.minted[j].token == Token(j, "u", Access, 1, 10)
    requires w.now == 8_500_000 && w.store == map[]
    ensures var w' := BlacklistToken(w, j, 0);
            !Accepts(w', j) && Accepts(w'.(now := 9_500_000), j)
  {
    assert RemainingTtl(w.minted[j].token, w.now) == 1;
  }

  predicate AcceptsLater(w: World, gap: nat, j: Jti) {
    Accepts(w.(now := w.now + gap), j)
  }

  /** The gap exactly: with nothing else happening, some later instant accepts a blacklisted
      token again if and only if the key was set faster than the fraction of a second that
      truncating its time to live cut off. */
  lemma GapExactly(w: World, j: Jti, lag: nat)
    requires Accepts(w, j) && BlacklistKey(j) !in w.store && RevokedAtKey(w.minted[j].token.user) !in w.store
    requires w.minted[j].token.jti == j
    ensures var w' := BlacklistToken(w, j, lag);
            (exists gap: nat :: AcceptsLater(w', gap, j))
            <==> lag < (InstantOf(w.minted[j].token.exp) - w.now) % 1_000_000
  {
    var w' := BlacklistToken(w, j, lag);
    var end := InstantOf(w.minted[j].token.exp);
    var ttl := RemainingTtl(w.minted[j].token, w.now);
    assert end - w.now == InstantOf(ttl) + (end - w.now) % 1_000_000;
    if lag < (end - w.now) % 1_000_000 {
      var gap: nat := InstantOf(ttl);
      assert AcceptsLater(w', gap, j);
    } else {
      forall gap: nat ensures !AcceptsLater(w', gap, j) {
        if w'.now + gap < end { assert Blacklisted(w'.(now := w'.now + gap), j); }
      }
    }
  }
}
