/** When a revoke-all ends every older session, told from the world it finds: exactly when
    nothing of the user's is under way that can carry one across. */
module SessionEnds {
  import opened Clock
  import opened Wrappers
  import opened Tokens
  import opened Revocation

  // ---------------------------------------------------------------- what a revoke-all may find

  /** A token of the current instant that a stamp of this instant does not keep out. A key
      on the blacklist helps only if there is no time left to set a shorter one. */
  predicate Exposed(w: World, i: Jti)
    requires i < |w.minted|
  {
    var token := w.minted[i].token;
    && InstantOf(token.iat) == w.now < InstantOf(token.exp)
    && (BlacklistKey(i) !in w.store || w.now + 2 * SECOND <= InstantOf(token.exp))
  }

  predicate FromBefore(w: World, i: Jti, user: UserId, r: Time) {
    i < |w.minted| && w.minted[i].token.user == user && Root(w.minted, i).issuedAt < r
  }

  /** No refresh of an older session is half done, and none of its tokens is exposed. */
  ghost predicate Settled(w: World, user: UserId) {
    && (forall q | q in w.pending :: !FromBefore(w, q.parent, user, w.now))
    && (forall i: nat | i < |w.minted| && FromBefore(w, i, user, w.now) :: !Exposed(w, i))
  }

  /** Whatever happens afterwards, the token, if accepted, goes back to a login at or after
      the instant of the revocation. */
  predicate SessionEnded(cfg: Lifetimes, w: World, user: UserId, lag: nat, after: seq<Step>, j: Jti) {
    var w2 := Run(cfg, Apply(cfg, w, RevokeAll(user, lag)), after);
    Accepts(w2, j) ==> !FromBefore(w2, j, user, w.now)
  }

  // ---------------------------------------------------------------- blacklist keys of every run

  /** A key belongs to a minted token, and one set in the very instant of a token's whole
      second lasts until it expires. */
  predicate KeyTimely(w: World, j: Jti) {
    BlacklistKey(j) in w.store ==>
      && j < |w.minted|
      && (InstantOf(w.minted[j].token.iat) == w.now ==>
            InstantOf(w.minted[j].token.exp) <= w.store[BlacklistKey(j)].deadline)
  }

  ghost predicate KeysTimely(w: World) {
    forall j: Jti :: KeyTimely(w, j)
  }

  lemma BlacklistKeepsTimely(cfg: Lifetimes, w: World, k: Jti, lag: nat)
    requires WorldSound(cfg, w) && KeysTimely(w) && Genuine(w, k)
    ensures KeysTimely(BlacklistToken(w, k, lag))
  {
    var w' := BlacklistToken(w, k, lag);
    forall j: Jti ensures KeyTimely(w', j) {
      assert KeyTimely(w, j);
      if j < |w.minted| { assert MintSound(cfg, w, j); }
    }
  }

  /** Time and new tokens leave the keys of older ones timely. */
  lemma SameKeysStayTimely(cfg: Lifetimes, w: World, w': World)
    requires WorldSound(cfg, w) && KeysTimely(w)
    requires w.minted <= w'.minted && w.now <= w'.now
    requires forall j: Jti :: BlacklistKey(j) in w'.store ==>
               BlacklistKey(j) in w.store && w'.store[BlacklistKey(j)] == w.store[BlacklistKey(j)]
    ensures KeysTimely(w')
  {
    forall j: Jti ensures KeyTimely(w', j) {
      assert KeyTimely(w, j);
      if j < |w.minted| { assert MintSound(cfg, w, j); }
    }
  }

  lemma ApplyKeepsTimely(cfg: Lifetimes, w: World, step: Step)
    requires WorldSound(cfg, w) && KeysTimely(w)
    ensures KeysTimely(Apply(cfg, w, step))
  {
    var w' := Apply(cfg, w, step);
    ApplyKeepsSound(cfg, w, step);
    if step.Logout? && AcceptsAs(w, step.access, Access) && step.userExists {
      var w1 := BlacklistToken(w, step.access, step.lag);
      BlacklistKeepsTimely(cfg, w, step.access, step.lag);
      QuietStepKeepsSound(cfg, w, w1);
      if step.refresh.Some? && Genuine(w1, step.refresh.value) {
        var w2 := BlacklistToken(w1, step.refresh.value, step.lag);
        BlacklistKeepsTimely(cfg, w1, step.refresh.value, step.lag);
        QuietStepKeepsSound(cfg, w1, w2);
        SameKeysStayTimely(cfg, w2, w');
      } else {
        SameKeysStayTimely(cfg, w1, w');
      }
    } else {
      SameKeysStayTimely(cfg, w, w');
    }
  }

  lemma {:induction false} RunKeepsTimely(cfg: Lifetimes, w: World, steps: seq<Step>)
    requires WorldSound(cfg, w) && KeysTimely(w)
    ensures KeysTimely(Run(cfg, w, steps))
    decreases |steps|
  {
    if steps != [] {
      ApplyKeepsSound(cfg, w, steps[0]);
      ApplyKeepsTimely(cfg, w, steps[0]);
      RunKeepsTimely(cfg, Apply(cfg, w, steps[0]), steps[1..]);
    }
  }

  // ---------------------------------------------------------------- older tokens stay dead

  /** The key of a token that expires within a second of the revocation lasts as long as it. */
  predicate Shielded(w: World, i: Jti, r: Time)
    requires i < |w.minted|
  {
    && InstantOf(w.minted[i].token.exp) <= r + SECOND
    && BlacklistKey(i) in w.store && InstantOf(w.minted[i].token.exp) <= w.store[BlacklistKey(i)].deadline
  }

  predicate Dead(w: World, i: Jti, r: Time)
    requires i < |w.minted|
  {
    && w.minted[i].issuedAt <= r
    && (|| InstantOf(w.minted[i].token.iat) < r
        || InstantOf(w.minted[i].token.exp) <= w.now
        || Shielded(w, i, r))
  }

  ghost predicate OldAreDead(w: World, user: UserId, r: Time) {
    && (forall q | q in w.pending :: !FromBefore(w, q.parent, user, r))
    && (forall i: nat | i < |w.minted| && FromBefore(w, i, user, r) :: Dead(w, i, r))
  }

  lemma DeadIsNotAccepted(cfg: Lifetimes, w: World, user: UserId, r: Time, i: Jti)
    requires cfg.access <= WEEK_SECONDS && cfg.refresh <= WEEK_SECONDS
    requires WorldSound(cfg, w) && Stamped(w, user, r) && SECOND <= r
    requires i < |w.minted| && w.minted[i].token.user == user && Dead(w, i, r)
    ensures !Accepts(w, i)
  {
    assert MintSound(cfg, w, i);
    var entry := w.store[RevokedAtKey(user)];
    assert w.now < entry.deadline ==> RevocationStamp(w, user) == Some(entry.value.at);
  }

  lemma {:induction false} RootInLongerLog(log: seq<Mint>, longer: seq<Mint>, j: nat)
    requires log <= longer && j < |log|
    ensures Root(longer, j) == Root(log, j)
  {
    if log[j].origin.RefreshOf? && log[j].origin.parent < j { RootInLongerLog(log, longer, log[j].origin.parent); }
  }

  /** A step that mints nothing, opens no request and leaves the token's key keeps it dead. */
  lemma DeadStaysDead(w: World, w': World, i: Jti, r: Time)
    requires i < |w.minted| && Dead(w, i, r) && w.minted <= w'.minted && w.now <= w'.now
    requires BlacklistKey(i) in w.store ==>
               BlacklistKey(i) in w'.store && w'.store[BlacklistKey(i)] == w.store[BlacklistKey(i)]
    ensures Dead(w', i, r)
  {
  }

  lemma BlacklistKeepsDead(cfg: Lifetimes, w: World, k: Jti, lag: nat, i: Jti, r: Time)
    requires WorldSound(cfg, w) && Genuine(w, k) && r <= w.now
    requires i < |w.minted| && Dead(w, i, r)
    ensures Dead(BlacklistToken(w, k, lag), i, r)
  {
    assert MintSound(cfg, w, i);
  }

  lemma MintTokenKeepsDead(cfg: Lifetimes, w: World, user: UserId, r: Time,
                           owner: UserId, kind: Kind, began: nat, origin: Origin, lag: nat)
    requires OldAreDead(w, user, r) && r <= w.now
    requires forall q | q in w.pending :: q.parent < |w.minted|
    requires origin.RefreshOf? ==>
               && origin.parent < |w.minted| && w.minted[origin.parent].token.user == owner
               && !FromBefore(w, origin.parent, user, r)
    ensures OldAreDead(MintToken(cfg, w, owner, kind, began, origin, lag), user, r)
    ensures origin.RefreshOf? ==>
              !FromBefore(MintToken(cfg, w, owner, kind, began, origin, lag), origin.parent, user, r)
  {
    var w' := MintToken(cfg, w, owner, kind, began, origin, lag);
    var n := |w.minted|;
    if origin.RefreshOf? { RootInLongerLog(w.minted, w'.minted, origin.parent); }
    forall i: nat | i < |w'.minted| && FromBefore(w', i, user, r) ensures Dead(w', i, r) {
      if i < n {
        RootInLongerLog(w.minted, w'.minted, i);
        assert FromBefore(w, i, user, r);
        DeadStaysDead(w, w', i, r);
      }
    }
    forall q | q in w'.pending ensures !FromBefore(w', q.parent, user, r) {
      RootInLongerLog(w.minted, w'.minted, q.parent);
      assert !FromBefore(w, q.parent, user, r);
    }
  }

  lemma MintPairKeepsDead(cfg: Lifetimes, w: World, user: UserId, r: Time,
                          owner: UserId, began: nat, origin: Origin, lag: nat)
    requires OldAreDead(w, user, r) && r <= w.now
    requires forall q | q in w.pending :: q.parent < |w.minted|
    requires origin.RefreshOf? ==>
               && origin.parent < |w.minted| && w.minted[origin.parent].token.user == owner
               && !FromBefore(w, origin.parent, user, r)
    ensures OldAreDead(MintPair(cfg, w, owner, began, origin, lag), user, r)
  {
    MintTokenKeepsDead(cfg, w, user, r, owner, Access, began, origin, lag);
    MintTokenKeepsDead(cfg, MintToken(cfg, w, owner, Access, began, origin, lag), user, r,
                       owner, Refresh, began, origin, lag);
  }

  lemma QuietStepKeepsDead(w: World, w': World, user: UserId, r: Time)
    requires OldAreDead(w, user, r)
    requires w'.minted == w.minted && w.now <= w'.now && w'.pending <= w.pending
    requires forall i: Jti :: BlacklistKey(i) in w.store ==>
               BlacklistKey(i) in w'.store && w'.store[BlacklistKey(i)] == w.store[BlacklistKey(i)]
    ensures OldAreDead(w', user, r)
  {
    forall i: nat | i < |w'.minted| && FromBefore(w', i, user, r) ensures Dead(w', i, r) {
      assert FromBefore(w, i, user, r);
      DeadStaysDead(w, w', i, r);
    }
    forall q | q in w'.pending ensures !FromBefore(w', q.parent, user, r) {
      assert !FromBefore(w, q.parent, user, r);
    }
  }

  lemma BlacklistKeepsOldDead(cfg: Lifetimes, w: World, k: Jti, lag: nat, user: UserId, r: Time)
    requires WorldSound(cfg, w) && Genuine(w, k) && OldAreDead(w, user, r) && r <= w.now
    ensures OldAreDead(BlacklistToken(w, k, lag), user, r)
  {
    var w' := BlacklistToken(w, k, lag);
    forall i: nat | i < |w'.minted| && FromBefore(w', i, user, r) ensures Dead(w', i, r) {
      assert FromBefore(w, i, user, r);
      BlacklistKeepsDead(cfg, w, k, lag, i, r);
    }
    forall q | q in w'.pending ensures !FromBefore(w', q.parent, user, r) {
      assert !FromBefore(w, q.parent, user, r);
    }
  }

  lemma LogoutKeepsOldDead(cfg: Lifetimes, w: World, access: Jti, refresh: Option<Jti>, userExists: bool, lag: nat,
                           user: UserId, r: Time)
    requires WorldSound(cfg, w) && OldAreDead(w, user, r) && r <= w.now
    ensures OldAreDead(Apply(cfg, w, Logout(access, refresh, userExists, lag)), user, r)
  {
    var w' := Apply(cfg, w, Logout(access, refresh, userExists, lag));
    if AcceptsAs(w, access, Access) && userExists {
      var w1 := BlacklistToken(w, access, lag);
      BlacklistKeepsOldDead(cfg, w, access, lag, user, r);
      QuietStepKeepsSound(cfg, w, w1);
      if refresh.Some? && Genuine(w1, refresh.value) {
        BlacklistKeepsOldDead(cfg, w1, refresh.value, lag, user, r);
        QuietStepKeepsDead(BlacklistToken(w1, refresh.value, lag), w', user, r);
      } else {
        QuietStepKeepsDead(w1, w', user, r);
      }
    } else {
      QuietStepKeepsDead(w, w', user, r);
    }
  }

  lemma BeginRefreshKeepsDead(cfg: Lifetimes, w: World, jti: Jti, user: UserId, r: Time)
    requires cfg.access <= WEEK_SECONDS && cfg.refresh <= WEEK_SECONDS
    requires WorldSound(cfg, w) && Stamped(w, user, r) && SECOND <= r <= w.now && OldAreDead(w, user, r)
    ensures OldAreDead(Apply(cfg, w, BeginRefresh(jti)), user, r)
  {
    var w' := Apply(cfg, w, BeginRefresh(jti));
    if AcceptsAs(w, jti, Refresh) {
      if FromBefore(w, jti, user, r) { DeadIsNotAccepted(cfg, w, user, r, jti); }
      forall i: nat | i < |w'.minted| && FromBefore(w', i, user, r) ensures Dead(w', i, r) {
        assert FromBefore(w, i, user, r);
      }
    } else {
      QuietStepKeepsDead(w, w', user, r);
    }
  }

  lemma FinishRefreshKeepsDead(cfg: Lifetimes, w: World, q: Pending, userActive: bool, lag: nat, user: UserId, r: Time)
    requires WorldSound(cfg, w) && r <= w.now && OldAreDead(w, user, r)
    ensures OldAreDead(Apply(cfg, w, FinishRefresh(q, userActive, lag)), user, r)
  {
    var w' := Apply(cfg, w, FinishRefresh(q, userActive, lag));
    if q in w.pending && Genuine(w, q.parent) && userActive {
      var v := w.(pending := w.pending - {q});
      QuietStepKeepsDead(w, v, user, r);
      assert !FromBefore(w, q.parent, user, r);
      var owner := w.minted[q.parent].token.user;
      MintPairKeepsDead(cfg, v, user, r, owner, q.began, RefreshOf(q.parent), lag);
      QuietStepKeepsDead(MintPair(cfg, v, owner, q.began, RefreshOf(q.parent), lag), w', user, r);
    } else {
      QuietStepKeepsDead(w, w', user, r);
    }
  }

  lemma ApplyKeepsDead(cfg: Lifetimes, w: World, step: Step, user: UserId, r: Time)
    requires cfg.access <= WEEK_SECONDS && cfg.refresh <= WEEK_SECONDS
    requires WorldSound(cfg, w) && Stamped(w, user, r) && SECOND <= r <= w.now && OldAreDead(w, user, r)
    ensures OldAreDead(Apply(cfg, w, step), user, r)
  {
    match step
    case Wait(gap) => QuietStepKeepsDead(w, Apply(cfg, w, step), user, r);
    case Authenticate(owner, lag) =>
      var v := MintPair(cfg, w, owner, w.steps, Authentication, lag);
      MintPairKeepsDead(cfg, w, user, r, owner, w.steps, Authentication, lag);
      QuietStepKeepsDead(v, Apply(cfg, w, step), user, r);
    case BeginRefresh(jti) => BeginRefreshKeepsDead(cfg, w, jti, user, r);
    case FinishRefresh(q, active, lag) => FinishRefreshKeepsDead(cfg, w, q, active, lag, user, r);
    case Logout(access, refresh, exists_, lag) => LogoutKeepsOldDead(cfg, w, access, refresh, exists_, lag, user, r);
    case RevokeAll(_, _) => QuietStepKeepsDead(w, Apply(cfg, w, step), user, r);
  }

  lemma {:induction false} RunKeepsDead(cfg: Lifetimes, w: World, steps: seq<Step>, user: UserId, r: Time)
    requires cfg.access <= WEEK_SECONDS && cfg.refresh <= WEEK_SECONDS
    requires WorldSound(cfg, w) && Stamped(w, user, r) && SECOND <= r <= w.now && OldAreDead(w, user, r)
    ensures var w' := Run(cfg, w, steps); WorldSound(cfg, w') && Stamped(w', user, r) && OldAreDead(w', user, r)
    decreases |steps|
  {
    if steps != [] {
      ApplyKeepsSound(cfg, w, steps[0]);
      StampSurvives(cfg, w, steps[0], user, r);
      ApplyKeepsDead(cfg, w, steps[0], user, r);
      RunKeepsDead(cfg, Apply(cfg, w, steps[0]), steps[1..], user, r);
    }
  }

  /** A revoke-all in a settled world finds nothing it does not kill. */
  lemma RevokeAllKills(cfg: Lifetimes, w: World, user: UserId, lag: nat)
    requires WorldSound(cfg, w) && KeysTimely(w) && Settled(w, user)
    ensures var w' := Apply(cfg, w, RevokeAll(user, lag)); OldAreDead(w', user, w.now) && Stamped(w', user, w.now)
  {
    var w' := Apply(cfg, w, RevokeAll(user, lag));
    forall i: nat | i < |w'.minted| && FromBefore(w', i, user, w.now) ensures Dead(w', i, w.now) {
      assert FromBefore(w, i, user, w.now);
      assert MintSound(cfg, w, i) && KeyTimely(w, i);
    }
    forall q | q in w'.pending ensures !FromBefore(w', q.parent, user, w.now) {
      assert !FromBefore(w, q.parent, user, w.now);
    }
  }

  lemma SettledEnds(cfg: Lifetimes, w: World, user: UserId, lag: nat, after: seq<Step>, j: Jti)
    requires cfg.access <= WEEK_SECONDS && cfg.refresh <= WEEK_SECONDS
    requires WorldSound(cfg, w) && KeysTimely(w) && Settled(w, user)
    ensures SessionEnded(cfg, w, user, lag, after, j)
  {
    var w' := Apply(cfg, w, RevokeAll(user, lag));
    ApplyKeepsSound(cfg, w, RevokeAll(user, lag));
    RevokeAllKills(cfg, w, user, lag);
    RunKeepsDead(cfg, w', after, user, w.now);
    var w2 := Run(cfg, w', after);
    if FromBefore(w2, j, user, w.now) { DeadIsNotAccepted(cfg, w2, user, w.now, j); }
  }

  // ---------------------------------------------------------------- what survives otherwise

  /** A half-done refresh, completed in the next second, carries its session across. */
  lemma PendingSurvives(cfg: Lifetimes, w: World, user: UserId, q: Pending) returns (after: seq<Step>)
    requires WorldSound(cfg, w) && KeysTimely(w) && 1 <= cfg.access
    requires q in w.pending && FromBefore(w, q.parent, user, w.now)
    ensures !SessionEnded(cfg, w, user, 0, after, |w.minted|)
  {
    var gap := InstantOf(WholeSecond(w.now) + 1) - w.now;
    after := [Wait(gap), FinishRefresh(q, true, 0)];
    var w1 := Apply(cfg, w, RevokeAll(user, 0));
    var a := Apply(cfg, w1, after[0]);
    var b := Apply(cfg, a, after[1]);
    assert after[1..] == [after[1]] && after[1..][1..] == [];
    assert Run(cfg, w1, after) == Run(cfg, a, after[1..]) == Run(cfg, b, []) == b;
    var n := |w.minted|;
    assert KeyTimely(w, n);
    RootInLongerLog(w.minted, b.minted, q.parent);
    assert b.minted[n].origin == RefreshOf(q.parent);
    assert b.minted[n].token == Token(n, user, Access, WholeSecond(w.now) + 1, WholeSecond(w.now) + 1 + cfg.access);
    assert RevocationStamp(b, user) == Some(w.now) || RevocationStamp(b, user) == None;
  }

  /** An exposed token without a key is accepted at once. */
  lemma ExposedSurvives(cfg: Lifetimes, w: World, user: UserId, i: Jti)
    requires WorldSound(cfg, w) && FromBefore(w, i, user, w.now) && Exposed(w, i) && BlacklistKey(i) !in w.store
    ensures !SessionEnded(cfg, w, user, 0, [], i)
  {
    var w' := Apply(cfg, w, RevokeAll(user, 0));
    assert Run(cfg, w', []) == w';
    assert MintSound(cfg, w, i);
    assert RevocationStamp(w', user) == Some(w.now);
  }

  /** The world half a second after a revoke-all and a fresh login of the same instant. */
  function HalfASecondLater(cfg: Lifetimes, w: World, user: UserId): World {
    Apply(cfg, Apply(cfg, Apply(cfg, w, RevokeAll(user, 0)), Authenticate(user, 0)), Wait(500_000))
  }

  /** On a whole second, the fresh login's token can be used to log out. */
  lemma FreshLoginIsAccepted(cfg: Lifetimes, w: World, user: UserId)
    requires WorldSound(cfg, w) && KeysTimely(w) && 1 <= cfg.access && w.now % SECOND == 0
    ensures var a := HalfASecondLater(cfg, w, user);
            && AcceptsAs(a, |w.minted|, Access)
            && a.now == w.now + 500_000 && w.minted <= a.minted
            && a.store == Apply(cfg, w, RevokeAll(user, 0)).store
  {
    var n := |w.minted|;
    var a := HalfASecondLater(cfg, w, user);
    assert KeyTimely(w, n);
    assert a.minted[n].token == Token(n, user, Access, WholeSecond(w.now), WholeSecond(w.now + InstantOf(cfg.access)));
    assert RevocationStamp(a, user) == Some(w.now);
  }

  /** Logged out again half a second on, a token with two seconds to live has a key that ends
      half a second before it does. */
  lemma KeyIsShortened(cfg: Lifetimes, w: World, user: UserId, i: Jti)
    requires WorldSound(cfg, w) && KeysTimely(w) && 1 <= cfg.access
    requires FromBefore(w, i, user, w.now) && Exposed(w, i) && BlacklistKey(i) in w.store
    ensures var a := HalfASecondLater(cfg, w, user);
            var b := Apply(cfg, a, Logout(|w.minted|, Some(i), true, 0));
            && b.now == w.now + 500_000 && w.minted <= b.minted
            && BlacklistKey(i) in b.store
            && b.store[BlacklistKey(i)].deadline == InstantOf(w.minted[i].token.exp) - 500_000
            && RevokedAtKey(user) in b.store && b.store[RevokedAtKey(user)].value == Stamp(w.now)
  {
    assert MintSound(cfg, w, i);
    FreshLoginIsAccepted(cfg, w, user);
    var a := HalfASecondLater(cfg, w, user);
    var a1 := BlacklistToken(a, |w.minted|, 0);
    assert a1.now == a.now && a1.minted == a.minted && Genuine(a1, i);
    assert RemainingTtl(w.minted[i].token, a.now) == w.minted[i].token.exp - w.minted[i].token.iat - 1;
  }

  /** So an exposed token with a key survives as well, in its last half second. */
  lemma ExposedSurvivesItsKey(cfg: Lifetimes, w: World, user: UserId, i: Jti) returns (after: seq<Step>)
    requires WorldSound(cfg, w) && KeysTimely(w) && 1 <= cfg.access
    requires FromBefore(w, i, user, w.now) && Exposed(w, i) && BlacklistKey(i) in w.store
    ensures !SessionEnded(cfg, w, user, 0, after, i)
  {
    assert MintSound(cfg, w, i);
    var exp := InstantOf(w.minted[i].token.exp);
    var gap := exp - SECOND - w.now;
    after := [Authenticate(user, 0), Wait(500_000), Logout(|w.minted|, Some(i), true, 0), Wait(gap)];
    KeyIsShortened(cfg, w, user, i);
    var a := HalfASecondLater(cfg, w, user);
    var b := Apply(cfg, a, after[2]);
    var c := Apply(cfg, b, after[3]);
    RunOfFour(cfg, Apply(cfg, w, RevokeAll(user, 0)), after);
    RootInLongerLog(w.minted, c.minted, i);
    assert c.now == exp - 500_000;
    assert !Blacklisted(c, i);
    assert RevocationStamp(c, user) == Some(w.now) || RevocationStamp(c, user) == None;
  }

  lemma RunOfFour(cfg: Lifetimes, w: World, s: seq<Step>)
    requires |s| == 4
    ensures Run(cfg, w, s) == Apply(cfg, Apply(cfg, Apply(cfg, Apply(cfg, w, s[0]), s[1]), s[2]), s[3])
  {
    var a := Apply(cfg, w, s[0]);
    var b := Apply(cfg, a, s[1]);
    var c := Apply(cfg, b, s[2]);
    var d := Apply(cfg, c, s[3]);
    assert s[1..][1..] == s[2..] && s[2..][1..] == s[3..] && s[3..][1..] == [];
    assert Run(cfg, w, s) == Run(cfg, a, s[1..]);
    assert Run(cfg, a, s[1..]) == Run(cfg, b, s[2..]);
    assert Run(cfg, b, s[2..]) == Run(cfg, c, s[3..]);
    assert Run(cfg, c, s[3..]) == Run(cfg, d, []) == d;
  }

  // ---------------------------------------------------------------- theorems

  lemma UnsettledSurvives(cfg: Lifetimes, w: World, user: UserId) returns (after: seq<Step>, j: Jti)
    requires WorldSound(cfg, w) && KeysTimely(w) && 1 <= cfg.access && !Settled(w, user)
    ensures !SessionEnded(cfg, w, user, 0, after, j)
  {
    if q :| q in w.pending && FromBefore(w, q.parent, user, w.now) {
      after := PendingSurvives(cfg, w, user, q);
      j := |w.minted|;
    } else {
      j :| j < |w.minted| && FromBefore(w, j, user, w.now) && Exposed(w, j);
      if BlacklistKey(j) in w.store {
        after := ExposedSurvivesItsKey(cfg, w, user, j);
      } else {
        ExposedSurvives(cfg, w, user, j);
        after := [];
      }
    }
  }

  lemma ReachableIsTimely(cfg: Lifetimes, start: Time, before: seq<Step>)
    requires SECOND <= start
    ensures WorldSound(cfg, BeforeRevocation(cfg, start, before)) && KeysTimely(BeforeRevocation(cfg, start, before))
  {
    RunKeepsSound(cfg, Start(start), before);
    RunKeepsTimely(cfg, Start(start), before);
  }

  /** In every reachable world, a revoke-all ends all the user's older sessions, whatever
      follows, exactly when the world it finds is settled. */
  lemma RevokeAllEndsSessionsExactly(cfg: Lifetimes, start: Time, before: seq<Step>, user: UserId)
    requires SECOND <= start && 1 <= cfg.access <= WEEK_SECONDS && cfg.refresh <= WEEK_SECONDS
    ensures var w := BeforeRevocation(cfg, start, before);
            Settled(w, user)
            <==> forall lag: nat, after: seq<Step>, j: Jti :: SessionEnded(cfg, w, user, lag, after, j)
  {
    var w := BeforeRevocation(cfg, start, before);
    ReachableIsTimely(cfg, start, before);
    if Settled(w, user) {
      forall lag: nat, after: seq<Step>, j: Jti ensures SessionEnded(cfg, w, user, lag, after, j) {
        SettledEnds(cfg, w, user, lag, after, j);
      }
    } else {
      var after, j := UnsettledSurvives(cfg, w, user);
    }
  }

  ghost predicate EndsEverySession(cfg: Lifetimes, start: Time, before: seq<Step>, user: UserId, lag: nat,
                                   after: seq<Step>, j: Jti)
  {
    var w := BeforeRevocation(cfg, start, before);
    SECOND <= start && Settled(w, user) ==> SessionEnded(cfg, w, user, lag, after, j)
  }

  /** A revoke-all that finds a settled world ends every older session, for ever, in every run,
      exactly when no token outlives the week the stamp is kept for. */
  lemma RevokeAllWorksIffTokensAreShortLived(cfg: Lifetimes)
    ensures (cfg.access <= WEEK_SECONDS && cfg.refresh <= WEEK_SECONDS)
       <==> forall start: Time, before: seq<Step>, user: UserId, lag: nat, after: seq<Step>, j: Jti ::
              EndsEverySession(cfg, start, before, user, lag, after, j)
  {
    if cfg.access <= WEEK_SECONDS && cfg.refresh <= WEEK_SECONDS {
      forall start: Time, before: seq<Step>, user: UserId, lag: nat, after: seq<Step>, j: Jti
        ensures EndsEverySession(cfg, start, before, user, lag, after, j)
      {
        if SECOND <= start && Settled(BeforeRevocation(cfg, start, before), user) {
          ReachableIsTimely(cfg, start, before);
          SettledEnds(cfg, BeforeRevocation(cfg, start, before), user, lag, after, j);
        }
      }
    } else {
      LongLivedTokenSurvives(cfg);
    }
  }

  /** A token that lives longer than the stamp is accepted again once the stamp is gone. */
  lemma LongLivedTokenSurvives(cfg: Lifetimes)
    requires WEEK_SECONDS < cfg.access || WEEK_SECONDS < cfg.refresh
    ensures var j := if WEEK_SECONDS < cfg.access then 0 else 1;
            !EndsEverySession(cfg, SECOND, [Authenticate("u", 0), Wait(1)], "u", 0, [Wait(InstantOf(WEEK_SECONDS))], j)
  {
    var j := if WEEK_SECONDS < cfg.access then 0 else 1;
    var before := [Authenticate("u", 0), Wait(1)];
    var a := Apply(cfg, Start(SECOND), before[0]);
    var w1 := Apply(cfg, a, before[1]);
    assert before[1..] == [Wait(1)] && [Wait(1)][1..] == [];
    assert Run(cfg, a, [Wait(1)]) == Run(cfg, w1, []) == w1;
    assert BeforeRevocation(cfg, SECOND, before) == w1;
    var after := [Wait(InstantOf(WEEK_SECONDS))];
    var r := Apply(cfg, w1, RevokeAll("u", 0));
    var w2 := Apply(cfg, r, after[0]);
    assert Run(cfg, r, after) == Run(cfg, w2, after[1..]) == w2;
    assert w2.minted == w1.minted == a.minted && |a.minted| == 2;
    assert Accepts(w2, j);
  }
}
