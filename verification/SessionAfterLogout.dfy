/** What a logout leaves of a session: it blacklists the two tokens it is given, and every other
    token of the session goes on as before. */
module SessionAfterLogout {
  import opened Clock
  import opened Wrappers
  import opened Tokens
  import opened Revocation
  import opened SessionEnds

  /** The token is one of those the logout is given. */
  predicate Named(access: Jti, refresh: Option<Jti>, j: Jti) {
    j == access || refresh == Some(j)
  }

  /** Whether the token would be accepted at an instant, were nothing else to happen. */
  predicate AcceptedAt(w: World, j: Jti, at: Time) {
    Accepts(w.(now := at), j)
  }

  lemma BlacklistingKeepsOthers(w: World, k: Jti, lag: nat, j: Jti, at: Time)
    requires Genuine(w, k) && j != k && (Genuine(w, j) ==> w.minted[j].token.jti == j)
    ensures AcceptedAt(BlacklistToken(w, k, lag), j, at) <==> AcceptedAt(w, j, at)
  {
    if Genuine(w, j) { SameAnswer(w, BlacklistToken(w, k, lag), k, j, at); }
  }

  lemma SameAnswer(w: World, w': World, k: Jti, j: Jti, at: Time)
    requires Genuine(w, j) && w'.minted == w.minted && w.minted[j].token.jti != k
    requires forall key | key != BlacklistKey(k) :: key in w'.store <==> key in w.store
    requires forall key | key != BlacklistKey(k) && key in w.store :: w'.store[key] == w.store[key]
    ensures AcceptedAt(w', j, at) <==> AcceptedAt(w, j, at)
  {
  }

  lemma BlacklistingTwoKeepsOthers(w: World, k: Jti, l: Jti, lag: nat, j: Jti, at: Time)
    requires Genuine(w, k) && Genuine(w, l) && j != k && j != l && (Genuine(w, j) ==> w.minted[j].token.jti == j)
    ensures AcceptedAt(BlacklistToken(BlacklistToken(w, k, lag), l, lag), j, at) <==> AcceptedAt(w, j, at)
  {
    BlacklistingKeepsOthers(w, k, lag, j, at);
    BlacklistingKeepsOthers(BlacklistToken(w, k, lag), l, lag, j, at);
  }

  lemma StepsDoNotShow(w: World, j: Jti, at: Time)
    ensures AcceptedAt(w.(steps := w.steps + 1), j, at) <==> AcceptedAt(w, j, at)
  {
  }

  /** A token the logout does not name is accepted afterwards, at any instant at which nothing
      else has happened, exactly if it would have been without the logout. */
  lemma LogoutTouchesOnlyTheNamed(cfg: Lifetimes, w: World, access: Jti, refresh: Option<Jti>, userExists: bool,
                                  lag: nat, j: Jti, at: Time)
    requires WorldSound(cfg, w) && !Named(access, refresh, j)
    ensures AcceptedAt(Apply(cfg, w, Logout(access, refresh, userExists, lag)), j, at) <==> AcceptedAt(w, j, at)
  {
    if Genuine(w, j) { assert MintSound(cfg, w, j); }
    LogoutKeepsOthers(w, access, refresh, userExists, lag, j, at);
    StepsDoNotShow(LogoutTokens(w, access, refresh, userExists, lag), j, at);
  }

  lemma LogoutKeepsOthers(w: World, access: Jti, refresh: Option<Jti>, userExists: bool, lag: nat, j: Jti, at: Time)
    requires !Named(access, refresh, j) && (Genuine(w, j) ==> w.minted[j].token.jti == j)
    ensures AcceptedAt(LogoutTokens(w, access, refresh, userExists, lag), j, at) <==> AcceptedAt(w, j, at)
  {
    var w' := LogoutTokens(w, access, refresh, userExists, lag);
    if AcceptsAs(w, access, Access) && userExists {
      if refresh.Some? && Genuine(w, refresh.value) {
        BlacklistingTwoKeepsOthers(w, access, refresh.value, lag, j, at);
        assert w' == BlacklistToken(BlacklistToken(w, access, lag), refresh.value, lag);
      } else {
        BlacklistingKeepsOthers(w, access, lag, j, at);
        assert w' == BlacklistToken(w, access, lag);
      }
    } else {
      assert w' == w;
    }
  }

  // ---------------------------------------------------------------- a refresh after the logout

  /** A whole refresh: the token is verified and the new pair minted at once. */
  function Refreshed(cfg: Lifetimes, w: World, q: Jti): World {
    Apply(cfg, Apply(cfg, w, BeginRefresh(q)), FinishRefresh(Pending(q, w.steps), true, 0))
  }

  /** A refresh mints exactly if its token is accepted, and its new access token is accepted
      and of the same session. */
  lemma RefreshMintsExactly(cfg: Lifetimes, w: World, q: Jti)
    requires WorldSound(cfg, w) && KeysTimely(w) && 1 <= cfg.access
    ensures var b := Refreshed(cfg, w, q);
            && (|w.minted| < |b.minted| <==> AcceptsAs(w, q, Refresh))
            && (AcceptsAs(w, q, Refresh) ==>
                  Accepts(b, |w.minted|) && Root(b.minted, |w.minted|) == Root(w.minted, q))
  {
    var r := Pending(q, w.steps);
    assert r !in w.pending;
    if AcceptsAs(w, q, Refresh) {
      var a := Apply(cfg, w, BeginRefresh(q));
      var b := Refreshed(cfg, w, q);
      assert r in a.pending && a.minted == w.minted;
      MintedIsAccepted(cfg, w, b, q);
    }
  }

  lemma MintedIsAccepted(cfg: Lifetimes, w: World, b: World, q: Jti)
    requires WorldSound(cfg, w) && KeysTimely(w) && 1 <= cfg.access && AcceptsAs(w, q, Refresh)
    requires b == Refreshed(cfg, w, q)
    ensures w.minted <= b.minted && |b.minted| == |w.minted| + 2
    ensures Accepts(b, |w.minted|) && Root(b.minted, |w.minted|) == Root(w.minted, q)
  {
    var n := |w.minted|;
    var user := w.minted[q].token.user;
    assert MintSound(cfg, w, q) && KeyTimely(w, n);
    assert b.now == w.now && b.store == w.store;
    assert b.minted[n].origin == RefreshOf(q);
    assert b.minted[n].token == Token(n, user, Access, WholeSecond(w.now), WholeSecond(w.now + InstantOf(cfg.access)));
    RootInLongerLog(w.minted, b.minted, q);
  }

  /** After a logout a refresh with a token of the session that the logout did not name works
      exactly if that token would be accepted had there been no logout; and then the session
      lives on. */
  lemma RefreshOutlivesLogout(cfg: Lifetimes, w: World, access: Jti, refresh: Option<Jti>, lag: nat, q: Jti)
    requires WorldSound(cfg, w) && KeysTimely(w) && 1 <= cfg.access && !Named(access, refresh, q)
    ensures var w1 := Apply(cfg, w, Logout(access, refresh, true, lag));
            var b := Refreshed(cfg, w1, q);
            var works := AcceptedAt(w, q, w1.now) && w.minted[q].token.kind == Refresh;
            && w1.minted == w.minted && (|w.minted| < |b.minted| <==> works)
            && (works ==> Accepts(b, |w.minted|) && Root(b.minted, |w.minted|) == Root(w.minted, q))
  {
    var step := Logout(access, refresh, true, lag);
    var w1 := Apply(cfg, w, step);
    LogoutTouchesOnlyTheNamed(cfg, w, access, refresh, true, lag, q, w1.now);
    ApplyKeepsSound(cfg, w, step);
    ApplyKeepsTimely(cfg, w, step);
    RefreshMintsExactly(cfg, w1, q);
  }

  // ---------------------------------------------------------------- an example

  /** The world after a login and a refresh with its token, all within its first second. */
  function OnceRefreshed(cfg: Lifetimes): World {
    Refreshed(cfg, Apply(cfg, Start(SECOND), Authenticate("u", 0)), 1)
  }

  lemma OnceRefreshedIs(cfg: Lifetimes)
    requires 2 <= cfg.access && 2 <= cfg.refresh
    ensures var w := OnceRefreshed(cfg);
            && w.now == SECOND && w.store == map[] && |w.minted| == 4
            && w.minted[1] == Mint(Token(1, "u", Refresh, 1, 1 + cfg.refresh), SECOND, 0, Authentication)
            && w.minted[2].token == Token(2, "u", Access, 1, 1 + cfg.access) && w.minted[2].origin == RefreshOf(1)
            && w.minted[3].token == Token(3, "u", Refresh, 1, 1 + cfg.refresh)
  {
    var a := Apply(cfg, Start(SECOND), Authenticate("u", 0));
    assert |a.minted| == 2 && a.store == map[] && a.now == SECOND;
    assert a.minted[1].token == Token(1, "u", Refresh, 1, 1 + cfg.refresh);
    assert AcceptsAs(a, 1, Refresh);
    var b := Apply(cfg, a, BeginRefresh(1));
    assert b.pending == {Pending(1, a.steps)};
  }

  lemma ReachableOnceRefreshed(cfg: Lifetimes)
    ensures WorldSound(cfg, OnceRefreshed(cfg)) && KeysTimely(OnceRefreshed(cfg))
  {
    var a := Apply(cfg, Start(SECOND), Authenticate("u", 0));
    ApplyKeepsSound(cfg, Start(SECOND), Authenticate("u", 0));
    ApplyKeepsTimely(cfg, Start(SECOND), Authenticate("u", 0));
    var b := Apply(cfg, a, BeginRefresh(1));
    ApplyKeepsSound(cfg, a, BeginRefresh(1));
    ApplyKeepsTimely(cfg, a, BeginRefresh(1));
    ApplyKeepsSound(cfg, b, FinishRefresh(Pending(1, a.steps), true, 0));
    ApplyKeepsTimely(cfg, b, FinishRefresh(Pending(1, a.steps), true, 0));
  }

  /** A session that was refreshed once and is logged out with its new pair goes on with the
      refresh token it had before. */
  lemma OlderRefreshTokenGoesOn(cfg: Lifetimes)
    requires 2 <= cfg.access && 2 <= cfg.refresh
    ensures var w := OnceRefreshed(cfg);
            var w1 := Apply(cfg, w, Logout(2, Some(3), true, 0));
            var b := Refreshed(cfg, w1, 1);
            && AcceptsAs(w, 2, Access) && Blacklisted(w1, 2) && Blacklisted(w1, 3)
            && Accepts(b, 4) && Root(b.minted, 4) == Root(w.minted, 2)
  {
    var w := OnceRefreshed(cfg);
    OnceRefreshedIs(cfg);
    ReachableOnceRefreshed(cfg);
    PairIsBlacklisted(w, cfg.access, cfg.refresh);
    RefreshOutlivesLogout(cfg, w, 2, Some(3), 0, 1);
    assert AcceptedAt(w, 1, SECOND);
    assert Root(w.minted, 2) == Root(w.minted, 1);
  }

  lemma PairIsBlacklisted(w: World, access: int, refresh: int)
    requires 2 <= access && 2 <= refresh && w.now == SECOND && w.store == map[] && |w.minted| == 4
    requires w.minted[2].token == Token(2, "u", Access, 1, 1 + access)
    requires w.minted[3].token == Token(3, "u", Refresh, 1, 1 + refresh)
    ensures AcceptsAs(w, 2, Access)
    ensures var w1 := LogoutTokens(w, 2, Some(3), true, 0);
            w1.now == SECOND && Blacklisted(w1, 2) && Blacklisted(w1, 3)
  {
    assert RemainingTtl(w.minted[2].token, SECOND) == access;
    var w' := BlacklistToken(w, 2, 0);
    assert w'.store == map[BlacklistKey(2) := Entry(RevokedMark, SECOND + InstantOf(access))];
    assert RemainingTtl(w'.minted[3].token, SECOND) == refresh;
  }
}
