/** What a request changes and what it leaves alone, in terms of claims and clock readings. */
module RequestEffects {
  import opened Clock
  import opened Wrappers
  import opened Tokens
  import opened SessionAfterLogout

  // ---------------------------------------------------------------- refused requests

  /** Nothing but the count of requests differs. */
  predicate Unchanged(w: World, w': World) {
    && w'.now == w.now && w'.store == w.store && w'.minted == w.minted && w'.pending == w.pending
    && w'.steps == w.steps + 1
  }

  lemma UnchangedAnswers(w: World, w': World, j: Jti, at: Time)
    requires Unchanged(w, w')
    ensures AcceptedAt(w', j, at) <==> AcceptedAt(w, j, at)
  {
  }

  /** A logout that is refused, for its token or for want of a user, changes nothing: any
      token, named or not, is accepted at any instant as without it. */
  lemma RefusedLogoutChangesNothing(cfg: Lifetimes, w: World, access: Jti, refresh: Option<Jti>, userExists: bool,
                                    lag: nat, j: Jti, at: Time)
    requires !AcceptsAs(w, access, Access) || !userExists
    ensures var w' := Apply(cfg, w, Logout(access, refresh, userExists, lag));
            Unchanged(w, w') && (AcceptedAt(w', j, at) <==> AcceptedAt(w, j, at))
  {
    UnchangedAnswers(w, Apply(cfg, w, Logout(access, refresh, userExists, lag)), j, at);
  }

  /** So does a refresh whose token is not accepted. */
  lemma RefusedRefreshChangesNothing(cfg: Lifetimes, w: World, jti: Jti, j: Jti, at: Time)
    requires !AcceptsAs(w, jti, Refresh)
    ensures var w' := Apply(cfg, w, BeginRefresh(jti));
            Unchanged(w, w') && (AcceptedAt(w', j, at) <==> AcceptedAt(w, j, at))
  {
    UnchangedAnswers(w, Apply(cfg, w, BeginRefresh(jti)), j, at);
  }

  // ---------------------------------------------------------------- another user's revocation

  /** A revoke-all leaves every token of every other user as it was. */
  lemma RevokeAllIsForItsUser(cfg: Lifetimes, w: World, user: UserId, lag: nat, j: Jti, at: Time)
    requires j < |w.minted| && w.minted[j].token.user != user
    ensures AcceptedAt(Apply(cfg, w, RevokeAll(user, lag)), j, at) <==> AcceptedAt(w, j, at)
  {
    var v, v' := w.(now := at), Apply(cfg, w, RevokeAll(user, lag)).(now := at);
    var token := w.minted[j].token;
    assert Blacklisted(v', token.jti) <==> Blacklisted(v, token.jti);
    assert RevocationStamp(v', token.user) == RevocationStamp(v, token.user);
  }

  // ---------------------------------------------------------------- minted pairs

  /** A token minted for a user by a request that read the clock at `read` for its expiry and at
      `issued` for its `iat`: both claims are the whole second, the expiry `life` seconds on. */
  predicate MintedFor(m: Mint, jti: Jti, user: UserId, kind: Kind, life: int, read: Time, issued: Time) {
    && m.token.jti == jti && m.token.user == user && m.token.kind == kind && m.issuedAt == issued
    && m.token.iat * 1_000_000 <= issued < (m.token.iat + 1) * 1_000_000
    && m.token.exp * 1_000_000 <= read + life * 1_000_000 < (m.token.exp + 1) * 1_000_000
  }

  /** The pair a request mints for a user: an access token, then a refresh token. */
  predicate PairMinted(cfg: Lifetimes, w: World, w': World, user: UserId, origin: Origin, lag: nat) {
    var n := |w.minted|;
    && |w'.minted| == n + 2 && w'.minted[..n] == w.minted && w'.store == w.store && w'.now == w.now + 2 * lag
    && MintedFor(w'.minted[n], n, user, Access, cfg.access, w.now, w.now + lag)
    && MintedFor(w'.minted[n + 1], n + 1, user, Refresh, cfg.refresh, w.now + lag, w.now + 2 * lag)
    && w'.minted[n].origin == w'.minted[n + 1].origin == origin
  }

  lemma MintPairMints(cfg: Lifetimes, w: World, user: UserId, began: nat, origin: Origin, lag: nat)
    ensures PairMinted(cfg, w, MintPair(cfg, w, user, began, origin, lag), user, origin, lag)
    ensures MintPair(cfg, w, user, began, origin, lag).pending == w.pending
  {
    var a := MintToken(cfg, w, user, Access, began, origin, lag);
    assert MintedFor(a.minted[|w.minted|], |w.minted|, user, Access, cfg.access, w.now, w.now + lag);
  }

  /** A login mints a pair for its user and nothing else. */
  lemma LoginMintsAPair(cfg: Lifetimes, w: World, user: UserId, lag: nat)
    ensures var w' := Apply(cfg, w, Authenticate(user, lag));
            PairMinted(cfg, w, w', user, Authentication, lag) && w'.pending == w.pending
  {
    MintPairMints(cfg, w, user, w.steps, Authentication, lag);
  }

  /** The second half of a refresh mints one for the user of the token it verified, if that user
      is active; and is done with either way. */
  lemma RefreshMintsAPair(cfg: Lifetimes, w: World, q: Pending, active: bool, lag: nat)
    requires WorldSound(cfg, w) && q in w.pending
    ensures var w' := Apply(cfg, w, FinishRefresh(q, active, lag));
            && w'.pending == w.pending - {q}
            && if active then PairMinted(cfg, w, w', w.minted[q.parent].token.user, RefreshOf(q.parent), lag)
               else w'.minted == w.minted && w'.store == w.store && w'.now == w.now
  {
    if active {
      var v := w.(pending := w.pending - {q});
      MintPairMints(cfg, v, w.minted[q.parent].token.user, q.began, RefreshOf(q.parent), lag);
    }
  }
}
