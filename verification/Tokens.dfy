/** The life of JWTs: minting, verification, refresh, logout and revoke-all, over a
    store whose keys vanish when their time to live runs out.

    A `World` is everything a verification can depend on. Each request is one `Step`,
    except a refresh, which is two: it verifies the presented token, and later mints
    the new pair, so that other requests may fall in between. */
module Tokens {
  import opened Clock
  import opened Wrappers

  type UserId = string
  type Jti = nat

  datatype Kind = Access | Refresh

  datatype Token = Token(jti: Jti, user: UserId, kind: Kind, iat: int, exp: int)

  // ---------------------------------------------------------------- the expiring store

  datatype Key = BlacklistKey(jti: Jti) | RevokedAtKey(user: UserId)

  datatype Value = RevokedMark | Stamp(at: Time)

  datatype Entry = Entry(value: Value, deadline: Time)

  type Store = map<Key, Entry>

  function Lookup(store: Store, key: Key, now: Time): Option<Value> {
    if key in store && now < store[key].deadline then Some(store[key].value) else None
  }

  function SetEx(store: Store, key: Key, ttlSeconds: int, value: Value, now: Time): Store {
    store[key := Entry(value, now + InstantOf(ttlSeconds))]
  }

  // ---------------------------------------------------------------- worlds

  /** Token lifetimes, in seconds, as the deployment configures them. */
  datatype Lifetimes = Lifetimes(access: int, refresh: int) {
    function Of(kind: Kind): int {
      match kind
      case Access => access
      case Refresh => refresh
    }
  }

  datatype Origin = Authentication | RefreshOf(parent: Jti)

  /** A minted token, the clock reading behind its `iat`, and the step at which the
      request that minted it began. */
  datatype Mint = Mint(token: Token, issuedAt: Time, began: nat, origin: Origin)

  /** A refresh request that has verified its token and has not minted yet. */
  datatype Pending = Pending(parent: Jti, began: nat)

  datatype World = World(
    now: Time,
    store: Store,
    minted: seq<Mint>,
    pending: set<Pending>,
    steps: nat)

  function Start(now: Time): World {
    World(now, map[], [], {}, 0)
  }

  // ---------------------------------------------------------------- operations

  function MintToken(cfg: Lifetimes, w: World, user: UserId, kind: Kind, began: nat, origin: Origin, lag: nat): World {
    var expires := w.now + InstantOf(cfg.Of(kind));
    var issued := w.now + lag;
    var token := Token(|w.minted|, user, kind, WholeSecond(issued), WholeSecond(expires));
    w.(now := issued, minted := w.minted + [Mint(token, issued, began, origin)])
  }

  function MintPair(cfg: Lifetimes, w: World, user: UserId, began: nat, origin: Origin, lag: nat): World {
    MintToken(cfg, MintToken(cfg, w, user, Access, began, origin, lag), user, Refresh, began, origin, lag)
  }

  predicate Blacklisted(w: World, jti: Jti) {
    Lookup(w.store, BlacklistKey(jti), w.now).Some?
  }

  function RevocationStamp(w: World, user: UserId): Option<Time> {
    match Lookup(w.store, RevokedAtKey(user), w.now)
    case Some(Stamp(at)) => Some(at)
    case _ => None
  }

  /** Whether decoding the token yields its payload. A stamp or an `iat` of zero is
      false in Python and switches the revocation check off. */
  predicate Decodes(w: World, token: Token) {
    && w.now < InstantOf(token.exp)
    && !Blacklisted(w, token.jti)
    && (var stamp := RevocationStamp(w, token.user);
        token.iat != 0 && stamp.Some? && stamp.value != 0 ==> stamp.value <= InstantOf(token.iat))
  }

  predicate Genuine(w: World, jti: Jti) {
    jti < |w.minted|
  }

  predicate Accepts(w: World, jti: Jti) {
    Genuine(w, jti) && Decodes(w, w.minted[jti].token)
  }

  predicate AcceptsAs(w: World, jti: Jti, kind: Kind) {
    Accepts(w, jti) && w.minted[jti].token.kind == kind
  }

  /** `add_to_blacklist`: a non-positive lifetime stores nothing. The key's life
      starts `lag` after the caller computed it. */
  function AddToBlacklist(w: World, jti: Jti, expiresIn: int, lag: nat): World {
    var w' := w.(now := w.now + lag);
    if expiresIn <= 0 then w' else
      w'.(store := SetEx(w'.store, BlacklistKey(jti), expiresIn, RevokedMark, w'.now))
  }

  function RemainingTtl(token: Token, now: Time): int {
    var remaining := TruncateToSeconds(InstantOf(token.exp) - now);
    if remaining < 0 then 0 else remaining
  }

  function BlacklistToken(w: World, jti: Jti, lag: nat): World
    requires Genuine(w, jti)
  {
    AddToBlacklist(w, jti, RemainingTtl(w.minted[jti].token, w.now), lag)
  }

  /** `revoke_all_user_tokens`: the stamp is read first, the key's life starts later. */
  function RevokeAllTokens(w: World, user: UserId, lag: nat): World {
    var w' := w.(now := w.now + lag);
    w'.(store := SetEx(w'.store, RevokedAtKey(user), WEEK_SECONDS, Stamp(w.now), w'.now))
  }

  function LogoutTokens(w: World, access: Jti, refresh: Option<Jti>, userExists: bool, lag: nat): World {
    if !AcceptsAs(w, access, Access) || !userExists then w else
      var w' := BlacklistToken(w, access, lag);
      if refresh.Some? && Genuine(w', refresh.value) then BlacklistToken(w', refresh.value, lag) else w'
  }

  // ---------------------------------------------------------------- runs

  datatype Step =
    | Wait(gap: nat)
    | Authenticate(user: UserId, lag: nat)
    | BeginRefresh(jti: Jti)
    | FinishRefresh(request: Pending, userActive: bool, lag: nat)
    | Logout(access: Jti, refresh: Option<Jti>, userExists: bool, lag: nat)
    | RevokeAll(user: UserId, lag: nat)

  function Effect(cfg: Lifetimes, w: World, step: Step): World {
    match step
    case Wait(gap) => w.(now := w.now + gap)
    case Authenticate(user, lag) => MintPair(cfg, w, user, w.steps, Authentication, lag)
    case BeginRefresh(jti) =>
      if AcceptsAs(w, jti, Refresh) then w.(pending := w.pending + {Pending(jti, w.steps)}) else w
    case FinishRefresh(request, userActive, lag) =>
      if request !in w.pending || !Genuine(w, request.parent) then w else
        var w' := w.(pending := w.pending - {request});
        if !userActive then w' else
          MintPair(cfg, w', w.minted[request.parent].token.user, request.began, RefreshOf(request.parent), lag)
    case Logout(access, refresh, userExists, lag) => LogoutTokens(w, access, refresh, userExists, lag)
    case RevokeAll(user, lag) => RevokeAllTokens(w, user, lag)
  }

  function Apply(cfg: Lifetimes, w: World, step: Step): World {
    Effect(cfg, w, step).(steps := w.steps + 1)
  }

  function Run(cfg: Lifetimes, w: World, steps: seq<Step>): World
    decreases |steps|
  {
    if steps == [] then w else Run(cfg, Apply(cfg, w, steps[0]), steps[1..])
  }

  // ---------------------------------------------------------------- writing and reading the store

  /** A token put on the blacklist is found there for exactly its remaining seconds; one with
      none left is not put there, and stays as it was. */
  lemma BlacklistedForItsTtl(w: World, jti: Jti, expiresIn: int, lag: nat, gap: nat)
    ensures var w' := AddToBlacklist(w, jti, expiresIn, lag);
            Blacklisted(w'.(now := w'.now + gap), jti)
            <==> if 0 < expiresIn then gap < InstantOf(expiresIn)
                 else BlacklistKey(jti) in w.store && w.now + lag + gap < w.store[BlacklistKey(jti)].deadline
  {
  }

  /** A revocation is read back as the instant it was made at, for exactly a week, and only
      for its user. */
  lemma RevocationReadBack(w: World, user: UserId, lag: nat, gap: nat, reader: UserId)
    ensures var w' := RevokeAllTokens(w, user, lag).(now := w.now + lag + gap);
            RevocationStamp(w', reader) ==
              if reader == user then if gap < InstantOf(WEEK_SECONDS) then Some(w.now) else None
              else RevocationStamp(w.(now := w.now + lag + gap), reader)
  {
  }

  // ---------------------------------------------------------------- the invariant of every run

  predicate MintSound(cfg: Lifetimes, w: World, j: Jti)
    requires j < |w.minted|
  {
    var m := w.minted[j];
    && m.token.jti == j
    && SECOND <= m.issuedAt <= w.now
    && m.token.iat == WholeSecond(m.issuedAt)
    && InstantOf(m.token.exp) <= m.issuedAt + InstantOf(cfg.Of(m.token.kind))
    && m.began < w.steps
    && (m.origin.RefreshOf? ==> ParentSound(w, m.origin.parent, j, m.token.user, m.began))
  }

  /** The parent of a refreshed token is an older refresh token of the same user, minted
      by a request that began earlier. */
  predicate ParentSound(w: World, parent: Jti, limit: nat, user: UserId, began: nat) {
    && parent < limit <= |w.minted|
    && w.minted[parent].token.user == user
    && w.minted[parent].token.kind == Refresh
    && w.minted[parent].began < began
  }

  ghost predicate WorldSound(cfg: Lifetimes, w: World) {
    && SECOND <= w.now
    && (forall j | 0 <= j < |w.minted| :: MintSound(cfg, w, j))
    && (forall p | p in w.pending ::
          p.began < w.steps && p.parent < |w.minted|
          && ParentSound(w, p.parent, |w.minted|, w.minted[p.parent].token.user, p.began))
  }

  lemma MintTokenKeepsSound(cfg: Lifetimes, w: World, user: UserId, kind: Kind, began: nat, origin: Origin, lag: nat)
    requires WorldSound(cfg, w)
    requires began < w.steps
    requires origin.RefreshOf? ==> ParentSound(w, origin.parent, |w.minted|, user, began)
    ensures WorldSound(cfg, MintToken(cfg, w, user, kind, began, origin, lag))
    ensures origin.RefreshOf? ==>
              ParentSound(MintToken(cfg, w, user, kind, began, origin, lag), origin.parent, |w.minted| + 1, user, began)
  {
    var w' := MintToken(cfg, w, user, kind, began, origin, lag);
    forall j | 0 <= j < |w'.minted| ensures MintSound(cfg, w', j) {
      if j < |w.minted| { assert MintSound(cfg, w, j); }
    }
  }

  /** A step that mints nothing and opens no request keeps every record sound. */
  lemma QuietStepKeepsSound(cfg: Lifetimes, w: World, w': World)
    requires WorldSound(cfg, w)
    requires w'.minted == w.minted && w.now <= w'.now && w.steps <= w'.steps && w'.pending <= w.pending
    ensures WorldSound(cfg, w')
  {
    forall j | 0 <= j < |w'.minted| ensures MintSound(cfg, w', j) { assert MintSound(cfg, w, j); }
  }

  lemma MintPairKeepsSound(cfg: Lifetimes, w: World, user: UserId, began: nat, origin: Origin, lag: nat)
    requires WorldSound(cfg, w)
    requires began < w.steps
    requires origin.RefreshOf? ==> ParentSound(w, origin.parent, |w.minted|, user, began)
    ensures WorldSound(cfg, MintPair(cfg, w, user, began, origin, lag))
    ensures w.minted <= MintPair(cfg, w, user, began, origin, lag).minted
    ensures w.now <= MintPair(cfg, w, user, began, origin, lag).now
  {
    MintTokenKeepsSound(cfg, w, user, Access, began, origin, lag);
    var w' := MintToken(cfg, w, user, Access, began, origin, lag);
    MintTokenKeepsSound(cfg, w', user, Refresh, began, origin, lag);
  }

  lemma BeginRefreshKeepsSound(cfg: Lifetimes, w: World, jti: Jti)
    requires WorldSound(cfg, w) && AcceptsAs(w, jti, Refresh)
    ensures WorldSound(cfg, Apply(cfg, w, BeginRefresh(jti)))
  {
    var v := w.(steps := w.steps + 1);
    QuietStepKeepsSound(cfg, w, v);
    assert MintSound(cfg, w, jti);
    var w' := Apply(cfg, w, BeginRefresh(jti));
    forall j | 0 <= j < |w'.minted| ensures MintSound(cfg, w', j) { assert MintSound(cfg, v, j); }
  }

  /** Nothing is forgotten and the clock does not go back. */
  predicate Follows(w: World, w': World) {
    w.now <= w'.now && w.minted <= w'.minted
  }

  lemma AuthenticateKeepsSound(cfg: Lifetimes, w: World, user: UserId, lag: nat)
    requires WorldSound(cfg, w)
    ensures var w' := Apply(cfg, w, Authenticate(user, lag)); WorldSound(cfg, w') && Follows(w, w')
  {
    var v := w.(steps := w.steps + 1);
    QuietStepKeepsSound(cfg, w, v);
    MintPairKeepsSound(cfg, v, user, w.steps, Authentication, lag);
  }

  lemma FinishRefreshKeepsSound(cfg: Lifetimes, w: World, r: Pending, lag: nat)
    requires WorldSound(cfg, w) && r in w.pending
    ensures var w' := Apply(cfg, w, FinishRefresh(r, true, lag)); WorldSound(cfg, w') && Follows(w, w')
  {
    var v := w.(steps := w.steps + 1, pending := w.pending - {r});
    QuietStepKeepsSound(cfg, w, v);
    MintPairKeepsSound(cfg, v, w.minted[r.parent].token.user, r.began, RefreshOf(r.parent), lag);
  }

  /** The steps that mint nothing and open no request. */
  predicate Quiet(w: World, step: Step) {
    match step
    case Authenticate(_, _) => false
    case FinishRefresh(r, active, _) => r !in w.pending || !Genuine(w, r.parent) || !active
    case BeginRefresh(jti) => !AcceptsAs(w, jti, Refresh)
    case _ => true
  }

  lemma QuietStepIsQuiet(cfg: Lifetimes, w: World, step: Step)
    requires Quiet(w, step)
    ensures var w' := Apply(cfg, w, step);
            w'.minted == w.minted && w.now <= w'.now && w.steps <= w'.steps && w'.pending <= w.pending
  {
  }

  lemma ApplyKeepsSound(cfg: Lifetimes, w: World, step: Step)
    requires WorldSound(cfg, w)
    ensures WorldSound(cfg, Apply(cfg, w, step))
    ensures w.now <= Apply(cfg, w, step).now
    ensures w.minted <= Apply(cfg, w, step).minted
  {
    if Quiet(w, step) {
      QuietStepIsQuiet(cfg, w, step);
      QuietStepKeepsSound(cfg, w, Apply(cfg, w, step));
    } else {
      match step
      case Authenticate(user, lag) => AuthenticateKeepsSound(cfg, w, user, lag);
      case FinishRefresh(r, _, lag) => FinishRefreshKeepsSound(cfg, w, r, lag);
      case BeginRefresh(jti) => BeginRefreshKeepsSound(cfg, w, jti);
    }
  }

  lemma {:induction false} RunKeepsSound(cfg: Lifetimes, w: World, steps: seq<Step>)
    requires WorldSound(cfg, w)
    ensures WorldSound(cfg, Run(cfg, w, steps))
    ensures w.minted <= Run(cfg, w, steps).minted
    ensures w.now <= Run(cfg, w, steps).now
    decreases |steps|
  {
    if steps != [] {
      ApplyKeepsSound(cfg, w, steps[0]);
      RunKeepsSound(cfg, Apply(cfg, w, steps[0]), steps[1..]);
    }
  }
}
