/** The token service itself: the Redis-backed blacklist, minting and decoding, and the
    login, refresh and logout requests, each proved to do what its step does to the world. */
module AuthService {
  import opened Clock
  import opened Wrappers
  import opened Tokens

  datatype LogoutOutcome =
    | Unauthorized
    | UserNotFound
    | AllSessionsRevoked
    | LoggedOut(revoked: nat)

  class TokenService {
    const cfg: Lifetimes
    var clock: Time
    var redis: Store
    var minted: seq<Mint>
    var pending: set<Pending>
    var steps: nat

    ghost function World(): World
      reads this
    {
      Tokens.World(clock, redis, minted, pending, steps)
    }

    ghost predicate Valid()
      reads this
    {
      WorldSound(cfg, World())
    }

    constructor (cfg: Lifetimes, start: Time)
      requires SECOND <= start
      ensures Valid() && World() == Start(start) && this.cfg == cfg
    {
      this.cfg := cfg;
      clock, redis, minted, pending, steps := start, map[], [], {}, 0;
    }

    // ------------------------------------------------------------ the blacklist

    method AddToBlacklist(jti: Jti, expiresIn: int, lag: nat) returns (ok: bool)
      modifies this
      ensures ok && World() == Tokens.AddToBlacklist(old(World()), jti, expiresIn, lag)
    {
      clock := clock + lag;
      if expiresIn <= 0 {
        return true;
      }
      redis := SetEx(redis, BlacklistKey(jti), expiresIn, RevokedMark, clock);
      return true;
    }

    method IsBlacklisted(jti: Jti) returns (listed: bool)
      ensures listed <==> BlacklistKey(jti) in redis && clock < redis[BlacklistKey(jti)].deadline
    {
      listed := Lookup(redis, BlacklistKey(jti), clock).Some?;
    }

    method RevokeAllUserTokens(user: UserId, lag: nat) returns (ok: bool)
      modifies this
      ensures ok && World() == RevokeAllTokens(old(World()), user, lag)
    {
      var stamp := Stamp(clock);
      clock := clock + lag;
      redis := SetEx(redis, RevokedAtKey(user), WEEK_SECONDS, stamp, clock);
      ok := true;
    }

    method GetRevocationTimestamp(user: UserId) returns (stamp: Option<Time>)
      ensures stamp.Some? <==>
                && RevokedAtKey(user) in redis && clock < redis[RevokedAtKey(user)].deadline
                && redis[RevokedAtKey(user)].value.Stamp?
      ensures stamp.Some? ==> redis[RevokedAtKey(user)].value == Stamp(stamp.value)
    {
      var value := Lookup(redis, RevokedAtKey(user), clock);
      if value.Some? && value.value.Stamp? {
        stamp := Some(value.value.at);
      } else {
        stamp := None;
      }
    }

    // ------------------------------------------------------------ minting and decoding

    method CreateToken(user: UserId, kind: Kind, began: nat, origin: Origin, lag: nat) returns (jti: Jti)
      modifies this
      ensures World() == MintToken(cfg, old(World()), user, kind, began, origin, lag)
      ensures jti == |old(minted)|
    {
      var expires := clock + InstantOf(cfg.Of(kind));
      clock := clock + lag;
      jti := |minted|;
      var token := Token(jti, user, kind, WholeSecond(clock), WholeSecond(expires));
      minted := minted + [Mint(token, clock, began, origin)];
    }

    method DecodeToken(jti: Jti) returns (payload: Option<Token>)
      requires Valid()
      ensures payload == if Accepts(World(), jti) then Some(minted[jti].token) else None
    {
      if |minted| <= jti {
        return None; // not a token this service signed
      }
      var token := minted[jti].token;
      assert MintSound(cfg, World(), jti);
      if InstantOf(token.exp) <= clock {
        return None;
      }
      var listed := IsBlacklisted(token.jti);
      if listed {
        return None;
      }
      var stamp := GetRevocationTimestamp(token.user);
      if token.iat != 0 {
        if stamp.Some? && stamp.value != 0 && InstantOf(token.iat) < stamp.value {
          return None;
        }
      }
      return Some(token);
    }

    /** `verify_access_token` and `verify_refresh_token`. */
    method VerifyToken(jti: Jti, kind: Kind) returns (payload: Option<Token>)
      requires Valid()
      ensures payload == if AcceptsAs(World(), jti, kind) then Some(minted[jti].token) else None
    {
      payload := DecodeToken(jti);
      if payload.Some? && payload.value.kind != kind {
        payload := None;
      }
    }

    // ------------------------------------------------------------ requests

    method CreatePair(user: UserId, began: nat, origin: Origin, lag: nat) returns (access: Jti, refresh: Jti)
      modifies this
      ensures World() == MintPair(cfg, old(World()), user, began, origin, lag)
      ensures access == |old(minted)| && refresh == access + 1
    {
      access := CreateToken(user, Access, began, origin, lag);
      refresh := CreateToken(user, Refresh, began, origin, lag);
    }

    /** Any request that establishes who the user is: login, second factor, email
        verification, OAuth. */
    method Login(user: UserId, lag: nat) returns (access: Jti, refresh: Jti)
      requires Valid()
      modifies this
      ensures Valid() && World() == Apply(cfg, old(World()), Authenticate(user, lag))
    {
      ApplyKeepsSound(cfg, World(), Authenticate(user, lag));
      access, refresh := CreatePair(user, steps, Authentication, lag);
      steps := steps + 1;
    }

    /** The first half of a refresh request: verify the token it presents. */
    method VerifyForRefresh(jti: Jti) returns (request: Option<Pending>)
      requires Valid()
      modifies this
      ensures Valid() && World() == Apply(cfg, old(World()), BeginRefresh(jti))
      ensures request.Some? <==> old(AcceptsAs(World(), jti, Refresh))
    {
      ApplyKeepsSound(cfg, World(), BeginRefresh(jti));
      var payload := VerifyToken(jti, Refresh);
      if payload.None? {
        request := None;
      } else {
        request := Some(Pending(jti, steps));
        pending := pending + {request.value};
      }
      steps := steps + 1;
    }

    /** The second half: look the user up and mint the new pair. */
    method MintRefreshed(request: Pending, userActive: bool, lag: nat) returns (pair: Option<(Jti, Jti)>)
      requires Valid() && request in pending
      modifies this
      ensures Valid() && World() == Apply(cfg, old(World()), FinishRefresh(request, userActive, lag))
      ensures pair.Some? <==> userActive
    {
      ApplyKeepsSound(cfg, World(), FinishRefresh(request, userActive, lag));
      pending := pending - {request};
      if !userActive {
        pair := None;
      } else {
        var user := minted[request.parent].token.user;
        var access, refresh := CreatePair(user, request.began, RefreshOf(request.parent), lag);
        pair := Some((access, refresh));
      }
      steps := steps + 1;
    }

    /** The tokens a logout presents: the access token, and the refresh token if it is genuine. */
    method BlacklistPresented(access: Jti, refresh: Option<Jti>, lag: nat) returns (revoked: nat)
      requires Genuine(World(), access)
      modifies this
      ensures var w' := BlacklistToken(old(World()), access, lag);
              World() == if refresh.Some? && Genuine(w', refresh.value) then BlacklistToken(w', refresh.value, lag)
                         else w'
      ensures revoked == if refresh.Some? && refresh.value < |old(minted)| then 2 else 1
    {
      revoked := 0;
      var ok := AddToBlacklist(access, RemainingTtl(minted[access].token, clock), lag);
      if ok {
        revoked := revoked + 1;
      }
      if refresh.Some? && refresh.value < |minted| {
        ok := AddToBlacklist(refresh.value, RemainingTtl(minted[refresh.value].token, clock), lag);
        if ok {
          revoked := revoked + 1;
        }
      }
    }

    method Logout(access: Jti, refresh: Option<Jti>, revokeAll: bool, userExists: bool, lag: nat)
      returns (outcome: LogoutOutcome)
      requires Valid()
      modifies this
      ensures Valid()
      ensures var w := old(World());
              var step := if revokeAll && AcceptsAs(w, access, Access) && userExists
                          then RevokeAll(w.minted[access].token.user, lag)
                          else Tokens.Logout(access, refresh, userExists, lag);
              World() == Apply(cfg, w, step)
      ensures outcome == if !old(AcceptsAs(World(), access, Access)) then Unauthorized
                         else if !userExists then UserNotFound
                         else if revokeAll then AllSessionsRevoked
                         else LoggedOut(if refresh.Some? && refresh.value < |old(minted)| then 2 else 1)
      ensures outcome.Unauthorized? || outcome.UserNotFound? ==>
                redis == old(redis) && minted == old(minted) && pending == old(pending) && clock == old(clock)
    {
      var payload := VerifyToken(access, Access);
      if payload.None? {
        QuietStepKeepsSound(cfg, World(), World().(steps := steps + 1));
        steps := steps + 1;
        return Unauthorized;
      }
      if !userExists {
        QuietStepKeepsSound(cfg, World(), World().(steps := steps + 1));
        steps := steps + 1;
        return UserNotFound;
      }
      if revokeAll {
        ApplyKeepsSound(cfg, World(), RevokeAll(payload.value.user, lag));
        var ok := RevokeAllUserTokens(payload.value.user, lag);
        steps := steps + 1;
        return AllSessionsRevoked;
      }
      ApplyKeepsSound(cfg, World(), Tokens.Logout(access, refresh, userExists, lag));
      assert MintSound(cfg, World(), access);
      var revoked := BlacklistPresented(access, refresh, lag);
      steps := steps + 1;
      return LoggedOut(revoked);
    }
  }
}
