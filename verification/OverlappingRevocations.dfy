/** Revoke-alls that overlap: each reads its stamp first and writes it later, so that an older
    stamp may be written over a newer one. */
module OverlappingRevocations {
  import opened Clock
  import opened Wrappers
  import opened Tokens
  import opened Revocation

  /** A request of the run model, or the write of a revoke-all that read the clock at `at`. */
  datatype Act = Ordinary(step: Step) | WriteStamp(user: UserId, at: Time)

  function Written(w: World, user: UserId, at: Time): World {
    w.(store := SetEx(w.store, RevokedAtKey(user), WEEK_SECONDS, Stamp(at), w.now), steps := w.steps + 1)
  }

  function Do(cfg: Lifetimes, w: World, act: Act): World {
    match act
    case Ordinary(step) => Apply(cfg, w, step)
    case WriteStamp(user, at) => Written(w, user, at)
  }

  function RunActs(cfg: Lifetimes, w: World, acts: seq<Act>): World
    decreases |acts|
  {
    if acts == [] then w else RunActs(cfg, Do(cfg, w, acts[0]), acts[1..])
  }

  /** Every stamp of the run was read before it is written. */
  predicate ReadBefore(cfg: Lifetimes, w: World, acts: seq<Act>)
    decreases |acts|
  {
    acts == [] || (Possible(w, acts[0]) && ReadBefore(cfg, Do(cfg, w, acts[0]), acts[1..]))
  }

  predicate Possible(w: World, act: Act) {
    act.WriteStamp? ==> act.at <= w.now
  }

  /** A revoke-all whose write is not overtaken is its reading and its writing. */
  lemma RevokeAllIsAWrite(cfg: Lifetimes, w: World, user: UserId, lag: nat)
    ensures Apply(cfg, w, RevokeAll(user, lag)) == Written(w.(now := w.now + lag), user, w.now)
  {
  }

  /** No write of an older stamp for the user. */
  predicate NoneOlder(act: Act, user: UserId, r: Time) {
    act.WriteStamp? && act.user == user ==> r <= act.at
  }

  lemma DoKeepsSound(cfg: Lifetimes, w: World, act: Act)
    requires WorldSound(cfg, w)
    ensures WorldSound(cfg, Do(cfg, w, act)) && w.now <= Do(cfg, w, act).now
  {
    match act
    case Ordinary(step) => ApplyKeepsSound(cfg, w, step);
    case WriteStamp(user, at) => QuietStepKeepsSound(cfg, w, Written(w, user, at));
  }

  /** A write keeps a revocation's stamp exactly if it is another user's or not older. */
  lemma WriteKeepsStampExactly(w: World, writer: UserId, at: Time, user: UserId, r: Time)
    requires Stamped(w, user, r) && at <= w.now
    ensures Stamped(Written(w, writer, at), user, r) <==> NoneOlder(WriteStamp(writer, at), user, r)
  {
  }

  /** The stamp, or a newer one, stands after every act of the run. */
  predicate StampedThroughout(cfg: Lifetimes, w: World, acts: seq<Act>, user: UserId, r: Time)
    decreases |acts|
  {
    Stamped(w, user, r) && (acts != [] ==> StampedThroughout(cfg, Do(cfg, w, acts[0]), acts[1..], user, r))
  }

  /** A revocation's stamp stands throughout a run, or a newer one does, exactly if no
      overlapping revoke-all of the user writes an older one. */
  lemma {:induction false} StampStandsExactly(cfg: Lifetimes, w: World, acts: seq<Act>, user: UserId, r: Time)
    requires WorldSound(cfg, w) && Stamped(w, user, r) && r <= w.now && ReadBefore(cfg, w, acts)
    ensures StampedThroughout(cfg, w, acts, user, r)
       <==> forall i | 0 <= i < |acts| :: NoneOlder(acts[i], user, r)
    decreases |acts|
  {
    if acts != [] {
      var w' := Do(cfg, w, acts[0]);
      DoKeepsSound(cfg, w, acts[0]);
      match acts[0] {
        case Ordinary(step) => StampSurvives(cfg, w, step, user, r);
        case WriteStamp(writer, at) => WriteKeepsStampExactly(w, writer, at, user, r);
      }
      if Stamped(w', user, r) { StampStandsExactly(cfg, w', acts[1..], user, r); }
      assert forall i | 0 <= i < |acts[1..]| :: acts[1..][i] == acts[i + 1];
    }
  }

  lemma DoKeepsRevoked(cfg: Lifetimes, w: World, act: Act, user: UserId, p: nat, r: Time)
    requires cfg.access <= WEEK_SECONDS && cfg.refresh <= WEEK_SECONDS
    requires WorldSound(cfg, w) && Revoked(w, user, p, r) && SECOND <= r
    requires Possible(w, act) && NoneOlder(act, user, r)
    ensures Revoked(Do(cfg, w, act), user, p, r)
  {
    match act
    case Ordinary(step) => ApplyKeepsRevoked(cfg, w, step, user, p, r);
    case WriteStamp(writer, at) =>
      WriteKeepsStampExactly(w, writer, at, user, r);
      QuietStepKeepsRevoked(w, Written(w, writer, at), user, p, r);
  }

  /** Then the revocation holds: every token accepted at the end was issued at or after the
      stamped instant. */
  lemma {:induction false} NewerRevocationHolds(cfg: Lifetimes, w: World, acts: seq<Act>, user: UserId, p: nat,
                                                r: Time, j: Jti)
    requires cfg.access <= WEEK_SECONDS && cfg.refresh <= WEEK_SECONDS
    requires WorldSound(cfg, w) && Revoked(w, user, p, r) && SECOND <= r && ReadBefore(cfg, w, acts)
    requires forall i | 0 <= i < |acts| :: NoneOlder(acts[i], user, r)
    ensures var w2 := RunActs(cfg, w, acts);
            Accepts(w2, j) && w2.minted[j].token.user == user ==> r <= w2.minted[j].issuedAt
    decreases |acts|
  {
    if acts == [] {
      if Accepts(w, j) && w.minted[j].token.user == user { AcceptedIsRecent(cfg, w, user, p, r, j); }
    } else {
      DoKeepsSound(cfg, w, acts[0]);
      DoKeepsRevoked(cfg, w, acts[0], user, p, r);
      assert forall i | 0 <= i < |acts[1..]| :: acts[1..][i] == acts[i + 1];
      NewerRevocationHolds(cfg, Do(cfg, w, acts[0]), acts[1..], user, p, r, j);
    }
  }

  /** What a late write lets in: it alone decides, whatever stamp stood before. */
  lemma AcceptedAfterWrite(cfg: Lifetimes, w: World, user: UserId, at: Time, j: Jti)
    requires WorldSound(cfg, w) && j < |w.minted| && w.minted[j].token.user == user && at != 0
    ensures var token := w.minted[j].token;
            Accepts(Written(w, user, at), j)
            <==> w.now < InstantOf(token.exp) && !Blacklisted(w, j) && at <= InstantOf(token.iat)
  {
    assert MintSound(cfg, w, j);
    var w' := Written(w, user, at);
    assert RevocationStamp(w', user) == Some(at);
  }

  /** One revoke-all reads the clock in the first second and is held up; the user logs in during
      the second, and revokes all again in the third. The login's token is refused, until the
      first revoke-all is written over the other. */
  lemma OlderStampLetsIn(cfg: Lifetimes)
    requires 5 <= cfg.access
    ensures var w := Apply(cfg, Apply(cfg, Start(2 * SECOND), Authenticate("u", 0)), Wait(SECOND));
            var w1 := Apply(cfg, w, RevokeAll("u", 0));
            !Accepts(w1, 0) && Accepts(Written(w1, "u", SECOND), 0)
  {
  }
}
