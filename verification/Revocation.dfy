/** Revoke-all over whole runs: which sessions survive it, and why the vanishing of the
    revocation stamp does not matter. */
module Revocation {
  import opened Clock
  import opened Wrappers
  import opened Tokens

  /** The login a token goes back to, through any number of refreshes. */
  function Root(log: seq<Mint>, j: Jti): Mint
    requires j < |log|
  {
    match log[j].origin
    case RefreshOf(parent) => if parent < j then Root(log, parent) else log[j]
    case Authentication => log[j]
  }

  /** A straddling request began before the revocation's step `p` and minted at or after
      the instant `r` the revocation stamped. */
  predicate Straddles(m: Mint, p: nat, r: Time) {
    m.began < p && r <= m.issuedAt
  }

  predicate ChainStraddles(log: seq<Mint>, j: Jti, p: nat, r: Time)
    requires j < |log|
  {
    || Straddles(log[j], p, r)
    || (log[j].origin.RefreshOf? && log[j].origin.parent < j && ChainStraddles(log, log[j].origin.parent, p, r))
  }

  // ---------------------------------------------------------------- what holds from the revocation on

  predicate Stamped(w: World, user: UserId, r: Time) {
    && RevokedAtKey(user) in w.store
    && var entry := w.store[RevokedAtKey(user)];
       && entry.value.Stamp?
       && r <= entry.value.at
       && entry.value.at + InstantOf(WEEK_SECONDS) <= entry.deadline
  }

  /** The parent a refresh step numbered after `p` verified was itself issued at or after `r`. */
  predicate ParentRecent(w: World, parent: Jti, user: UserId, began: nat, p: nat, r: Time) {
    parent < |w.minted| && w.minted[parent].token.user == user && p < began ==> r <= w.minted[parent].issuedAt
  }

  predicate MintAfter(w: World, j: Jti, user: UserId, p: nat, r: Time)
    requires j < |w.minted|
  {
    var m := w.minted[j];
    && (p < m.began ==> r <= m.issuedAt)
    && (m.origin.RefreshOf? ==> ParentRecent(w, m.origin.parent, user, m.began, p, r))
  }

  ghost predicate Revoked(w: World, user: UserId, p: nat, r: Time) {
    && p < w.steps
    && r <= w.now
    && Stamped(w, user, r)
    && (forall j | 0 <= j < |w.minted| :: MintAfter(w, j, user, p, r))
    && (forall q | q in w.pending :: ParentRecent(w, q.parent, user, q.began, p, r))
  }

  /** The heart of it. While the stamp's key lives, the stamp itself keeps older tokens
      out; once it has vanished a week has passed, and they have expired. */
  lemma AcceptedIsRecent(cfg: Lifetimes, w: World, user: UserId, p: nat, r: Time, j: Jti)
    requires cfg.access <= WEEK_SECONDS && cfg.refresh <= WEEK_SECONDS
    requires WorldSound(cfg, w) && Stamped(w, user, r) && SECOND <= r
    requires Accepts(w, j) && w.minted[j].token.user == user
    ensures r <= w.minted[j].issuedAt
  {
    assert MintSound(cfg, w, j);
    var entry := w.store[RevokedAtKey(user)];
    if w.now < entry.deadline {
      assert RevocationStamp(w, user) == Some(entry.value.at);
    }
  }

  lemma QuietStepKeepsRevoked(w: World, w': World, user: UserId, p: nat, r: Time)
    requires Revoked(w, user, p, r)
    requires w'.minted == w.minted && w.now <= w'.now && w.steps <= w'.steps && w'.pending <= w.pending
    requires Stamped(w', user, r)
    ensures Revoked(w', user, p, r)
  {
    forall j | 0 <= j < |w'.minted| ensures MintAfter(w', j, user, p, r) { assert MintAfter(w, j, user, p, r); }
  }

  lemma MintTokenKeepsRevoked(cfg: Lifetimes, w: World, user: UserId, p: nat, r: Time,
                              owner: UserId, kind: Kind, began: nat, origin: Origin, lag: nat)
    requires Revoked(w, user, p, r)
    requires WorldSound(cfg, w)
    requires origin.RefreshOf? ==> origin.parent < |w.minted| && ParentRecent(w, origin.parent, user, began, p, r)
    ensures Revoked(MintToken(cfg, w, owner, kind, began, origin, lag), user, p, r)
  {
    var w' := MintToken(cfg, w, owner, kind, began, origin, lag);
    assert w'.store == w.store;
    forall j | 0 <= j < |w'.minted| ensures MintAfter(w', j, user, p, r) {
      if j < |w.minted| { assert MintAfter(w, j, user, p, r) && MintSound(cfg, w, j); }
    }
  }

  lemma MintPairKeepsRevoked(cfg: Lifetimes, w: World, user: UserId, p: nat, r: Time,
                             owner: UserId, began: nat, origin: Origin, lag: nat)
    requires Revoked(w, user, p, r)
    requires WorldSound(cfg, w) && began < w.steps
    requires origin.RefreshOf? ==>
               && ParentSound(w, origin.parent, |w.minted|, owner, began)
               && ParentRecent(w, origin.parent, user, began, p, r)
    ensures Revoked(MintPair(cfg, w, owner, began, origin, lag), user, p, r)
  {
    MintTokenKeepsRevoked(cfg, w, user, p, r, owner, Access, began, origin, lag);
    MintTokenKeepsSound(cfg, w, owner, Access, began, origin, lag);
    var w' := MintToken(cfg, w, owner, Access, began, origin, lag);
    MintTokenKeepsRevoked(cfg, w', user, p, r, owner, Refresh, began, origin, lag);
  }

  /** No step takes the stamp back: the key is only ever overwritten by a later one. */
  lemma StampSurvives(cfg: Lifetimes, w: World, step: Step, user: UserId, r: Time)
    requires Stamped(w, user, r) && r <= w.now
    ensures Stamped(Apply(cfg, w, step), user, r)
  {
  }

  lemma BeginRefreshKeepsRevoked(cfg: Lifetimes, w: World, jti: Jti, user: UserId, p: nat, r: Time)
    requires cfg.access <= WEEK_SECONDS && cfg.refresh <= WEEK_SECONDS
    requires WorldSound(cfg, w) && Revoked(w, user, p, r) && SECOND <= r
    requires AcceptsAs(w, jti, Refresh)
    ensures Revoked(Apply(cfg, w, BeginRefresh(jti)), user, p, r)
  {
    var w' := Apply(cfg, w, BeginRefresh(jti));
    if w.minted[jti].token.user == user { AcceptedIsRecent(cfg, w, user, p, r, jti); }
    forall j | 0 <= j < |w'.minted| ensures MintAfter(w', j, user, p, r) { assert MintAfter(w, j, user, p, r); }
  }

  lemma AuthenticateKeepsRevoked(cfg: Lifetimes, w: World, owner: UserId, lag: nat, user: UserId, p: nat, r: Time)
    requires WorldSound(cfg, w) && Revoked(w, user, p, r)
    ensures Revoked(Apply(cfg, w, Authenticate(owner, lag)), user, p, r)
  {
    var v := w.(steps := w.steps + 1);
    QuietStepKeepsRevoked(w, v, user, p, r);
    QuietStepKeepsSound(cfg, w, v);
    MintPairKeepsRevoked(cfg, v, user, p, r, owner, w.steps, Authentication, lag);
  }

  lemma FinishRefreshKeepsRevoked(cfg: Lifetimes, w: World, q: Pending, lag: nat, user: UserId, p: nat, r: Time)
    requires WorldSound(cfg, w) && Revoked(w, user, p, r) && q in w.pending
    ensures Revoked(Apply(cfg, w, FinishRefresh(q, true, lag)), user, p, r)
  {
    var v := w.(steps := w.steps + 1, pending := w.pending - {q});
    QuietStepKeepsRevoked(w, v, user, p, r);
    QuietStepKeepsSound(cfg, w, v);
    MintPairKeepsRevoked(cfg, v, user, p, r, w.minted[q.parent].token.user, q.began, RefreshOf(q.parent), lag);
  }

  lemma ApplyKeepsRevoked(cfg: Lifetimes, w: World, step: Step, user: UserId, p: nat, r: Time)
    requires cfg.access <= WEEK_SECONDS && cfg.refresh <= WEEK_SECONDS
    requires WorldSound(cfg, w) && Revoked(w, user, p, r) && SECOND <= r
    ensures Revoked(Apply(cfg, w, step), user, p, r)
  {
    if Quiet(w, step) {
      QuietStepIsQuiet(cfg, w, step);
      StampSurvives(cfg, w, step, user, r);
      QuietStepKeepsRevoked(w, Apply(cfg, w, step), user, p, r);
    } else {
      match step
      case Authenticate(owner, lag) => AuthenticateKeepsRevoked(cfg, w, owner, lag, user, p, r);
      case FinishRefresh(q, _, lag) => FinishRefreshKeepsRevoked(cfg, w, q, lag, user, p, r);
      case BeginRefresh(jti) => BeginRefreshKeepsRevoked(cfg, w, jti, user, p, r);
    }
  }

  lemma {:induction false} RunKeepsRevoked(cfg: Lifetimes, w: World, steps: seq<Step>, user: UserId, p: nat, r: Time)
    requires cfg.access <= WEEK_SECONDS && cfg.refresh <= WEEK_SECONDS
    requires WorldSound(cfg, w) && Revoked(w, user, p, r) && SECOND <= r
    ensures Revoked(Run(cfg, w, steps), user, p, r)
    decreases |steps|
  {
    if steps != [] {
      ApplyKeepsSound(cfg, w, steps[0]);
      ApplyKeepsRevoked(cfg, w, steps[0], user, p, r);
      RunKeepsRevoked(cfg, Apply(cfg, w, steps[0]), steps[1..], user, p, r);
    }
  }

  lemma RevokeAllEstablishes(cfg: Lifetimes, w: World, user: UserId, lag: nat)
    requires WorldSound(cfg, w)
    ensures Revoked(Apply(cfg, w, RevokeAll(user, lag)), user, w.steps, w.now)
  {
    var w' := Apply(cfg, w, RevokeAll(user, lag));
    forall j | 0 <= j < |w'.minted| ensures MintAfter(w', j, user, w.steps, w.now) {
      assert MintSound(cfg, w, j);
    }
  }

  // ---------------------------------------------------------------- the chain behind an accepted token

  /** Following the chain of a token issued at or after `r`: it reaches a login that began
      after the revocation exactly when no request on the way straddled it. */
  lemma {:induction false} ChainReachesLogin(cfg: Lifetimes, w: World, user: UserId, p: nat, r: Time, j: Jti)
    requires WorldSound(cfg, w) && Revoked(w, user, p, r)
    requires j < |w.minted| && w.minted[j].token.user == user && r <= w.minted[j].issuedAt
    requires forall i | 0 <= i < |w.minted| :: w.minted[i].began != p
    ensures Root(w.minted, j).origin.Authentication? && Root(w.minted, j).token.user == user
    ensures p < Root(w.minted, j).began <==> !ChainStraddles(w.minted, j, p, r)
    ensures p < Root(w.minted, j).began ==> r <= Root(w.minted, j).issuedAt
    ensures Root(w.minted, j).began <= w.minted[j].began
    decreases j
  {
    assert MintSound(cfg, w, j) && MintAfter(w, j, user, p, r);
    var m := w.minted[j];
    if m.origin.RefreshOf? {
      if p < m.began {
        ChainReachesLogin(cfg, w, user, p, r, m.origin.parent);
      } else {
        RootIsOlder(cfg, w, m.origin.parent, user);
      }
    }
  }

  lemma {:induction false} RootIsOlder(cfg: Lifetimes, w: World, j: Jti, user: UserId)
    requires WorldSound(cfg, w)
    requires j < |w.minted| && w.minted[j].token.user == user
    ensures Root(w.minted, j).origin.Authentication? && Root(w.minted, j).token.user == user
    ensures Root(w.minted, j).began <= w.minted[j].began
    decreases j
  {
    assert MintSound(cfg, w, j);
    if w.minted[j].origin.RefreshOf? { RootIsOlder(cfg, w, w.minted[j].origin.parent, user); }
  }

  /** No request begins at the step that revokes. */
  predicate NoneBeganAt(w: World, p: nat) {
    && (forall i | 0 <= i < |w.minted| :: w.minted[i].began != p)
    && (forall q | q in w.pending :: q.began != p)
  }

  lemma {:induction false} RunKeepsNoneBeganAt(cfg: Lifetimes, w: World, steps: seq<Step>, p: nat)
    requires NoneBeganAt(w, p) && p < w.steps
    ensures NoneBeganAt(Run(cfg, w, steps), p)
    decreases |steps|
  {
    if steps != [] {
      StepKeepsNoneBeganAt(cfg, w, steps[0], p);
      RunKeepsNoneBeganAt(cfg, Apply(cfg, w, steps[0]), steps[1..], p);
    }
  }

  lemma StepKeepsNoneBeganAt(cfg: Lifetimes, w: World, step: Step, p: nat)
    requires NoneBeganAt(w, p) && p < w.steps
    ensures NoneBeganAt(Apply(cfg, w, step), p) && p < Apply(cfg, w, step).steps
  {
  }

  // ---------------------------------------------------------------- theorems

  function BeforeRevocation(cfg: Lifetimes, start: Time, before: seq<Step>): World {
    Run(cfg, Start(start), before)
  }

  function AfterRevocation(cfg: Lifetimes, start: Time, before: seq<Step>, user: UserId, lag: nat,
                           after: seq<Step>): World
  {
    Run(cfg, Apply(cfg, BeforeRevocation(cfg, start, before), RevokeAll(user, lag)), after)
  }

  lemma RevocationLeadsTo(cfg: Lifetimes, start: Time, before: seq<Step>, user: UserId, lag: nat, after: seq<Step>)
    requires SECOND <= start
    requires cfg.access <= WEEK_SECONDS && cfg.refresh <= WEEK_SECONDS
    ensures var w1 := BeforeRevocation(cfg, start, before);
            var w2 := AfterRevocation(cfg, start, before, user, lag, after);
            && WorldSound(cfg, w1) && SECOND <= w1.now
            && WorldSound(cfg, w2)
            && Revoked(w2, user, w1.steps, w1.now)
            && NoneBeganAt(w2, w1.steps)
            && w1.minted <= w2.minted
  {
    var w1 := BeforeRevocation(cfg, start, before);
    RunKeepsSound(cfg, Start(start), before);
    var r := Apply(cfg, w1, RevokeAll(user, lag));
    ApplyKeepsSound(cfg, w1, RevokeAll(user, lag));
    RevokeAllEstablishes(cfg, w1, user, lag);
    assert NoneBeganAt(r, w1.steps) by {
      forall i | 0 <= i < |r.minted| ensures r.minted[i].began != w1.steps { assert MintSound(cfg, w1, i); }
    }
    RunKeepsSound(cfg, r, after);
    RunKeepsRevoked(cfg, r, after, user, w1.steps, w1.now);
    RunKeepsNoneBeganAt(cfg, r, after, w1.steps);
  }

  /** After a revoke-all, every accepted token of the user goes back to a login made after
      it, at or after the instant it stamped, exactly when no request in the token's
      chain straddled the revocation. */
  lemma AcceptedAfterRevocation(cfg: Lifetimes, start: Time, before: seq<Step>, user: UserId, lag: nat,
                                after: seq<Step>, j: Jti)
    requires SECOND <= start
    requires cfg.access <= WEEK_SECONDS && cfg.refresh <= WEEK_SECONDS
    requires var w2 := AfterRevocation(cfg, start, before, user, lag, after);
             Accepts(w2, j) && w2.minted[j].token.user == user
    ensures var w1 := BeforeRevocation(cfg, start, before);
            var w2 := AfterRevocation(cfg, start, before, user, lag, after);
            var root := Root(w2.minted, j);
            && root.origin.Authentication? && root.token.user == user
            && (w1.steps < root.began <==> !ChainStraddles(w2.minted, j, w1.steps, w1.now))
            && (w1.steps < root.began ==> w1.now <= root.issuedAt)
  {
    RevocationLeadsTo(cfg, start, before, user, lag, after);
    var w1 := BeforeRevocation(cfg, start, before);
    var w2 := AfterRevocation(cfg, start, before, user, lag, after);
    AcceptedIsRecent(cfg, w2, user, w1.steps, w1.now, j);
    ChainReachesLogin(cfg, w2, user, w1.steps, w1.now, j);
  }

  /** A refresh verified just before a revoke-all and completed after it carries the old
      session across, whatever the lifetimes. */
  lemma StraddlingRefreshSurvives(cfg: Lifetimes)
    requires 1 <= cfg.access && 1 <= cfg.refresh
    ensures var before := [Authenticate("u", 0), BeginRefresh(1), Wait(SECOND)];
            var after := [FinishRefresh(Pending(1, 1), true, 0)];
            var w1 := BeforeRevocation(cfg, SECOND, before);
            var w2 := AfterRevocation(cfg, SECOND, before, "u", 0, after);
            && Accepts(w2, 2) && w2.minted[2].token.user == "u"
            && Root(w2.minted, 2).issuedAt < w1.now
  {
    var before := [Authenticate("u", 0), BeginRefresh(1), Wait(SECOND)];
    var a := Apply(cfg, Start(SECOND), before[0]);
    assert AcceptsAs(a, 1, Refresh);
    var b := Apply(cfg, a, before[1]);
    assert b.pending == {Pending(1, 1)};
    var w1 := Apply(cfg, b, before[2]);
    assert before[1..] == [before[1], before[2]];
    assert before[1..][1..] == [before[2]];
    assert before[1..][1..][1..] == [];
    calc {
      BeforeRevocation(cfg, SECOND, before);
      Run(cfg, a, before[1..]);
      Run(cfg, b, before[1..][1..]);
      Run(cfg, w1, []);
      w1;
    }
    var after := [FinishRefresh(Pending(1, 1), true, 0)];
    var r := Apply(cfg, w1, RevokeAll("u", 0));
    var w2 := Apply(cfg, r, after[0]);
    assert Run(cfg, r, after) == Run(cfg, w2, after[1..]) == w2;
    assert AfterRevocation(cfg, SECOND, before, "u", 0, after) == w2;
    assert w2.minted[2].token == Token(2, "u", Access, 2, 2 + cfg.access);
    assert w2.minted[2].origin == RefreshOf(1) && w2.minted[1].origin == Authentication;
    assert Root(w2.minted, 2) == w2.minted[1];
  }

  /** The price of comparing a whole-second `iat` with a finer stamp: a login right after a
      revoke-all is accepted exactly when a new second has begun by then. */
  lemma LoginRightAfterRevocation(cfg: Lifetimes, w: World, user: UserId, lag: nat)
    requires SECOND <= w.now && BlacklistKey(|w.minted|) !in w.store
    requires 2 * lag + SECOND <= InstantOf(cfg.access) <= InstantOf(WEEK_SECONDS)
    ensures var w2 := Apply(cfg, Apply(cfg, w, RevokeAll(user, 0)), Authenticate(user, lag));
            Accepts(w2, |w.minted|) <==> w.now <= InstantOf(WholeSecond(w.now + lag))
  {
  }

  /** A login half a second into a second, right after a revoke-all: its token is refused, and
      stays so. */
  lemma FreshLoginIsRefused(cfg: Lifetimes, gap: nat)
    requires cfg == Lifetimes(3600, 86400)
    ensures var w2 := Apply(cfg, Apply(cfg, Start(1_500_000), RevokeAll("u", 0)), Authenticate("u", 0));
            Genuine(w2, 0) && !Accepts(w2.(now := w2.now + gap), 0)
  {
  }
}
