/** Every interleaving of logins, refreshes, logouts and user changes. */
module RefreshRuns {
  import opened Core
  import opened RefreshTokens

  /** A logout commits its three writes one after the other; `stale` is what the caller had read of the session. */
  datatype Action =
    | Login(l: Lifetimes, user: Id, session: Id, family: Id, now: Time, accessAt: Time, issuedAt: Time, draws: Draws)
    | Refresh(l: Lifetimes, digest: Id, clock: Clock, draws: Draws)
    | RevokeMark(session: Id, now: Time, stale: bool)
    | RevokeAccess(session: Id, now: Time)
    | RevokeTokens(session: Id, now: Time)
    | SetUser(user: Id, active: bool)

  /** `rotated` lists the tokens exchanged so far, `burned` the sessions on which a reuse was detected. */
  datatype World = World(db: Db, rotated: seq<Id>, burned: set<Id>)

  ghost predicate Enabled(w: World, a: Action) {
    match a
    case Login(_, _, session, _, _, _, _, _) => session !in w.db.sessions
    case RevokeMark(session, _, _) => session in w.db.sessions
    case _ => true
  }

  function Step(w: World, a: Action): World
    requires Enabled(w, a)
  {
    match a
    case Login(l, user, session, family, now, accessAt, issuedAt, draws) =>
      (match LoggedIn(w.db, l, user, session, family, now, accessAt, issuedAt, draws)
       case Err(_) => w
       case Ok(next) => w.(db := next))
    case Refresh(l, digest, clock, draws) =>
      var (next, failure) := Refreshed(w.db, l, digest, clock, draws);
      w.(db := next,
         rotated := if failure.None? then w.rotated + [digest] else w.rotated,
         burned := if failure == Some(Reuse) && digest in w.db.tokens then w.burned + {w.db.tokens[digest].session} else w.burned)
    case RevokeMark(session, now, stale) =>
      w.(db := w.db.(sessions := w.db.sessions[session := SessionRevoked(w.db.sessions[session], now, stale)]))
    case RevokeAccess(session, now) => w.(db := w.db.(access := AccessRevoked(w.db.access, session, now)))
    case RevokeTokens(session, now) => w.(db := w.db.(tokens := TokensRevoked(w.db.tokens, session, now)))
    case SetUser(user, active) =>
      w.(db := w.db.(activeUsers := if active then w.db.activeUsers + {user} else w.db.activeUsers - {user}))
  }

  // ----- the invariant -----

  ghost predicate Live(db: Db, d: Id) { d in db.tokens && !Reused(db.tokens[d]) }

  ghost predicate TokenInv(w: World, d: Id) {
    d in w.db.tokens ==>
      var t := w.db.tokens[d];
      && t.session in w.db.sessions
      && t.expiresAt <= w.db.sessions[t.session].absoluteExpiresAt
      && (t.session in w.burned ==> !Live(w.db, d))
  }

  ghost predicate SessionInv(w: World, s: Id) {
    && (s in w.db.sessions ==> w.db.sessions[s].refreshExpiresAt <= w.db.sessions[s].absoluteExpiresAt)
    && (s in w.burned ==> s in w.db.sessions && w.db.sessions[s].revokedAt.Some?)
  }

  ghost predicate PairInv(db: Db, d: Id, e: Id) {
    Live(db, d) && Live(db, e) && db.tokens[d].session == db.tokens[e].session ==> d == e
  }

  ghost predicate Used(db: Db, d: Id) { d in db.tokens && db.tokens[d].usedAt.Some? }

  ghost predicate RotationInv(w: World) {
    && (forall i :: 0 <= i < |w.rotated| ==> Used(w.db, w.rotated[i]))
    && (forall i, j :: 0 <= i < j < |w.rotated| ==> w.rotated[i] != w.rotated[j])
  }

  ghost predicate Inv(w: World) {
    && (forall d :: TokenInv(w, d)) && (forall s :: SessionInv(w, s))
    && (forall d, e :: PairInv(w.db, d, e)) && RotationInv(w)
  }

  // ----- a rotation -----

  /** What a successful refresh leaves: the token used, and one new live token in its place. */
  lemma RotatedTokens(db: Db, l: Lifetimes, digest: Id, c: Clock, draws: Draws) returns (issued: Id)
    requires digest in db.tokens && db.tokens[digest].session in db.sessions
    requires Rotated(db, l, digest, c, draws).Ok?
    ensures var t, next := db.tokens[digest], Rotated(db, l, digest, c, draws).value;
            && issued !in db.tokens && issued in next.tokens
            && next.tokens[issued].session == t.session && !Reused(next.tokens[issued])
            && next.tokens[issued].expiresAt <= db.sessions[t.session].absoluteExpiresAt
            && digest in next.tokens && next.tokens[digest] == t.(usedAt := Some(c.usedAt), status := UsedToken)
            && (forall d :: d in next.tokens <==> d in db.tokens || d == issued)
            && (forall d :: d in db.tokens && d != digest ==> next.tokens[d] == db.tokens[d])
            && (forall s :: s in next.sessions <==> s in db.sessions)
            && (forall s :: s in db.sessions && s != t.session ==> next.sessions[s] == db.sessions[s])
            && next.sessions[t.session].absoluteExpiresAt == db.sessions[t.session].absoluteExpiresAt
            && next.sessions[t.session].refreshExpiresAt <= next.sessions[t.session].absoluteExpiresAt
            && next.sessions[t.session].revokedAt == db.sessions[t.session].revokedAt
            && next.activeUsers == db.activeUsers
  {
    FirstFreeIsFree(draws.refresh, Digests(db.tokens));
    issued := FirstFree(draws.refresh, Digests(db.tokens)).value;
  }

  lemma RefreshKeepsInv(w: World, a: Action)
    requires Inv(w) && a.Refresh?
    ensures Inv(Step(w, a))
  {
    var v := Step(w, a);
    if a.digest !in w.db.tokens {
      return;
    }
    var t := w.db.tokens[a.digest];
    assert TokenInv(w, a.digest) && SessionInv(w, t.session);
    if Reused(t) {
      ReuseKeepsInv(w, a);
    } else if Consumable(w.db, t, a.clock.checkedAt) && Rotated(w.db, a.l, a.digest, a.clock, a.draws).Ok? {
      var f := RotatedTokens(w.db, a.l, a.digest, a.clock, a.draws);
      forall d ensures TokenInv(v, d) {
        assert TokenInv(w, d);
      }
      forall s ensures SessionInv(v, s) {
        assert SessionInv(w, s);
      }
      forall d, e ensures PairInv(v.db, d, e) {
        assert PairInv(w.db, d, e) && PairInv(w.db, a.digest, d) && PairInv(w.db, a.digest, e);
      }
    }
  }

  lemma ReuseKeepsInv(w: World, a: Action)
    requires Inv(w) && a.Refresh? && a.digest in w.db.tokens && Reused(w.db.tokens[a.digest])
    requires w.db.tokens[a.digest].session in w.db.sessions
    ensures Inv(Step(w, a))
  {
    var v := Step(w, a);
    forall d ensures TokenInv(v, d) {
      assert TokenInv(w, d);
    }
    forall s ensures SessionInv(v, s) {
      assert SessionInv(w, s);
    }
    forall d, e ensures PairInv(v.db, d, e) {
      assert PairInv(w.db, d, e);
    }
  }

  lemma LoginKeepsInv(w: World, a: Action)
    requires Inv(w) && a.Login? && Enabled(w, a)
    ensures Inv(Step(w, a))
  {
    var v := Step(w, a);
    FirstFreeIsFree(a.draws.refresh, Digests(w.db.tokens));
    assert SessionInv(w, a.session);
    forall d ensures TokenInv(v, d) {
      assert TokenInv(w, d);
    }
    forall s ensures SessionInv(v, s) {
      assert SessionInv(w, s);
    }
    forall d, e ensures PairInv(v.db, d, e) {
      assert PairInv(w.db, d, e) && TokenInv(w, d) && TokenInv(w, e);
    }
  }

  lemma OtherKeepsInv(w: World, a: Action)
    requires Inv(w) && Enabled(w, a) && !a.Login? && !a.Refresh?
    ensures Inv(Step(w, a))
  {
    var v := Step(w, a);
    forall d ensures TokenInv(v, d) {
      assert TokenInv(w, d);
    }
    forall s ensures SessionInv(v, s) {
      assert SessionInv(w, s);
    }
    forall d, e ensures PairInv(v.db, d, e) {
      assert PairInv(w.db, d, e);
    }
  }

  // ----- runs -----

  ghost function After(actions: seq<Action>): Option<World> {
    if actions == [] then Some(World(Db(map[], map[], map[], {}), [], {}))
    else
      var prior, last := After(actions[..|actions| - 1]), actions[|actions| - 1];
      if prior.Some? && Enabled(prior.value, last) then Some(Step(prior.value, last)) else None
  }

  lemma {:induction false} RunKeepsInv(actions: seq<Action>, w: World)
    requires After(actions) == Some(w)
    ensures Inv(w)
  {
    if actions != [] {
      var last := actions[|actions| - 1];
      var prior := After(actions[..|actions| - 1]).value;
      RunKeepsInv(actions[..|actions| - 1], prior);
      if last.Login? {
        LoginKeepsInv(prior, last);
      } else if last.Refresh? {
        RefreshKeepsInv(prior, last);
      } else {
        OtherKeepsInv(prior, last);
      }
    }
  }

  /** A session never has two refresh tokens that are neither used nor revoked. */
  lemma OneLiveToken(actions: seq<Action>, w: World, d: Id, e: Id)
    requires After(actions) == Some(w) && Live(w.db, d) && Live(w.db, e)
    requires w.db.tokens[d].session == w.db.tokens[e].session
    ensures d == e
  {
    RunKeepsInv(actions, w);
    assert PairInv(w.db, d, e);
  }

  /** No token is exchanged twice. */
  lemma RotatesOnce(actions: seq<Action>, w: World, i: nat, j: nat)
    requires After(actions) == Some(w) && i < j < |w.rotated|
    ensures w.rotated[i] != w.rotated[j]
  {
    RunKeepsInv(actions, w);
  }

  /** Nothing outlives the session it belongs to. */
  lemma ExpiriesAreBounded(actions: seq<Action>, w: World, d: Id)
    requires After(actions) == Some(w) && d in w.db.tokens
    ensures var s := w.db.tokens[d].session;
            && s in w.db.sessions && w.db.tokens[d].expiresAt <= w.db.sessions[s].absoluteExpiresAt
            && w.db.sessions[s].refreshExpiresAt <= w.db.sessions[s].absoluteExpiresAt
  {
    RunKeepsInv(actions, w);
    assert TokenInv(w, d) && SessionInv(w, w.db.tokens[d].session);
  }

  lemma {:induction false} BurnedStaysBurned(actions: seq<Action>, k: nat, w: World, early: World, s: Id)
    requires k <= |actions| && After(actions) == Some(w) && After(actions[..k]) == Some(early) && s in early.burned
    ensures s in w.burned
  {
    if k == |actions| {
      assert actions[..k] == actions;
    } else {
      var n := |actions| - 1;
      assert actions[..n][..k] == actions[..k];
      BurnedStaysBurned(actions[..n], k, After(actions[..n]).value, early, s);
    }
  }

  /**
   Once a used token has been presented again, no token of its session is live and no refresh on it
   succeeds, whatever else happens in between.
   */
  lemma ReuseEndsTheSession(actions: seq<Action>, k: nat, w: World, a: Action, early: World, d: Id)
    requires k < |actions| && After(actions) == Some(w) && After(actions[..k]) == Some(early) && actions[k] == a
    requires a.Refresh? && a.digest in early.db.tokens && Reused(early.db.tokens[a.digest])
    requires d in w.db.tokens && w.db.tokens[d].session == early.db.tokens[a.digest].session
    ensures !Live(w.db, d)
    ensures forall l, c, draws :: Refreshed(w.db, l, d, c, draws).1 == Some(Reuse)
  {
    ReuseKeepsBurning(actions, k, w, a, early);
    RunKeepsInv(actions, w);
    BurnedIsOver(w, d);
  }

  lemma ReuseKeepsBurning(actions: seq<Action>, k: nat, w: World, a: Action, early: World)
    requires k < |actions| && After(actions) == Some(w) && After(actions[..k]) == Some(early) && actions[k] == a
    requires a.Refresh? && a.digest in early.db.tokens && Reused(early.db.tokens[a.digest])
    ensures early.db.tokens[a.digest].session in w.burned
  {
    PrefixRuns(actions, k + 1);
    var upTo := actions[..k + 1];
    assert upTo[..|upTo| - 1] == actions[..k];
    ReuseBurns(upTo, early, a);
    BurnedStaysBurned(actions, k + 1, w, After(upTo).value, early.db.tokens[a.digest].session);
  }

  lemma ReuseBurns(actions: seq<Action>, early: World, a: Action)
    requires actions != [] && actions[|actions| - 1] == a && After(actions[..|actions| - 1]) == Some(early)
    requires After(actions).Some? && a.Refresh?
    requires a.digest in early.db.tokens && Reused(early.db.tokens[a.digest])
    ensures early.db.tokens[a.digest].session in After(actions).value.burned
  {
    RunKeepsInv(actions[..|actions| - 1], early);
    assert TokenInv(early, a.digest);
  }

  lemma BurnedIsOver(w: World, d: Id)
    requires Inv(w) && d in w.db.tokens && w.db.tokens[d].session in w.burned
    ensures !Live(w.db, d)
    ensures forall l, c, draws :: Refreshed(w.db, l, d, c, draws).1 == Some(Reuse)
  {
    assert TokenInv(w, d);
  }

  lemma {:induction false} PrefixRuns(actions: seq<Action>, k: nat)
    requires k <= |actions| && After(actions).Some?
    ensures After(actions[..k]).Some?
  {
    if k == |actions| {
      assert actions[..k] == actions;
    } else {
      PrefixRuns(actions[..|actions| - 1], k);
      assert actions[..|actions| - 1][..k] == actions[..k];
    }
  }

  /** Of the refreshes that fail, only a detected reuse writes anything. */
  lemma OnlyReuseCommits(db: Db, l: Lifetimes, d: Id, c: Clock, draws: Draws)
    requires Refreshed(db, l, d, c, draws).1.Some? && Refreshed(db, l, d, c, draws).0 != db
    ensures Refreshed(db, l, d, c, draws).1 == Some(Reuse)
    ensures d in db.tokens && Reused(db.tokens[d])
    ensures forall e :: e in db.tokens && db.tokens[e].session == db.tokens[d].session ==> !Live(Refreshed(db, l, d, c, draws).0, e)
  {
  }

  // ----- which refreshes succeed -----

  /** Action `i` exchanges the token with this digest. */
  ghost predicate ExchangedAt(actions: seq<Action>, i: nat, d: Id) {
    && i < |actions| && actions[i].Refresh? && actions[i].digest == d && After(actions[..i]).Some?
    && Refreshed(After(actions[..i]).value.db, actions[i].l, d, actions[i].clock, actions[i].draws).1.None?
  }

  lemma ExchangedInFront(actions: seq<Action>, i: nat, d: Id)
    requires i < |actions| - 1
    ensures ExchangedAt(actions[..|actions| - 1], i, d) <==> ExchangedAt(actions, i, d)
  {
    assert actions[..|actions| - 1][..i] == actions[..i];
  }

  ghost predicate Exchanges(w: World, a: Action, d: Id) {
    a.Refresh? && a.digest == d && Refreshed(w.db, a.l, d, a.clock, a.draws).1.None?
  }

  lemma StepLists(w: World, a: Action, d: Id)
    requires Enabled(w, a)
    ensures d in Step(w, a).rotated <==> d in w.rotated || Exchanges(w, a, d)
  {
  }

  lemma LastIsStep(actions: seq<Action>, w: World) returns (prior: World)
    requires actions != [] && After(actions) == Some(w)
    ensures After(actions[..|actions| - 1]) == Some(prior)
    ensures Enabled(prior, actions[|actions| - 1]) && Step(prior, actions[|actions| - 1]) == w
  {
    prior := After(actions[..|actions| - 1]).value;
  }

  /** The tokens listed as exchanged are those of the refreshes that succeeded. */
  lemma {:induction false} RotatedIsExchanged(actions: seq<Action>, w: World, d: Id)
    requires After(actions) == Some(w)
    ensures d in w.rotated <==> exists i: nat :: ExchangedAt(actions, i, d)
    decreases |actions|
  {
    if actions != [] {
      var n := |actions| - 1;
      var prior := LastIsStep(actions, w);
      RotatedIsExchanged(actions[..n], prior, d);
      StepLists(prior, actions[n], d);
      ExchangesGrow(actions, actions[..n], prior, d);
    }
  }

  lemma ExchangesGrow(actions: seq<Action>, front: seq<Action>, prior: World, d: Id)
    requires actions != [] && front == actions[..|actions| - 1] && After(front) == Some(prior)
    ensures (exists i: nat :: ExchangedAt(actions, i, d)) <==>
            (exists i: nat :: ExchangedAt(front, i, d)) || Exchanges(prior, actions[|actions| - 1], d)
  {
    var n := |actions| - 1;
    if i: nat :| ExchangedAt(front, i, d) {
      ExchangedInFront(actions, i, d);
    }
    if i: nat :| ExchangedAt(actions, i, d) && i < n {
      ExchangedInFront(actions, i, d);
    }
    assert Exchanges(prior, actions[n], d) <==> ExchangedAt(actions, n, d);
  }

  lemma UsedIsNotExchanged(w: World, a: Action, d: Id)
    requires RotationInv(w) && d in w.rotated
    ensures !Exchanges(w, a, d)
  {
  }

  /** In every interleaving a token is exchanged at most once, whoever presents it again. */
  lemma ExchangedOnce(actions: seq<Action>, d: Id, i: nat, j: nat)
    requires After(actions).Some? && i < j && ExchangedAt(actions, i, d)
    ensures !ExchangedAt(actions, j, d)
  {
    if j < |actions| && After(actions[..j]).Some? {
      var front := actions[..j];
      var w := After(front).value;
      assert front[..i] == actions[..i] && front[i] == actions[i];
      assert ExchangedAt(front, i, d);
      RotatedIsExchanged(front, w, d);
      RunKeepsInv(front, w);
      UsedIsNotExchanged(w, actions[j], d);
    }
  }
}
