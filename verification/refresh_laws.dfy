/**
 What a login, a refresh and a revocation leave behind, field by field, and the exact condition
 of each outcome.
 */
module RefreshLaws {
  import opened Core
  import opened RefreshTokens
  import opened RefreshRuns

  /** The earlier of two instants: a lifetime after the issue, and the end of the session. */
  predicate IsExpiry(at: Time, issuedAt: Time, lifetime: Time, sessionEnds: Time) {
    at <= issuedAt + lifetime && at <= sessionEnds && (at == issuedAt + lifetime || at == sessionEnds)
  }

  /** The first of the candidates that no row has taken yet. */
  ghost predicate IsFirstFree<T>(d: Id, candidates: seq<Id>, rows: map<Id, T>) {
    d !in rows && exists i :: 0 <= i < |candidates| && candidates[i] == d && AllTaken(candidates[..i], rows)
  }

  ghost predicate AllTaken<T>(candidates: seq<Id>, rows: map<Id, T>) {
    forall i :: 0 <= i < |candidates| ==> candidates[i] in rows
  }

  lemma {:induction false} FirstFreeExactly<T>(candidates: seq<Id>, rows: map<Id, T>)
    ensures match FirstFree(candidates, Digests(rows)) {
              case Some(d) => IsFirstFree(d, candidates, rows)
              case None => AllTaken(candidates, rows)
            }
    ensures FirstFree(candidates, Digests(rows)).Some? <==> !AllTaken(candidates, rows)
  {
    if candidates != [] {
      var rest := candidates[1..];
      FirstFreeExactly(rest, rows);
      var found := FirstFree(candidates, Digests(rows));
      if candidates[0] !in rows {
        assert AllTaken(candidates[..0], rows);
      } else if found.Some? {
        var i :| 0 <= i < |rest| && rest[i] == found.value && AllTaken(rest[..i], rows);
        assert candidates[..i + 1] == [candidates[0]] + rest[..i];
        assert candidates[i + 1] == found.value && AllTaken(candidates[..i + 1], rows);
      }
    }
  }

  ghost predicate Unchanged<T(!new)>(before: map<Id, T>, after: map<Id, T>, but: Id) {
    forall d: Id :: d != but ==> (d in after <==> d in before) && (d in before ==> after[d] == before[d])
  }

  // ----- what is written -----

  /** A new refresh token, and what its session remembers of it. */
  ghost predicate IsIssued(next: Db, d: Id, session: Id, family: Id, issuedAt: Time, lifetime: Time)
  {
    && d in next.tokens && session in next.sessions
    && var t, s := next.tokens[d], next.sessions[session];
       && t.session == session && t.family == family && t.status == ActiveToken && t.usedAt.None? && t.revokedAt.None?
       && IsExpiry(t.expiresAt, issuedAt, lifetime, s.absoluteExpiresAt)
       && s.refreshExpiresAt == t.expiresAt && s.lastUsedAt == issuedAt && s.family == family
  }

  ghost predicate IsGranted(next: Db, d: Id, session: Id, at: Time, lifetime: Time) {
    d in next.access &&
    var a := next.access[d]; a.session == session && a.expiresAt == at + lifetime && a.revokedAt.None?
  }

  ghost predicate IsUsedUp(t: Token, used: Token, at: Time) {
    && used.status == UsedToken && used.usedAt == Some(at)
    && used.session == t.session && used.family == t.family && used.expiresAt == t.expiresAt && used.revokedAt == t.revokedAt
  }

  /** The presented token is used up, a new one and a new access token are there, and only their session moves. */
  ghost predicate IsRotation(db: Db, next: Db, l: Lifetimes, digest: Id, c: Clock, a: Id, f: Id)
    requires digest in db.tokens && db.tokens[digest].session in db.sessions
  {
    var t := db.tokens[digest];
    && digest != f && digest in next.tokens && IsUsedUp(t, next.tokens[digest], c.usedAt)
    && IsIssued(next, f, t.session, t.family, c.issuedAt, l.refresh)
    && IsGranted(next, a, t.session, c.accessAt, l.access) && Unchanged(db.access, next.access, a)
    && (forall d: Id :: d != digest && d != f ==>
          (d in next.tokens <==> d in db.tokens) && (d in db.tokens ==> next.tokens[d] == db.tokens[d]))
    && Unchanged(db.sessions, next.sessions, t.session)
    && SameStanding(db.sessions[t.session], next.sessions[t.session])
    && next.activeUsers == db.activeUsers
  }

  ghost predicate SameStanding(s: Session, r: Session) {
    r.user == s.user && r.status == s.status && r.absoluteExpiresAt == s.absoluteExpiresAt && r.revokedAt == s.revokedAt
  }

  ghost predicate IsRevokedSession(s: Session, r: Session, now: Time) {
    && r.status == RevokedSession
    && r.revokedAt == (if s.status == RevokedSession && s.revokedAt.Some? then s.revokedAt else Some(now))
    && r.user == s.user && r.family == s.family && r.lastUsedAt == s.lastUsedAt
    && r.refreshExpiresAt == s.refreshExpiresAt && r.absoluteExpiresAt == s.absoluteExpiresAt
  }

  ghost predicate IsRevokedToken(t: Token, r: Token, now: Time) {
    && r.status == RevokedToken && r.revokedAt == Some(now)
    && r.session == t.session && r.family == t.family && r.expiresAt == t.expiresAt && r.usedAt == t.usedAt
  }

  /** Every token and access of the session that was not revoked is revoked now, used ones included, and nothing else. */
  ghost predicate IsRevocation(db: Db, next: Db, session: Id, now: Time)
    requires session in db.sessions
  {
    && session in next.sessions && IsRevokedSession(db.sessions[session], next.sessions[session], now)
    && Unchanged(db.sessions, next.sessions, session)
    && TokensGo(db.tokens, next.tokens, session, now)
    && AccessGoes(db.access, next.access, session, now)
    && next.activeUsers == db.activeUsers
  }

  ghost predicate TokensGo(before: map<Id, Token>, after: map<Id, Token>, session: Id, now: Time) {
    && (forall d: Id :: d in after <==> d in before)
    && (forall d: Id :: d in before ==>
          if before[d].session == session && before[d].revokedAt.None? then IsRevokedToken(before[d], after[d], now)
          else after[d] == before[d])
  }

  ghost predicate AccessGoes(before: map<Id, Access>, after: map<Id, Access>, session: Id, now: Time) {
    && (forall d: Id :: d in after <==> d in before)
    && (forall d: Id :: d in before ==>
          if before[d].session == session && before[d].revokedAt.None?
          then after[d].revokedAt == Some(now) && after[d].session == session && after[d].expiresAt == before[d].expiresAt
          else after[d] == before[d])
  }

  lemma RevocationTable(db: Db, session: Id, now: Time)
    requires session in db.sessions
    ensures IsRevocation(db, Revoked(db, session, now), session, now)
  {
  }

  /** A logout that works from an outdated reading of the session writes its instant again. */
  lemma StaleRevocation(s: Session, now: Time)
    ensures SessionRevoked(s, now, true).revokedAt == Some(now)
    ensures IsRevokedSession(s.(revokedAt := None), SessionRevoked(s, now, true), now)
    ensures IsRevokedSession(s, SessionRevoked(s, now, false), now)
  {
  }

  // ----- refreshing -----

  predicate WasPresented(t: Token) {
    t.usedAt.Some? || t.revokedAt.Some? || t.status == UsedToken || t.status == RevokedToken
  }

  predicate MayRefresh(db: Db, digest: Id, now: Time)
    requires digest in db.tokens && db.tokens[digest].session in db.sessions
  {
    var t := db.tokens[digest];
    var s := db.sessions[t.session];
    && now < t.expiresAt && now < s.refreshExpiresAt && now < s.absoluteExpiresAt
    && s.status != RevokedSession && s.revokedAt.None? && s.user in db.activeUsers
  }

  lemma RotationTable(db: Db, l: Lifetimes, digest: Id, c: Clock, draws: Draws) returns (a: Id, f: Id)
    requires digest in db.tokens && db.tokens[digest].session in db.sessions
    requires Rotated(db, l, digest, c, draws).Ok?
    ensures IsFirstFree(a, draws.access, db.access) && IsFirstFree(f, draws.refresh, db.tokens)
    ensures IsRotation(db, Rotated(db, l, digest, c, draws).value, l, digest, c, a, f)
  {
    FirstFreeExactly(draws.access, db.access);
    FirstFreeExactly(draws.refresh, db.tokens);
    a := FirstFree(draws.access, Digests(db.access)).value;
    f := FirstFree(draws.refresh, Digests(db.tokens)).value;
  }

  ghost predicate Rotates(db: Db, next: Db, l: Lifetimes, digest: Id, c: Clock, draws: Draws)
    requires digest in db.tokens && db.tokens[digest].session in db.sessions
  {
    exists a, f :: IsFirstFree(a, draws.access, db.access) && IsFirstFree(f, draws.refresh, db.tokens)
                   && IsRotation(db, next, l, digest, c, a, f)
  }

  /** Which outcome a refresh has, and what each leaves. */
  lemma RefreshTable(db: Db, l: Lifetimes, digest: Id, c: Clock, draws: Draws)
    ensures var (next, failure) := Refreshed(db, l, digest, c, draws);
            if digest !in db.tokens || db.tokens[digest].session !in db.sessions then failure == Some(InvalidToken) && next == db
            else if WasPresented(db.tokens[digest]) then
              failure == Some(Reuse) && IsRevocation(db, next, db.tokens[digest].session, c.checkedAt)
            else if !MayRefresh(db, digest, c.checkedAt) then failure == Some(InvalidToken) && next == db
            else if AllTaken(draws.access, db.access) || AllTaken(draws.refresh, db.tokens) then
              failure == Some(NoUniqueDigest) && next == db
            else failure.None? && Rotates(db, next, l, digest, c, draws)
  {
    if digest in db.tokens && db.tokens[digest].session in db.sessions {
      RevocationTable(db, db.tokens[digest].session, c.checkedAt);
      FirstFreeExactly(draws.access, db.access);
      FirstFreeExactly(draws.refresh, db.tokens);
      if Rotated(db, l, digest, c, draws).Ok? {
        var a, f := RotationTable(db, l, digest, c, draws);
      }
    }
  }

  // ----- the marks of a token that is not consumable -----

  /** What is written of an expired token or session, before the error discards it. */
  ghost predicate IsExpiredToken(t: Token, r: Token, now: Time) {
    && r.status == ExpiredToken
    && (r.revokedAt == if t.status == ExpiredToken || t.revokedAt.Some? then t.revokedAt else Some(now))
    && r.session == t.session && r.family == t.family && r.expiresAt == t.expiresAt && r.usedAt == t.usedAt
  }

  ghost predicate IsExpiredSession(s: Session, r: Session, now: Time) {
    && r.status == ExpiredSession
    && (r.revokedAt == if s.status == ExpiredSession || s.revokedAt.Some? then s.revokedAt else Some(now))
    && r.user == s.user && r.family == s.family && r.lastUsedAt == s.lastUsedAt
    && r.refreshExpiresAt == s.refreshExpiresAt && r.absoluteExpiresAt == s.absoluteExpiresAt
  }

  lemma MarksTable(db: Db, digest: Id, now: Time)
    requires digest in db.tokens && db.tokens[digest].session in db.sessions
    ensures var t, next := db.tokens[digest], Marked(db, digest, now);
            var s := db.sessions[t.session];
            if t.expiresAt <= now then
              && next == db.(tokens := next.tokens) && Unchanged(db.tokens, next.tokens, digest)
              && digest in next.tokens && IsExpiredToken(t, next.tokens[digest], now)
            else if s.absoluteExpiresAt <= now || s.refreshExpiresAt <= now then
              && next == db.(sessions := next.sessions) && Unchanged(db.sessions, next.sessions, t.session)
              && t.session in next.sessions && IsExpiredSession(s, next.sessions[t.session], now)
            else if s.revokedAt.None? && s.status != RevokedSession && s.user !in db.activeUsers then
              IsRevocation(db, next, t.session, now)
            else next == db
    ensures MayRefresh(db, digest, now) <==> Consumable(db, db.tokens[digest], now)
    ensures MayRefresh(db, digest, now) ==> Marked(db, digest, now) == db
  {
    RevocationTable(db, db.tokens[digest].session, now);
  }

  // ----- logging in -----

  /** A new session with one refresh and one access token, and nothing else. */
  ghost predicate IsLogin(db: Db, next: Db, l: Lifetimes, user: Id, session: Id, family: Id, now: Time,
                          accessAt: Time, issuedAt: Time, a: Id, f: Id) {
    && session in next.sessions && Unchanged(db.sessions, next.sessions, session)
    && var s := next.sessions[session];
       && s.user == user && s.status == ActiveSession && s.absoluteExpiresAt == now + l.session && s.revokedAt.None?
       && IsIssued(next, f, session, family, issuedAt, l.refresh) && Unchanged(db.tokens, next.tokens, f)
       && IsGranted(next, a, session, accessAt, l.access) && Unchanged(db.access, next.access, a)
       && next.activeUsers == db.activeUsers
  }

  ghost predicate LogsIn(db: Db, next: Db, l: Lifetimes, user: Id, session: Id, family: Id, now: Time,
                         accessAt: Time, issuedAt: Time, draws: Draws) {
    exists a, f :: IsFirstFree(a, draws.access, db.access) && IsFirstFree(f, draws.refresh, db.tokens)
                   && IsLogin(db, next, l, user, session, family, now, accessAt, issuedAt, a, f)
  }

  lemma LoginTable(db: Db, l: Lifetimes, user: Id, session: Id, family: Id, now: Time, accessAt: Time, issuedAt: Time, draws: Draws)
    ensures var r := LoggedIn(db, l, user, session, family, now, accessAt, issuedAt, draws);
            if user !in db.activeUsers then r == Err(InvalidCredentials)
            else if AllTaken(draws.access, db.access) || AllTaken(draws.refresh, db.tokens) then r == Err(NoUniqueDigest)
            else r.Ok? && LogsIn(db, r.value, l, user, session, family, now, accessAt, issuedAt, draws)
  {
    FirstFreeExactly(draws.access, db.access);
    FirstFreeExactly(draws.refresh, db.tokens);
    var r := LoggedIn(db, l, user, session, family, now, accessAt, issuedAt, draws);
    if r.Ok? {
      var a := FirstFree(draws.access, Digests(db.access)).value;
      var f := FirstFree(draws.refresh, Digests(db.tokens)).value;
      assert IsLogin(db, r.value, l, user, session, family, now, accessAt, issuedAt, a, f);
    }
  }

  // ----- the steps of a run -----

  ghost predicate UsersBut(before: set<Id>, after: set<Id>, user: Id, active: bool) {
    forall u: Id :: u in after <==> if u == user then active else u in before
  }

  /** What each step of a run does to the tables. */
  lemma StepTable(w: World, a: Action)
    requires Enabled(w, a)
    ensures var db, next := w.db, Step(w, a).db;
            match a
            case Login(l, user, session, family, now, accessAt, issuedAt, draws) =>
              if user in db.activeUsers && !AllTaken(draws.access, db.access) && !AllTaken(draws.refresh, db.tokens)
              then LogsIn(db, next, l, user, session, family, now, accessAt, issuedAt, draws) else next == db
            case Refresh(l, digest, clock, draws) => next == Refreshed(db, l, digest, clock, draws).0
            case RevokeMark(session, now, stale) =>
              && next == db.(sessions := next.sessions) && session in next.sessions && Unchanged(db.sessions, next.sessions, session)
              && next.sessions[session].status == RevokedSession
              && (stale ==> next.sessions[session].revokedAt == Some(now))
              && (!stale ==> IsRevokedSession(db.sessions[session], next.sessions[session], now))
            case RevokeAccess(session, now) => next == db.(access := next.access) && AccessGoes(db.access, next.access, session, now)
            case RevokeTokens(session, now) => next == db.(tokens := next.tokens) && TokensGo(db.tokens, next.tokens, session, now)
            case SetUser(user, active) =>
              next == db.(activeUsers := next.activeUsers) && UsersBut(db.activeUsers, next.activeUsers, user, active)
  {
    if a.Login? {
      LoginTable(w.db, a.l, a.user, a.session, a.family, a.now, a.accessAt, a.issuedAt, a.draws);
    }
  }
}
