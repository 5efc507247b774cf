/**
 Login sessions and the rotation of their refresh tokens.  A raised error discards the
 writes of its transaction; only the detection of a reused token commits before it raises.
 */
module RefreshTokens {
  import opened Core

  datatype SessionStatus = ActiveSession | RevokedSession | ExpiredSession

  datatype TokenStatus = ActiveToken | UsedToken | RevokedToken | ExpiredToken

  datatype Session = Session(user: Id, status: SessionStatus, family: Id, lastUsedAt: Time, refreshExpiresAt: Time,
                             absoluteExpiresAt: Time, revokedAt: Option<Time>)

  /** Stored under the digest of the raw token. */
  datatype Token = Token(session: Id, family: Id, expiresAt: Time, status: TokenStatus,
                         usedAt: Option<Time>, revokedAt: Option<Time>)

  datatype Access = Access(session: Id, expiresAt: Time, revokedAt: Option<Time>)

  datatype Failure = InvalidToken | Reuse | InvalidCredentials | NoUniqueDigest

  /** Lifetimes of a session and of its two kinds of token. */
  datatype Lifetimes = Lifetimes(session: Time, refresh: Time, access: Time)

  datatype Db = Db(sessions: map<Id, Session>, tokens: map<Id, Token>, access: map<Id, Access>, activeUsers: set<Id>)

  /** The instants one refresh reads, in order. */
  datatype Clock = Clock(checkedAt: Time, usedAt: Time, touchedAt: Time, accessAt: Time, issuedAt: Time)

  predicate Reused(t: Token) {
    t.status == UsedToken || t.status == RevokedToken || t.usedAt.Some? || t.revokedAt.Some?
  }

  function RefreshExpiry(l: Lifetimes, now: Time, s: Session): Time { Min(now + l.refresh, s.absoluteExpiresAt) }

  /** A generated digest that is already taken is tried again, as often as candidates are given. */
  function FirstFree(candidates: seq<Id>, taken: set<Id>): Option<Id> {
    if candidates == [] then None
    else if candidates[0] !in taken then Some(candidates[0]) else FirstFree(candidates[1..], taken)
  }

  lemma {:induction false} FirstFreeIsFree(candidates: seq<Id>, taken: set<Id>)
    ensures match FirstFree(candidates, taken) {
              case Some(d) => d in candidates && d !in taken
              case None => forall i :: 0 <= i < |candidates| ==> candidates[i] in taken
            }
  {
    if candidates != [] {
      FirstFreeIsFree(candidates[1..], taken);
    }
  }

  // ----- the transactions, on values -----

  function SessionRevoked(s: Session, now: Time, stale: bool): Session {
    if stale || s.revokedAt.None? || s.status != RevokedSession then s.(revokedAt := Some(now), status := RevokedSession) else s
  }

  function TokensRevoked(tokens: map<Id, Token>, session: Id, now: Time): map<Id, Token> {
    map d | d in tokens ::
      if tokens[d].session == session && tokens[d].revokedAt.None?
      then tokens[d].(revokedAt := Some(now), status := RevokedToken) else tokens[d]
  }

  function AccessRevoked(access: map<Id, Access>, session: Id, now: Time): map<Id, Access> {
    map d | d in access ::
      if access[d].session == session && access[d].revokedAt.None? then access[d].(revokedAt := Some(now)) else access[d]
  }

  function Revoked(db: Db, session: Id, now: Time): Db
    requires session in db.sessions
  {
    db.(sessions := db.sessions[session := SessionRevoked(db.sessions[session], now, false)],
        access := AccessRevoked(db.access, session, now),
        tokens := TokensRevoked(db.tokens, session, now))
  }

  predicate Consumable(db: Db, t: Token, now: Time)
    requires t.session in db.sessions
  {
    var s := db.sessions[t.session];
    && t.expiresAt > now
    && s.absoluteExpiresAt > now && s.refreshExpiresAt > now
    && s.revokedAt.None? && s.status != RevokedSession
    && s.user in db.activeUsers
  }

  function WithAccess(db: Db, l: Lifetimes, session: Id, digest: Id, now: Time): Db {
    db.(access := db.access[digest := Access(session, now + l.access, None)])
  }

  function WithRefresh(db: Db, l: Lifetimes, session: Id, family: Id, digest: Id, now: Time): Db
    requires session in db.sessions
  {
    var s := db.sessions[session];
    var expiresAt := RefreshExpiry(l, now, s);
    db.(tokens := db.tokens[digest := Token(session, family, expiresAt, ActiveToken, None, None)],
        sessions := db.sessions[session := s.(family := family, refreshExpiresAt := expiresAt, lastUsedAt := now)])
  }

  function Digests<T>(m: map<Id, T>): set<Id> { set d | d in m }

  /** The candidates one call generates for its access and its refresh token. */
  datatype Draws = Draws(access: seq<Id>, refresh: seq<Id>)

  /** A rotation: the presented token is used up and a new one takes its place. */
  function Rotated(db: Db, l: Lifetimes, digest: Id, c: Clock, draws: Draws): Result<Db, Failure>
    requires digest in db.tokens && db.tokens[digest].session in db.sessions
  {
    var t := db.tokens[digest];
    var s := db.sessions[t.session];
    var used := db.(tokens := db.tokens[digest := t.(usedAt := Some(c.usedAt), status := UsedToken)],
                    sessions := db.sessions[t.session := s.(lastUsedAt := c.touchedAt,
                                                            refreshExpiresAt := RefreshExpiry(l, c.touchedAt, s))]);
    var a := FirstFree(draws.access, Digests(db.access));
    var f := FirstFree(draws.refresh, Digests(db.tokens));
    if a.None? || f.None? then Err(NoUniqueDigest)
    else Ok(WithRefresh(WithAccess(used, l, t.session, a.value, c.accessAt), l, t.session, t.family, f.value, c.issuedAt))
  }

  /** What a refresh commits, with its error if it raises one. */
  function Refreshed(db: Db, l: Lifetimes, digest: Id, c: Clock, draws: Draws): (Db, Option<Failure>) {
    if digest !in db.tokens || db.tokens[digest].session !in db.sessions then (db, Some(InvalidToken))
    else
      var t := db.tokens[digest];
      if Reused(t) then (Revoked(db, t.session, c.checkedAt), Some(Reuse))
      else if !Consumable(db, t, c.checkedAt) then (db, Some(InvalidToken))
      else
        match Rotated(db, l, digest, c, draws)
        case Err(f) => (db, Some(f))
        case Ok(next) => (next, None)
  }

  function LoggedIn(db: Db, l: Lifetimes, user: Id, session: Id, family: Id, now: Time, accessAt: Time, issuedAt: Time, draws: Draws)
    : Result<Db, Failure> {
    if user !in db.activeUsers then Err(InvalidCredentials)
    else
      var s := Session(user, ActiveSession, family, now, Min(now + l.refresh, now + l.session), now + l.session, None);
      var begun := db.(sessions := db.sessions[session := s]);
      var a := FirstFree(draws.access, Digests(db.access));
      var f := FirstFree(draws.refresh, Digests(db.tokens));
      if a.None? || f.None? then Err(NoUniqueDigest)
      else Ok(WithRefresh(WithAccess(begun, l, session, a.value, accessAt), l, session, family, f.value, issuedAt))
  }

  function ExpiredMark(t: Token, now: Time): Token {
    if t.status == ExpiredToken then t
    else t.(status := ExpiredToken, revokedAt := if t.revokedAt.Some? then t.revokedAt else Some(now))
  }

  function ExpiredSessionMark(s: Session, now: Time): Session {
    if s.status == ExpiredSession then s
    else s.(status := ExpiredSession, revokedAt := if s.revokedAt.Some? then s.revokedAt else Some(now))
  }

  /** What checking a token writes before it raises: the first of its reasons decides. */
  function Marked(db: Db, digest: Id, now: Time): Db
    requires digest in db.tokens && db.tokens[digest].session in db.sessions
  {
    var t := db.tokens[digest];
    var s := db.sessions[t.session];
    if t.expiresAt <= now then db.(tokens := db.tokens[digest := ExpiredMark(t, now)])
    else if s.absoluteExpiresAt <= now || s.refreshExpiresAt <= now then
      db.(sessions := db.sessions[t.session := ExpiredSessionMark(s, now)])
    else if s.revokedAt.Some? || s.status == RevokedSession || s.user in db.activeUsers then db
    else Revoked(db, t.session, now)
  }

  // ----- the services -----

  class Accounts {
    var db: Db

    constructor ()
      ensures db == Db(map[], map[], map[], {})
    {
      db := Db(map[], map[], map[], {});
    }

    /** Tries the candidates in order; a taken one collides with the unique digest. */
    static method UniqueDigest(candidates: seq<Id>, taken: set<Id>) returns (r: Option<Id>)
      ensures r == FirstFree(candidates, taken)
    {
      for i := 0 to |candidates|
        invariant FirstFree(candidates, taken) == FirstFree(candidates[i..], taken)
      {
        assert candidates[i..][1..] == candidates[i + 1..];
        if candidates[i] !in taken {
          return Some(candidates[i]);
        }
      }
      return None;
    }

    method IssueAccess(l: Lifetimes, session: Id, now: Time, candidates: seq<Id>) returns (ok: bool)
      modifies this
      ensures ok <==> FirstFree(candidates, Digests(old(db).access)).Some?
      ensures db == if ok then WithAccess(old(db), l, session, FirstFree(candidates, Digests(old(db).access)).value, now) else old(db)
    {
      var digest := UniqueDigest(candidates, Digests(db.access));
      if digest.None? {
        return false;
      }
      db := db.(access := db.access[digest.value := Access(session, now + l.access, None)]);
      return true;
    }

    method IssueRefresh(l: Lifetimes, session: Id, family: Id, now: Time, candidates: seq<Id>) returns (ok: bool)
      requires session in db.sessions
      modifies this
      ensures ok <==> FirstFree(candidates, Digests(old(db).tokens)).Some?
      ensures db == if ok then WithRefresh(old(db), l, session, family, FirstFree(candidates, Digests(old(db).tokens)).value, now)
                    else old(db)
    {
      var expiresAt := RefreshExpiry(l, now, db.sessions[session]);
      var digest := UniqueDigest(candidates, Digests(db.tokens));
      if digest.None? {
        return false;
      }
      db := db.(tokens := db.tokens[digest.value := Token(session, family, expiresAt, ActiveToken, None, None)]);
      var s := db.sessions[session];
      db := db.(sessions := db.sessions[session := s.(family := family, refreshExpiresAt := expiresAt, lastUsedAt := now)]);
      return true;
    }

    /** Each of the three writes is a transaction of its own unless the caller has opened one. */
    method RevokeSession(session: Id, now: Time)
      requires session in db.sessions
      modifies this
      ensures db == Revoked(old(db), session, now)
    {
      var s := db.sessions[session];
      if s.revokedAt.None? || s.status != RevokedSession {
        s := s.(revokedAt := Some(now), status := RevokedSession);
      }
      db := db.(sessions := db.sessions[session := s]);
      db := db.(access := AccessRevoked(db.access, session, now));
      db := db.(tokens := TokensRevoked(db.tokens, session, now));
    }

    /** Marks what it finds expired, and whose user is not active, but raises right after. */
    method EnsureConsumable(digest: Id, now: Time) returns (ok: bool)
      requires digest in db.tokens && db.tokens[digest].session in db.sessions
      modifies this
      ensures ok == Consumable(old(db), old(db).tokens[digest], now)
      ensures db == Marked(old(db), digest, now)
      ensures ok ==> db == old(db)
    {
      var t := db.tokens[digest];
      var s := db.sessions[t.session];
      assert db.tokens[digest := t] == db.tokens && db.sessions[t.session := s] == db.sessions;
      if t.expiresAt <= now {
        if t.status != ExpiredToken {
          var revokedAt := if t.revokedAt.Some? then t.revokedAt else Some(now);
          db := db.(tokens := db.tokens[digest := t.(status := ExpiredToken, revokedAt := revokedAt)]);
        }
        return false;
      }
      if s.absoluteExpiresAt <= now || s.refreshExpiresAt <= now {
        if s.status != ExpiredSession {
          var revokedAt := if s.revokedAt.Some? then s.revokedAt else Some(now);
          db := db.(sessions := db.sessions[t.session := s.(status := ExpiredSession, revokedAt := revokedAt)]);
        }
        return false;
      }
      if s.revokedAt.Some? || s.status == RevokedSession {
        return false;
      }
      if s.user !in db.activeUsers {
        RevokeSession(t.session, now);
        return false;
      }
      return true;
    }

    method RefreshSession(l: Lifetimes, digest: Id, c: Clock, draws: Draws) returns (failure: Option<Failure>)
      modifies this
      ensures (db, failure) == Refreshed(old(db), l, digest, c, draws)
    {
      var saved := db;
      if digest !in db.tokens || db.tokens[digest].session !in db.sessions {
        return Some(InvalidToken);
      }
      var t := db.tokens[digest];
      if Reused(t) {
        RevokeSession(t.session, c.checkedAt);
        return Some(Reuse);
      }
      var consumable := EnsureConsumable(digest, c.checkedAt);
      if !consumable {
        db := saved;
        return Some(InvalidToken);
      }
      var s := db.sessions[t.session];
      db := db.(tokens := db.tokens[digest := t.(usedAt := Some(c.usedAt), status := UsedToken)]);
      db := db.(sessions := db.sessions[t.session := s.(lastUsedAt := c.touchedAt,
                                                        refreshExpiresAt := RefreshExpiry(l, c.touchedAt, s))]);
      assert Digests(db.tokens) == Digests(saved.tokens);
      var issued := IssueAccess(l, t.session, c.accessAt, draws.access);
      if issued {
        issued := IssueRefresh(l, t.session, t.family, c.issuedAt, draws.refresh);
      }
      if !issued {
        db := saved;
        return Some(NoUniqueDigest);
      }
      return None;
    }

    method CreateLoginSession(l: Lifetimes, user: Id, session: Id, family: Id, now: Time, accessAt: Time, issuedAt: Time,
                              draws: Draws)
      returns (failure: Option<Failure>)
      modifies this
      ensures match LoggedIn(old(db), l, user, session, family, now, accessAt, issuedAt, draws) {
                case Err(f) => failure == Some(f) && db == old(db)
                case Ok(next) => failure == None && db == next
              }
    {
      var saved := db;
      if user !in db.activeUsers {
        return Some(InvalidCredentials);
      }
      var absolute := now + l.session;
      db := db.(sessions := db.sessions[session := Session(user, ActiveSession, family, now, Min(now + l.refresh, absolute),
                                                           absolute, None)]);
      var issued := IssueAccess(l, session, accessAt, draws.access);
      if issued {
        issued := IssueRefresh(l, session, family, issuedAt, draws.refresh);
      }
      if !issued {
        db := saved;
        return Some(NoUniqueDigest);
      }
      return None;
    }
  }
}
