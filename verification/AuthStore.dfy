/** Sessions and refresh tokens: app/models/session.py,
    app/repositories/session.py, app/repositories/refresh_token.py and the
    refresh flow of app/services/auth.py and app/services/token.py.

    The database is its committed tables and the current ones, which hold the
    changes of the open transaction. Instants are in seconds. */
module AuthStore {
  import opened Wrappers

  type Time = real

  const DAY: Time := 86400.0
  const SESSION_ABSOLUTE_EXPIRY_DAYS := 30
  const MAX_TOKEN_DAYS := 30

  datatype Session = Session(
    userId: int, tenantId: int, createdAt: Time, revokedAt: Option<Time>, absoluteExpiry: Option<Time>)
  {
    predicate IsActive(now: Time) {
      if revokedAt.Some? then false
      else if absoluteExpiry.Some? then absoluteExpiry.value > now
      else true
    }
  }

  datatype RefreshToken = RefreshToken(
    sessionId: string, tokenHash: string, expiresAt: Time, usedAt: Option<Time>, replacedBy: Option<string>)
  {
    predicate IsValid(now: Time) {
      if usedAt.Some? then false else expiresAt > now
    }

    function MarkAsUsed(successor: string, now: Time): RefreshToken {
      this.(usedAt := Some(now), replacedBy := if successor != "" then Some(successor) else replacedBy)
    }
  }

  datatype Tables = Tables(sessions: map<string, Session>, tokens: map<string, RefreshToken>)

  datatype Db = Db(committed: Tables, current: Tables) {
    function With(t: Tables): Db { Db(committed, t) }
    function RolledBack(): Db { Db(committed, committed) }
  }

  datatype Op =
    | CreateSession(sid: string, userId: int, tenantId: int, days: Option<int>)
    | InvalidateSession(sessionId: Option<string>, owner: Option<int>)
    | InvalidateAllSessions(userId: int, exceptId: Option<string>)
    | CleanupSessions(olderThanDays: int, tenant: Option<int>)
    | StoreToken(jti: string, expiresAt: Time, sessionId: Option<string>, tokenHash: Option<string>)
    | RevokeToken(jti: string)
    | RevokeAllForUser(userId: int, tenant: Option<int>)
    | CleanupTokens
    | Refresh(oldJti: string, newJti: string, newExp: Time, newHash: string,
              blacklisted: bool, userActive: bool, userId: int, tenant: Option<int>)
    | Commit
    | Rollback

  datatype Result =
    | Done
    | Flag(b: bool)
    | Affected(rows: nat)
    | Refused           // the service returns None
    | ReplayDetected
    | ValueError
    | IntegrityError

  // ---------------------------------------------------------------- queries

  predicate TenantMatches(tenant: Option<int>, s: Session) {
    tenant.None? || s.tenantId == tenant.value
  }

  /** `get_active_sessions`: the unrevoked sessions of a user, by identifier. */
  function ActiveSessions(t: Tables, userId: int, tenant: Option<int>): set<string> {
    set s | s in t.sessions && t.sessions[s].userId == userId && t.sessions[s].revokedAt.None?
              && TenantMatches(tenant, t.sessions[s])
  }

  predicate IsSessionValid(t: Tables, sid: string) {
    sid in t.sessions && t.sessions[sid].revokedAt.None?
  }

  /** `RefreshTokenRepository.is_valid` */
  predicate TokenIsValid(t: Tables, jti: string, now: Time) {
    jti in t.tokens && t.tokens[jti].usedAt.None? && !(t.tokens[jti].expiresAt <= now)
  }

  /** The session identifiers of a user. */
  function SessionIds(t: Tables, userId: int, tenant: Option<int>): set<string> {
    set s | s in t.sessions && t.sessions[s].userId == userId && TenantMatches(tenant, t.sessions[s])
  }

  /** `get_by_user_id`, by identifier. */
  function TokensOfUser(t: Tables, userId: int, tenant: Option<int>, includeRevoked: bool, now: Time): set<string> {
    set j | j in t.tokens && t.tokens[j].sessionId in SessionIds(t, userId, tenant)
              && (includeRevoked || (t.tokens[j].usedAt.None? && t.tokens[j].expiresAt > now))
  }

  /** `TokenService.is_token_revoked` */
  predicate IsTokenRevoked(t: Tables, jti: string, blacklisted: bool, now: Time) {
    blacklisted || !TokenIsValid(t, jti, now)
  }

  /** `TokenService.detect_token_replay` */
  predicate DetectTokenReplay(t: Tables, jti: string) {
    jti in t.tokens && t.tokens[jti].usedAt.Some?
  }

  // ---------------------------------------------------------------- changes

  /** The rows a bulk `invalidate_all_sessions` updates. */
  function Invalidated(t: Tables, userId: int, exceptId: Option<string>): set<string> {
    set s | s in t.sessions && t.sessions[s].userId == userId && t.sessions[s].revokedAt.None?
              && (exceptId.None? || s != exceptId.value)
  }

  function RevokeSessions(t: Tables, sids: set<string>, now: Time): Tables {
    t.(sessions := map s | s in t.sessions ::
        if s in sids then t.sessions[s].(revokedAt := Some(now)) else t.sessions[s])
  }

  /** The sessions a `cleanup_expired` removes. */
  function Purgeable(t: Tables, days: int, tenant: Option<int>, now: Time): set<string> {
    set s | s in t.sessions && t.sessions[s].revokedAt.Some?
              && t.sessions[s].revokedAt.value < now - days as real * DAY && TenantMatches(tenant, t.sessions[s])
  }

  /** Deleting sessions; the foreign key of their tokens is ON DELETE CASCADE. */
  function DeleteSessions(t: Tables, sids: set<string>): Tables {
    Tables(t.sessions - sids, map j | j in t.tokens && t.tokens[j].sessionId !in sids :: t.tokens[j])
  }

  /** The tokens a `revoke_all_for_user` marks. */
  function Revocable(t: Tables, userId: int, tenant: Option<int>): set<string> {
    set j | j in t.tokens && t.tokens[j].sessionId in SessionIds(t, userId, tenant) && t.tokens[j].usedAt.None?
  }

  function UseTokens(t: Tables, jtis: set<string>, now: Time): Tables {
    t.(tokens := map j | j in t.tokens ::
        if j in jtis then t.tokens[j].(usedAt := Some(now)) else t.tokens[j])
  }

  function Expired(t: Tables, now: Time): set<string> {
    set j | j in t.tokens && t.tokens[j].expiresAt < now
  }

  /** The checks of `store_token`. A session id is None here when it is missing
      and when it is no UUID: both are a ValueError, which rolls nothing back. */
  predicate StoreArgumentsValid(sessionId: Option<string>, tokenHash: Option<string>) {
    if sessionId.None? then false
    else if tokenHash.None? then false
    else if tokenHash.value == "" then false
    else if tokenHash.value == "placeholder_hash" then false
    else |tokenHash.value| == 64
  }

  /** Primary key of refresh_tokens, and its foreign key to sessions. */
  predicate StoreConflicts(t: Tables, jti: string, sid: string) {
    jti in t.tokens || sid !in t.sessions
  }

  function StoreIn(db: Db, jti: string, expiresAt: Time, sessionId: Option<string>, tokenHash: Option<string>)
    : (Db, Result)
  {
    if !StoreArgumentsValid(sessionId, tokenHash) then (db, ValueError)
    else if StoreConflicts(db.current, jti, sessionId.value) then (db.RolledBack(), IntegrityError)
    else
      (db.With(db.current.(tokens := db.current.tokens[jti :=
         RefreshToken(sessionId.value, tokenHash.value, expiresAt, None, None)])), Done)
  }

  /** `store_refresh_token`, as the refresh flow calls it: a hard limit of 30
      days, then `store_token`. */
  function StoreViaService(db: Db, jti: string, expiresAt: Time, sid: string, tokenHash: string, now: Time)
    : (Db, Result) {
    var maxExpiry := now + MAX_TOKEN_DAYS as real * DAY;
    if expiresAt <= now then (db, ValueError)
    else StoreIn(db, jti, if expiresAt > maxExpiry then maxExpiry else expiresAt, Some(sid), Some(tokenHash))
  }

  function RefreshIn(db: Db, op: Op, now: Time): (Db, Result)
    requires op.Refresh?
  {
    var t := db.current;
    if IsTokenRevoked(t, op.oldJti, op.blacklisted, now) then (db, Refused)
    else if DetectTokenReplay(t, op.oldJti) then
      (db.With(UseTokens(t, Revocable(t, op.userId, op.tenant), now)), ReplayDetected)
    else
      var old' := t.tokens[op.oldJti];
      if !(old'.sessionId in t.sessions && t.sessions[old'.sessionId].IsActive(now)) then (db, Refused)
      else if !op.userActive then (db, Refused)
      else
        var rotated := t.(tokens := t.tokens[op.oldJti := old'.MarkAsUsed(op.newJti, now)]);
        StoreViaService(db.With(rotated), op.newJti, op.newExp, old'.sessionId, op.newHash, now)
  }

  function Step(db: Db, op: Op, now: Time): (Db, Result) {
    var t := db.current;
    match op
    case CreateSession(sid, userId, tenantId, days) =>
      if sid in t.sessions then (db.RolledBack(), IntegrityError)
      else
        var n := if days.Some? then days.value else SESSION_ABSOLUTE_EXPIRY_DAYS;
        (db.With(t.(sessions := t.sessions[sid := Session(userId, tenantId, now, None, Some(now + n as real * DAY))])),
         Done)
    case InvalidateSession(sid, owner) =>
      if sid.None? || sid.value !in t.sessions || (owner.Some? && t.sessions[sid.value].userId != owner.value)
      then (db, Flag(false))
      else (db.With(RevokeSessions(t, {sid.value}, now)), Flag(true))
    case InvalidateAllSessions(userId, exceptId) =>
      var sids := Invalidated(t, userId, exceptId);
      (db.With(RevokeSessions(t, sids, now)), Affected(|sids|))
    case CleanupSessions(days, tenant) =>
      var sids := Purgeable(t, days, tenant, now);
      (db.With(DeleteSessions(t, sids)), Affected(|sids|))
    case StoreToken(jti, expiresAt, sid, tokenHash) => StoreIn(db, jti, expiresAt, sid, tokenHash)
    case RevokeToken(jti) =>
      if jti in t.tokens then (db.With(UseTokens(t, {jti}, now)), Flag(true)) else (db, Flag(false))
    case RevokeAllForUser(userId, tenant) =>
      var jtis := Revocable(t, userId, tenant);
      (db.With(UseTokens(t, jtis, now)), Affected(|jtis|))
    case CleanupTokens =>
      var jtis := Expired(t, now);
      (db.With(t.(tokens := t.tokens - jtis)), Affected(|jtis|))
    case Refresh(_, _, _, _, _, _, _, _) => RefreshIn(db, op, now)
    case Commit => (Db(t, t), Done)
    case Rollback => (db.RolledBack(), Done)
  }

  // --------------------------------------------------------- implementation

  class Repositories {
    var committed: Tables
    var current: Tables

    function State(): Db
      reads this
    {
      Db(committed, current)
    }

    constructor ()
      ensures State() == Db(Tables(map[], map[]), Tables(map[], map[]))
    {
      committed := Tables(map[], map[]);
      current := Tables(map[], map[]);
    }

    method CreateSession(sid: string, userId: int, tenantId: int, days: Option<int>, now: Time) returns (r: Result)
      modifies this
      ensures (State(), r) == Step(old(State()), Op.CreateSession(sid, userId, tenantId, days), now)
    {
      var absoluteExpiryDays := SESSION_ABSOLUTE_EXPIRY_DAYS;
      if days.Some? {
        absoluteExpiryDays := days.value;
      }
      if sid in current.sessions {
        current := committed;
        return IntegrityError;
      }
      var absoluteExpiry := now + absoluteExpiryDays as real * DAY;
      current := current.(sessions := current.sessions[sid :=
        Session(userId, tenantId, now, None, Some(absoluteExpiry))]);
      r := Done;
    }

    method InvalidateSession(sessionId: Option<string>, owner: Option<int>, now: Time) returns (b: bool)
      modifies this
      ensures (State(), Flag(b)) == Step(old(State()), Op.InvalidateSession(sessionId, owner), now)
    {
      if sessionId.None? {
        return false;
      }
      var sid := sessionId.value;
      if sid !in current.sessions || (owner.Some? && current.sessions[sid].userId != owner.value) {
        return false;
      }
      current := current.(sessions := current.sessions[sid := current.sessions[sid].(revokedAt := Some(now))]);
      assert current == RevokeSessions(old(current), {sid}, now);
      b := true;
    }

    method RevokeToken(jti: string, now: Time) returns (b: bool)
      modifies this
      ensures (State(), Flag(b)) == Step(old(State()), Op.RevokeToken(jti), now)
    {
      if jti !in current.tokens {
        return false;
      }
      current := current.(tokens := current.tokens[jti := current.tokens[jti].(usedAt := Some(now))]);
      assert current == UseTokens(old(current), {jti}, now);
      b := true;
    }

    method RevokeAllForUser(userId: int, tenant: Option<int>, now: Time) returns (count: nat)
      modifies this
      ensures (State(), Affected(count)) == Step(old(State()), Op.RevokeAllForUser(userId, tenant), now)
    {
      var sessionIds := SessionIds(current, userId, tenant);
      if sessionIds == {} {
        assert Revocable(current, userId, tenant) == {};
        assert UseTokens(current, {}, now) == current;
        return 0;
      }
      var jtis := set j | j in current.tokens && current.tokens[j].sessionId in sessionIds
            && current.tokens[j].usedAt.None?;
      current := UseTokens(current, jtis, now);
      count := |jtis|;
    }

    method StoreToken(jti: string, expiresAt: Time, sessionId: Option<string>, tokenHash: Option<string>)
      returns (r: Result)
      modifies this
      ensures (State(), r) == StoreIn(old(State()), jti, expiresAt, sessionId, tokenHash)
    {
      if sessionId.None? || tokenHash.None? || tokenHash.value == "" {
        return ValueError;
      }
      if tokenHash.value == "placeholder_hash" || |tokenHash.value| != 64 {
        return ValueError;
      }
      var added := current.(tokens := current.tokens[jti :=
        RefreshToken(sessionId.value, tokenHash.value, expiresAt, None, None)]);
      if StoreConflicts(current, jti, sessionId.value) {
        current := committed;
        return IntegrityError;
      }
      current := added;
      r := Done;
    }

    /** `rotate_refresh_token` followed by `store_refresh_token`, behind the
        checks of the refresh flow. */
    method Refresh(op: Op, now: Time) returns (r: Result)
      requires op.Refresh?
      modifies this
      ensures (State(), r) == Step(old(State()), op, now)
    {
      if IsTokenRevoked(current, op.oldJti, op.blacklisted, now) {
        return Refused;
      }
      if DetectTokenReplay(current, op.oldJti) {
        // the source revokes every token of the user here; see ReplayBranchIsDead
        assert false;
      }
      var sid := current.tokens[op.oldJti].sessionId;
      if sid !in current.sessions || !current.sessions[sid].IsActive(now) || !op.userActive {
        return Refused;
      }
      current := current.(tokens := current.tokens[op.oldJti := current.tokens[op.oldJti].MarkAsUsed(op.newJti, now)]);
      if op.newExp <= now {
        return ValueError;
      }
      var maxExpiry := now + MAX_TOKEN_DAYS as real * DAY;
      var expiresAt := if op.newExp > maxExpiry then maxExpiry else op.newExp;
      r := StoreToken(op.newJti, expiresAt, Some(sid), Some(op.newHash));
    }
  }
}
