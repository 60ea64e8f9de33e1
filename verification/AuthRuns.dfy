/** What holds over whole runs of session and token operations. */
module AuthRuns {
  import opened Wrappers
  import opened AuthStore

  datatype Event = Event(op: Op, now: Time)

  function Run(db: Db, events: seq<Event>): Db
    decreases events
  {
    if events == [] then db else Run(Step(db, events[0].op, events[0].now).0, events[1..])
  }

  ghost predicate Clocked(start: Time, events: seq<Event>)
    decreases events
  {
    events == [] || (start <= events[0].now && Clocked(events[0].now, events[1..]))
  }

  /** The instant of the last event. */
  function EndOf(start: Time, events: seq<Event>): Time
    decreases events
  {
    if events == [] then start else EndOf(events[0].now, events[1..])
  }

  /** The operation throws the open transaction away. */
  predicate RollsBack(db: Db, op: Op, now: Time) {
    match op
    case Rollback => true
    case CreateSession(sid, _, _, _) => sid in db.current.sessions
    case StoreToken(jti, _, sid, tokenHash) =>
      StoreArgumentsValid(sid, tokenHash) && StoreConflicts(db.current, jti, sid.value)
    case Refresh(_, _, _, _, _, _, _, _) => RefreshConflicts(db.current, op, now)
    case _ => false
  }

  /** The refresh passes every check of the flow and of the store, and its new
      identifier is taken. */
  predicate RefreshConflicts(t: Tables, op: Op, now: Time)
    requires op.Refresh?
  {
    && Refreshable(t, op, now)
    && op.newExp > now
    && |op.newHash| == 64
    && op.newJti in t.tokens
  }

  /** That is exactly when the flow ends in an integrity error, the only case in
      which it rolls back. */
  lemma RefreshConflictsIff(db: Db, op: Op, now: Time)
    requires op.Refresh?
    ensures Step(db, op, now).1 == IntegrityError <==> RefreshConflicts(db.current, op, now)
    ensures RefreshConflicts(db.current, op, now) ==> Step(db, op, now).0 == db.RolledBack()
  {
  }

  ghost predicate NoRollback(db: Db, events: seq<Event>)
    decreases events
  {
    events == [] ||
    (!RollsBack(db, events[0].op, events[0].now)
     && NoRollback(Step(db, events[0].op, events[0].now).0, events[1..]))
  }

  lemma RollbackRestores(db: Db, op: Op, now: Time)
    requires RollsBack(db, op, now)
    ensures Step(db, op, now).0 == db.RolledBack()
  {
  }

  // ------------------------------------------------------------ finality

  /** No active session has this identifier. */
  predicate SessionDead(t: Tables, sid: string, now: Time) {
    sid in t.sessions ==> !t.sessions[sid].IsActive(now)
  }

  /** No valid token has this identifier. */
  predicate TokenDead(t: Tables, jti: string, now: Time) {
    jti in t.tokens ==> !t.tokens[jti].IsValid(now)
  }

  /** The operation hands the identifier out again. */
  predicate Recreates(op: Op, sid: string) {
    op.CreateSession? && op.sid == sid
  }

  predicate Reissues(op: Op, jti: string) {
    (op.StoreToken? && op.jti == jti) || (op.Refresh? && op.newJti == jti)
  }

  /** One step revives a dead session only by rolling its death back. */
  lemma SessionRevivesIff(db: Db, op: Op, sid: string, before: Time, now: Time)
    requires before <= now && !Recreates(op, sid)
    requires SessionDead(db.current, sid, before)
    ensures !SessionDead(Step(db, op, now).0.current, sid, now)
      <==> RollsBack(db, op, now) && !SessionDead(db.committed, sid, now)
  {
    if RollsBack(db, op, now) {
      RollbackRestores(db, op, now);
    }
  }

  lemma TokenRevivesIff(db: Db, op: Op, jti: string, before: Time, now: Time)
    requires before <= now && !Reissues(op, jti)
    requires TokenDead(db.current, jti, before)
    ensures !TokenDead(Step(db, op, now).0.current, jti, now)
      <==> RollsBack(db, op, now) && !TokenDead(db.committed, jti, now)
  {
    if RollsBack(db, op, now) {
      RollbackRestores(db, op, now);
    }
  }

  lemma DeathCommits(db: Db, op: Op, now: Time)
    ensures var after := Step(db, op, now).0;
      after.committed == db.committed || (op.Commit? && after.committed == db.current)
  {
  }

  /** A session once inactive never becomes active again: for ever if its death
      is committed, and until a rollback otherwise. */
  lemma {:induction false} SessionDeathIsFinal(db: Db, events: seq<Event>, sid: string, start: Time)
    requires Clocked(start, events)
    requires forall i :: 0 <= i < |events| ==> !Recreates(events[i].op, sid)
    requires SessionDead(db.current, sid, start)
    requires SessionDead(db.committed, sid, start) || NoRollback(db, events)
    ensures SessionDead(Run(db, events).current, sid, EndOf(start, events))
    decreases events
  {
    if events != [] {
      var op, now := events[0].op, events[0].now;
      SessionRevivesIff(db, op, sid, start, now);
      DeathCommits(db, op, now);
      SessionDeathIsFinal(Step(db, op, now).0, events[1..], sid, now);
    }
  }

  /** Likewise for a refresh token: used, revoked, deleted or expired is for good. */
  lemma {:induction false} TokenDeathIsFinal(db: Db, events: seq<Event>, jti: string, start: Time)
    requires Clocked(start, events)
    requires forall i :: 0 <= i < |events| ==> !Reissues(events[i].op, jti)
    requires TokenDead(db.current, jti, start)
    requires TokenDead(db.committed, jti, start) || NoRollback(db, events)
    ensures TokenDead(Run(db, events).current, jti, EndOf(start, events))
    decreases events
  {
    if events != [] {
      var op, now := events[0].op, events[0].now;
      TokenRevivesIff(db, op, jti, start, now);
      DeathCommits(db, op, now);
      TokenDeathIsFinal(Step(db, op, now).0, events[1..], jti, now);
    }
  }

  /** The rollback inside `store_token` can undo a logout that was not yet
      committed. */
  lemma LogoutUndoneByConflict(sid: string, jti: string, tokenHash: string, now: Time)
    returns (db: Db, events: seq<Event>)
    requires |tokenHash| == 64
    ensures events == [Event(InvalidateSession(Some(sid), None), now),
                       Event(StoreToken(jti, now, Some(sid), Some(tokenHash)), now)]
    ensures SessionDead(Step(db, events[0].op, now).0.current, sid, now)
    ensures !SessionDead(Run(db, events).current, sid, now)
  {
    var t := Tables(map[sid := Session(1, 1, now, None, None)],
                    map[jti := RefreshToken(sid, tokenHash, now, None, None)]);
    db := Db(t, t);
    events := [Event(InvalidateSession(Some(sid), None), now),
               Event(StoreToken(jti, now, Some(sid), Some(tokenHash)), now)];
    var mid := Step(db, events[0].op, now).0;
    assert events[1..] == [events[1]] && [events[1]][1..] == [];
    assert Run(db, events) == Run(mid, events[1..]) == Run(Step(mid, events[1].op, now).0, []);
  }

  // ---------------------------------------------------- single operations

  /** `revoke_token` answers whether the token is stored, and leaves it invalid
      for ever; it cannot be refreshed, and nothing else changes. */
  lemma RevokeTokenKills(db: Db, jti: string, now: Time, later: Time, refresh: Op)
    requires refresh.Refresh? && refresh.oldJti == jti
    ensures var (after, r) := Step(db, RevokeToken(jti), now);
      && r == Flag(jti in db.current.tokens)
      && !TokenIsValid(after.current, jti, later)
      && Step(after, refresh, later) == (after, Refused)
      && after.committed == db.committed && after.current.sessions == db.current.sessions
      && after.current.tokens.Keys == db.current.tokens.Keys
      && (forall j :: j in db.current.tokens && j != jti ==> after.current.tokens[j] == db.current.tokens[j])
  {
  }

  /** A created session is active until its absolute expiry, 30 days on unless
      given, and unrevoked; nothing else changes. */
  lemma CreatedSessionLives(db: Db, sid: string, userId: int, tenantId: int, days: Option<int>, now: Time, later: Time)
    requires sid !in db.current.sessions
    ensures var (after, r) := Step(db, CreateSession(sid, userId, tenantId, days), now);
      && r == Done && after.committed == db.committed && after.current.tokens == db.current.tokens
      && IsSessionValid(after.current, sid)
      && sid in ActiveSessions(after.current, userId, None)
      && sid in ActiveSessions(after.current, userId, Some(tenantId))
      && (!SessionDead(after.current, sid, later)
          <==> later < now + (if days.Some? then days.value as real else 30.0) * 86400.0)
      && after.current.sessions.Keys == db.current.sessions.Keys + {sid}
      && (forall s :: s in db.current.sessions ==> after.current.sessions[s] == db.current.sessions[s])
  {
  }

  /** `invalidate_session` answers whether the session exists and belongs to the
      user given; then, and only then, it ends it, and nothing else changes. */
  lemma InvalidatedSessionDies(db: Db, sid: string, owner: Option<int>, now: Time, later: Time)
    ensures var (t, after, r) := (db.current, Step(db, InvalidateSession(Some(sid), owner), now).0,
                                  Step(db, InvalidateSession(Some(sid), owner), now).1);
      && (r == Flag(true) <==> sid in t.sessions && (owner.Some? ==> t.sessions[sid].userId == owner.value))
      && (r == Flag(true) || (r == Flag(false) && after == db))
      && (r == Flag(true) ==> SessionDead(after.current, sid, later) && !IsSessionValid(after.current, sid))
      && after.committed == db.committed && after.current.tokens == t.tokens
      && after.current.sessions.Keys == t.sessions.Keys
      && (forall s :: s in t.sessions && s != sid ==> after.current.sessions[s] == t.sessions[s])
  {
  }

  /** `cleanup_expired` of sessions deletes those revoked more than so many days
      ago, in the tenant if given, with their tokens, and nothing else. */
  lemma SessionCleanupDeletes(db: Db, days: int, tenant: Option<int>, now: Time, sid: string, jti: string)
    ensures var (t, after) := (db.current, Step(db, CleanupSessions(days, tenant), now).0);
      && after.committed == db.committed
      && (sid in t.sessions && sid !in after.current.sessions
          <==> sid in t.sessions && t.sessions[sid].revokedAt.Some?
               && now - t.sessions[sid].revokedAt.value > days as real * 86400.0
               && (tenant.Some? ==> t.sessions[sid].tenantId == tenant.value))
      && (sid in after.current.sessions ==> sid in t.sessions && after.current.sessions[sid] == t.sessions[sid])
      && (jti in after.current.tokens ==> jti in t.tokens && after.current.tokens[jti] == t.tokens[jti])
      && (jti in t.tokens && t.tokens[jti].sessionId in t.sessions ==>
            (jti in after.current.tokens <==> t.tokens[jti].sessionId in after.current.sessions))
  {
  }

  /** A stored token is valid until it expires; a missing or malformed argument
      changes nothing; and a taken identifier or unknown session loses the open
      transaction. */
  lemma StoredTokenLives(
      db: Db, jti: string, expiresAt: Time, sid: Option<string>, hash: Option<string>, now: Time, later: Time)
    ensures var (after, r) := Step(db, StoreToken(jti, expiresAt, sid, hash), now);
      && (r == ValueError <==> sid.None? || hash.None? || |hash.value| != 64)
      && (r == ValueError ==> after == db)
      && (r == IntegrityError <==> r != ValueError && (jti in db.current.tokens || sid.value !in db.current.sessions))
      && (r == IntegrityError ==> after.current == after.committed == db.committed)
      && (r != ValueError && r != IntegrityError ==>
            && r == Done && after.committed == db.committed && after.current.sessions == db.current.sessions
            && after.current.tokens.Keys == db.current.tokens.Keys + {jti}
            && after.current.tokens[jti].sessionId == sid.value && after.current.tokens[jti].replacedBy == None
            && (TokenIsValid(after.current, jti, later) <==> later < expiresAt)
            && forall j :: j in db.current.tokens ==> after.current.tokens[j] == db.current.tokens[j])
  {
  }

  /** The token cleanup deletes exactly the expired tokens. */
  lemma TokenCleanupDeletes(db: Db, now: Time, jti: string)
    ensures var (t, after) := (db.current, Step(db, CleanupTokens, now).0);
      && after.committed == db.committed && after.current.sessions == t.sessions
      && (jti in after.current.tokens <==> jti in t.tokens && t.tokens[jti].expiresAt >= now)
      && (jti in after.current.tokens ==> after.current.tokens[jti] == t.tokens[jti])
  {
  }

  /** The session is one of the user's, in the tenant if given. */
  predicate IsSessionOf(t: Tables, sid: string, userId: int, tenant: Option<int>) {
    sid in t.sessions && t.sessions[sid].userId == userId
    && (tenant.Some? ==> t.sessions[sid].tenantId == tenant.value)
  }

  /** `get_active_sessions` answers with the user's unrevoked sessions, and
      `get_by_user_id` with the tokens of the user's sessions, or only those
      neither used nor expired. */
  lemma QueriesOfUser(
      t: Tables, userId: int, tenant: Option<int>, includeRevoked: bool, now: Time, sid: string, jti: string)
    ensures sid in ActiveSessions(t, userId, tenant)
      <==> IsSessionOf(t, sid, userId, tenant) && t.sessions[sid].revokedAt == None
    ensures jti in TokensOfUser(t, userId, tenant, includeRevoked, now)
      <==> jti in t.tokens && IsSessionOf(t, t.tokens[jti].sessionId, userId, tenant)
           && (!includeRevoked ==> t.tokens[jti].usedAt == None && now < t.tokens[jti].expiresAt)
  {
  }

  /** After `revoke_all_for_user`, none of the user's tokens is valid and
      `get_by_user_id` returns nothing, now and later. It answers with how many
      it marked; no other token is touched, and nothing else. */
  lemma RevokeAllLeavesNothing(db: Db, userId: int, tenant: Option<int>, now: Time, later: Time)
    ensures var (t, after) := (db.current, Step(db, RevokeAllForUser(userId, tenant), now).0);
      && TokensOfUser(after.current, userId, tenant, false, later) == {}
      && (forall j :: j in t.tokens && IsSessionOf(t, t.tokens[j].sessionId, userId, tenant) ==>
            TokenDead(after.current, j, later))
      && (forall j :: j in t.tokens && !IsSessionOf(t, t.tokens[j].sessionId, userId, tenant) ==>
            after.current.tokens[j] == t.tokens[j])
      && after.current.tokens.Keys == t.tokens.Keys
      && after.current.sessions == t.sessions && after.committed == db.committed
  {
    var t := Step(db, RevokeAllForUser(userId, tenant), now).0.current;
    assert SessionIds(t, userId, tenant) == SessionIds(db.current, userId, tenant);
  }

  /** `invalidate_all_sessions` leaves a user the excepted session at most, and
      every other session, of this user or another, as it was. */
  lemma InvalidateAllLeavesExcepted(
      db: Db, userId: int, exceptId: Option<string>, other: int, tenant: Option<int>, now: Time, sid: string)
    requires other != userId
    ensures var (t, after) := (db.current, Step(db, InvalidateAllSessions(userId, exceptId), now).0.current);
      && after.tokens == t.tokens && after.sessions.Keys == t.sessions.Keys
      && (sid in ActiveSessions(after, other, tenant) <==> sid in ActiveSessions(t, other, tenant))
      && (sid in ActiveSessions(after, userId, tenant)
          <==> sid in ActiveSessions(t, userId, tenant) && exceptId == Some(sid))
      && (sid in t.sessions ==> SameSession(t.sessions[sid], after.sessions[sid]))
      && (sid in t.sessions && (t.sessions[sid].revokedAt.Some? || exceptId == Some(sid)) ==>
            after.sessions[sid] == t.sessions[sid])
  {
  }

  /** Referential integrity: every token belongs to an existing session. */
  ghost predicate Integrity(t: Tables) {
    forall j :: j in t.tokens ==> t.tokens[j].sessionId in t.sessions
  }

  lemma StepKeepsIntegrity(db: Db, op: Op, now: Time)
    requires Integrity(db.current) && Integrity(db.committed)
    ensures var after := Step(db, op, now).0; Integrity(after.current) && Integrity(after.committed)
  {
    if RollsBack(db, op, now) {
      RollbackRestores(db, op, now);
    }
  }

  /** None of the user's tokens can be refreshed. */
  ghost predicate LoggedOut(t: Tables, userId: int, tenant: Option<int>, now: Time) {
    forall j :: j in t.tokens && t.tokens[j].sessionId in SessionIds(t, userId, tenant) ==> TokenDead(t, j, now)
  }

  predicate LogsIn(t: Tables, op: Op, userId: int, tenant: Option<int>) {
    op.StoreToken? && op.sessionId.Some? && op.sessionId.value in SessionIds(t, userId, tenant)
  }

  ghost predicate NoLogin(db: Db, events: seq<Event>, userId: int, tenant: Option<int>)
    decreases events
  {
    events == [] ||
    (!LogsIn(db.current, events[0].op, userId, tenant)
     && NoLogin(Step(db, events[0].op, events[0].now).0, events[1..], userId, tenant))
  }

  lemma StepKeepsLoggedOut(db: Db, op: Op, userId: int, tenant: Option<int>, before: Time, now: Time)
    requires before <= now && Integrity(db.current)
    requires LoggedOut(db.current, userId, tenant, before)
    requires !LogsIn(db.current, op, userId, tenant) && !RollsBack(db, op, now)
    ensures LoggedOut(Step(db, op, now).0.current, userId, tenant, now)
  {
    var t, t' := db.current, Step(db, op, now).0.current;
    forall j | j in t'.tokens && t'.tokens[j].sessionId in SessionIds(t', userId, tenant)
      ensures TokenDead(t', j, now) {
      if j in t.tokens {
        assert t.tokens[j].sessionId in SessionIds(t, userId, tenant);
        assert TokenDead(t, j, before);
      }
    }
  }

  /** A user whose tokens were all revoked stays logged out, through any run,
      until someone stores a token for one of their sessions: rotation cannot
      bring them back. */
  lemma {:induction false} StaysLoggedOut(db: Db, events: seq<Event>, userId: int, tenant: Option<int>, start: Time)
    requires Clocked(start, events) && NoRollback(db, events)
    requires Integrity(db.current) && Integrity(db.committed)
    requires LoggedOut(db.current, userId, tenant, start) && NoLogin(db, events, userId, tenant)
    ensures TokensOfUser(Run(db, events).current, userId, tenant, false, EndOf(start, events)) == {}
    decreases events
  {
    if events != [] {
      var op, now := events[0].op, events[0].now;
      StepKeepsIntegrity(db, op, now);
      StepKeepsLoggedOut(db, op, userId, tenant, start, now);
      StaysLoggedOut(Step(db, op, now).0, events[1..], userId, tenant, now);
    }
  }

  // -------------------------------------------------------- refresh flow

  /** The flow asks `is_token_revoked`, which is true of every used token,
      before `detect_token_replay`: the branch that answers a replay by revoking
      the user's tokens is never taken. */
  lemma ReplayBranchIsDead(t: Tables, jti: string, blacklisted: bool, now: Time)
    ensures !IsTokenRevoked(t, jti, blacklisted, now) ==> !DetectTokenReplay(t, jti)
  {
  }

  /** So presenting a used token a second time is refused and changes nothing;
      in particular its successor stays as valid as it was. */
  lemma ReuseIsRefused(db: Db, op: Op, now: Time)
    requires op.Refresh? && DetectTokenReplay(db.current, op.oldJti)
    ensures Step(db, op, now) == (db, Refused)
  {
    ReplayBranchIsDead(db.current, op.oldJti, op.blacklisted, now);
  }

  /** What never changes about a session while it exists. */
  predicate SameSession(a: Session, b: Session) {
    a.userId == b.userId && a.tenantId == b.tenantId
    && a.createdAt == b.createdAt && a.absoluteExpiry == b.absoluteExpiry
  }

  /** Wherever the session appears, it is the one `s` describes. */
  predicate IsSession(db: Db, sid: string, s: Session) {
    && (sid in db.committed.sessions ==> SameSession(db.committed.sessions[sid], s))
    && (sid in db.current.sessions ==> SameSession(db.current.sessions[sid], s))
  }

  lemma StepKeepsSession(db: Db, op: Op, now: Time, sid: string, s: Session)
    requires IsSession(db, sid, s) && !Recreates(op, sid)
    ensures IsSession(Step(db, op, now).0, sid, s)
  {
  }

  /** The absolute expiry set at creation is a hard limit: however often the
      tokens are rotated, no refresh succeeds for the session at or after it. */
  lemma {:induction false} NoRefreshAfterAbsoluteExpiry(
      db: Db, events: seq<Event>, sid: string, s: Session, refresh: Op, now: Time)
    requires IsSession(db, sid, s) && s.absoluteExpiry.Some?
    requires forall i :: 0 <= i < |events| ==> !Recreates(events[i].op, sid)
    requires var t := Run(db, events).current;
      refresh.Refresh? && refresh.oldJti in t.tokens && t.tokens[refresh.oldJti].sessionId == sid
    requires Step(Run(db, events), refresh, now).1 == Done
    ensures now < s.absoluteExpiry.value
    decreases events
  {
    if events != [] {
      StepKeepsSession(db, events[0].op, events[0].now, sid, s);
      NoRefreshAfterAbsoluteExpiry(Step(db, events[0].op, events[0].now).0, events[1..], sid, s, refresh, now);
    }
  }

  /** A refresh that succeeds consumes exactly the old token, names its
      successor, and stores the successor in the same session, until the expiry
      asked for or 30 days on, whichever comes first. */
  lemma RefreshSucceeds(db: Db, op: Op, now: Time)
    requires op.Refresh? && Step(db, op, now).1 == Done
    ensures var before, after := db.current, Step(db, op, now).0.current;
      && before.sessions == after.sessions && Step(db, op, now).0.committed == db.committed
      && op.oldJti in before.tokens && before.tokens[op.oldJti].IsValid(now) && op.newJti !in before.tokens
      && after.tokens.Keys == before.tokens.Keys + {op.newJti}
      && !after.tokens[op.oldJti].IsValid(now) && after.tokens[op.newJti].IsValid(now)
      && (op.newJti != "" ==> after.tokens[op.oldJti].replacedBy == Some(op.newJti))
      && after.tokens[op.newJti].sessionId == before.tokens[op.oldJti].sessionId
      && after.tokens[op.newJti].expiresAt == (if op.newExp > now + 2592000.0 then now + 2592000.0 else op.newExp)
      && after.tokens[op.newJti].tokenHash == op.newHash
      && (forall j :: j in before.tokens && j != op.oldJti ==> after.tokens[j] == before.tokens[j])
  {
  }

  // ------------------------------------------------------ session cleanup

  /** `pruned` is `full` without some revoked sessions and tokens of revoked
      sessions. */
  ghost predicate Pruned(pruned: Tables, full: Tables) {
    && pruned.sessions.Keys <= full.sessions.Keys
    && (forall s :: s in pruned.sessions ==> pruned.sessions[s] == full.sessions[s])
    && (forall s :: s in full.sessions && full.sessions[s].revokedAt.None? ==> s in pruned.sessions)
    && pruned.tokens.Keys <= full.tokens.Keys
    && (forall j :: j in pruned.tokens ==> pruned.tokens[j] == full.tokens[j])
    && (forall j :: j in full.tokens && IsSessionValid(full, full.tokens[j].sessionId) ==> j in pruned.tokens)
    && Integrity(pruned) && Integrity(full)
  }

  /** Identifiers handed out are new. */
  predicate FreshIds(t: Tables, op: Op) {
    match op
    case CreateSession(sid, _, _, _) => sid !in t.sessions
    case StoreToken(jti, _, _, _) => jti !in t.tokens
    case Refresh(_, newJti, _, _, _, _, _, _) => newJti !in t.tokens
    case _ => true
  }

  /** The step of a run from which the session cleanups are deleted. */
  function StepUncleaned(db: Db, e: Event): (Db, Result) {
    if e.op.CleanupSessions? then (db, Done) else Step(db, e.op, e.now)
  }

  function RunUncleaned(db: Db, events: seq<Event>): Db
    decreases events
  {
    if events == [] then db else RunUncleaned(StepUncleaned(db, events[0]).0, events[1..])
  }

  ghost predicate AllFresh(db: Db, events: seq<Event>)
    decreases events
  {
    events == [] || (FreshIds(db.current, events[0].op) && AllFresh(StepUncleaned(db, events[0]).0, events[1..]))
  }

  /** A token is stored for a session that only a cleanup has removed. */
  predicate Diverges(a: Db, b: Db, op: Op) {
    && op.StoreToken? && StoreArgumentsValid(op.sessionId, op.tokenHash)
    && op.sessionId.value in b.current.sessions && op.sessionId.value !in a.current.sessions
  }

  lemma CleanupPrunes(pruned: Tables, full: Tables, sids: set<string>)
    requires Pruned(pruned, full)
    requires forall s :: s in sids ==> s in pruned.sessions && pruned.sessions[s].revokedAt.Some?
    ensures Pruned(DeleteSessions(pruned, sids), full)
  {
  }

  /** A token that only the full tables hold cannot be refreshed. */
  lemma PrunedTokenIsRefused(a: Db, b: Db, op: Op, now: Time)
    requires Pruned(a.current, b.current) && op.Refresh?
    requires op.oldJti in b.current.tokens && op.oldJti !in a.current.tokens
    ensures Step(a, op, now) == (a, Refused) && Step(b, op, now) == (b, Refused)
  {
    var f := b.current;
    assert !IsSessionValid(f, f.tokens[op.oldJti].sessionId);
  }

  /** Marking a token both tables hold. */
  lemma RotationOnPruned(p: Tables, f: Tables, op: Op, now: Time)
    requires Pruned(p, f) && op.Refresh? && op.oldJti in p.tokens
    ensures Pruned(Marked(p, op, now), Marked(f, op, now))
  {
  }

  lemma NewTokenOnPruned(p: Tables, f: Tables, jti: string, token: RefreshToken)
    requires Pruned(p, f) && token.sessionId in p.sessions
    ensures Pruned(p.(tokens := p.tokens[jti := token]), f.(tokens := f.tokens[jti := token]))
  {
  }

  /** The service's store gives the same result on pruned tables. */
  lemma StoreViaServiceOnPruned(
      a: Db, b: Db, jti: string, expiresAt: Time, sid: string, tokenHash: string, now: Time)
    requires Pruned(a.current, b.current) && sid in a.current.sessions && jti !in b.current.tokens
    ensures var (x, y) := (StoreViaService(a, jti, expiresAt, sid, tokenHash, now),
                           StoreViaService(b, jti, expiresAt, sid, tokenHash, now));
      && x.1 == y.1 && x.1 != IntegrityError && Pruned(x.0.current, y.0.current)
      && x.0.committed == a.committed && y.0.committed == b.committed
  {
    var maxExpiry := now + MAX_TOKEN_DAYS as real * DAY;
    var expiry := if expiresAt > maxExpiry then maxExpiry else expiresAt;
    NewTokenOnPruned(a.current, b.current, jti, RefreshToken(sid, tokenHash, expiry, None, None));
  }

  /** The refresh flow takes the same decisions on pruned tables. */
  lemma RefreshOnPruned(a: Db, b: Db, op: Op, now: Time)
    requires Pruned(a.current, b.current) && op.Refresh? && FreshIds(b.current, op)
    ensures Step(a, op, now).1 == Step(b, op, now).1
    ensures Pruned(Step(a, op, now).0.current, Step(b, op, now).0.current)
    ensures Step(a, op, now).0.committed == a.committed && Step(b, op, now).0.committed == b.committed
  {
    var p, f := a.current, b.current;
    if op.oldJti in f.tokens && op.oldJti !in p.tokens {
      PrunedTokenIsRefused(a, b, op, now);
    } else if op.oldJti in p.tokens {
      HeldTokenOnPruned(a, b, op, now);
    }
  }

  lemma HeldTokenOnPruned(a: Db, b: Db, op: Op, now: Time)
    requires Pruned(a.current, b.current) && op.Refresh? && FreshIds(b.current, op)
    requires op.oldJti in a.current.tokens
    ensures Step(a, op, now).1 == Step(b, op, now).1
    ensures Pruned(Step(a, op, now).0.current, Step(b, op, now).0.current)
    ensures Step(a, op, now).0.committed == a.committed && Step(b, op, now).0.committed == b.committed
  {
    var sid := b.current.tokens[op.oldJti].sessionId;
    assert sid in a.current.sessions && a.current.sessions[sid] == b.current.sessions[sid];
    if Refreshable(b.current, op, now) {
      RotationStoresAlike(a, b, op, now);
    } else {
      RefusedUnless(a, op, now);
      RefusedUnless(b, op, now);
    }
  }

  /** The checks of the refresh flow. */
  predicate Refreshable(t: Tables, op: Op, now: Time)
    requires op.Refresh?
  {
    && !op.blacklisted && op.userActive
    && op.oldJti in t.tokens && t.tokens[op.oldJti].IsValid(now)
    && t.tokens[op.oldJti].sessionId in t.sessions && t.sessions[t.tokens[op.oldJti].sessionId].IsActive(now)
  }

  lemma RefusedUnless(db: Db, op: Op, now: Time)
    requires op.Refresh? && !Refreshable(db.current, op, now)
    ensures Step(db, op, now) == (db, Refused)
  {
  }

  /** The tables with the old token marked. */
  function Marked(t: Tables, op: Op, now: Time): Tables
    requires op.Refresh? && op.oldJti in t.tokens
  {
    t.(tokens := t.tokens[op.oldJti := t.tokens[op.oldJti].MarkAsUsed(op.newJti, now)])
  }

  lemma RotationStores(db: Db, op: Op, now: Time)
    requires op.Refresh? && Refreshable(db.current, op, now)
    ensures Step(db, op, now)
         == StoreViaService(db.With(Marked(db.current, op, now)), op.newJti, op.newExp,
                            db.current.tokens[op.oldJti].sessionId, op.newHash, now)
  {
  }

  lemma RotationStoresAlike(a: Db, b: Db, op: Op, now: Time)
    requires Pruned(a.current, b.current) && op.Refresh? && FreshIds(b.current, op)
    requires op.oldJti in a.current.tokens && Refreshable(b.current, op, now)
    ensures Step(a, op, now).1 == Step(b, op, now).1
    ensures Pruned(Step(a, op, now).0.current, Step(b, op, now).0.current)
    ensures Step(a, op, now).0.committed == a.committed && Step(b, op, now).0.committed == b.committed
  {
    RotationStores(a, op, now);
    RotationStores(b, op, now);
    RotationOnPruned(a.current, b.current, op, now);
    StoreViaServiceOnPruned(a.With(Marked(a.current, op, now)), b.With(Marked(b.current, op, now)),
                            op.newJti, op.newExp, b.current.tokens[op.oldJti].sessionId, op.newHash, now);
  }

  lemma RevokeSessionsPruned(p: Tables, f: Tables, ps: set<string>, fs: set<string>, now: Time)
    requires Pruned(p, f)
    requires forall s :: s in p.sessions ==> (s in ps <==> s in fs)
    ensures Pruned(RevokeSessions(p, ps, now), RevokeSessions(f, fs, now))
  {
  }

  lemma UseTokensPruned(p: Tables, f: Tables, pt: set<string>, ft: set<string>, now: Time)
    requires Pruned(p, f)
    requires forall j :: j in p.tokens ==> (j in pt <==> j in ft)
    ensures Pruned(UseTokens(p, pt, now), UseTokens(f, ft, now))
  {
  }

  lemma InvalidateOnPruned(a: Db, b: Db, op: Op, now: Time)
    requires Pruned(a.current, b.current) && op.InvalidateSession?
    ensures Pruned(Step(a, op, now).0.current, Step(b, op, now).0.current)
  {
    var p, f := a.current, b.current;
    if op.sessionId.Some? {
      var sid := op.sessionId.value;
      if sid in p.sessions {
        RevokeSessionsPruned(p, f, {sid}, {sid}, now);
      } else {
        RevokeMissing(p, f, sid, now);
      }
    }
  }

  /** Revoking again a session that only the full tables hold. */
  lemma RevokeMissing(p: Tables, f: Tables, sid: string, now: Time)
    requires Pruned(p, f) && sid !in p.sessions
    ensures Pruned(p, RevokeSessions(f, {sid}, now))
  {
  }

  lemma InvalidateAllOnPruned(a: Db, b: Db, op: Op, now: Time)
    requires Pruned(a.current, b.current) && op.InvalidateAllSessions?
    ensures Pruned(Step(a, op, now).0.current, Step(b, op, now).0.current)
  {
    RevokeSessionsPruned(a.current, b.current, Invalidated(a.current, op.userId, op.exceptId),
                         Invalidated(b.current, op.userId, op.exceptId), now);
  }

  lemma RevokeAllOnPruned(a: Db, b: Db, op: Op, now: Time)
    requires Pruned(a.current, b.current) && op.RevokeAllForUser?
    ensures Pruned(Step(a, op, now).0.current, Step(b, op, now).0.current)
  {
    UseTokensPruned(a.current, b.current, Revocable(a.current, op.userId, op.tenant),
                    Revocable(b.current, op.userId, op.tenant), now);
  }

  lemma RevokeTokenOnPruned(a: Db, b: Db, op: Op, now: Time)
    requires Pruned(a.current, b.current) && op.RevokeToken?
    ensures Pruned(Step(a, op, now).0.current, Step(b, op, now).0.current)
  {
    if op.jti in a.current.tokens {
      UseTokensPruned(a.current, b.current, {op.jti}, {op.jti}, now);
    } else {
      UseMissing(a.current, b.current, op.jti, now);
    }
  }

  /** Marking a token that only the full tables hold. */
  lemma UseMissing(p: Tables, f: Tables, jti: string, now: Time)
    requires Pruned(p, f) && jti !in p.tokens
    ensures Pruned(p, UseTokens(f, {jti}, now))
  {
  }

  lemma StoreStaysPruned(a: Db, b: Db, op: Op, now: Time)
    requires Pruned(a.current, b.current) && Pruned(a.committed, b.committed)
    requires op.StoreToken? && FreshIds(b.current, op) && !Diverges(a, b, op)
    ensures Step(a, op, now).1 == Step(b, op, now).1
    ensures Pruned(Step(a, op, now).0.current, Step(b, op, now).0.current)
    ensures Pruned(Step(a, op, now).0.committed, Step(b, op, now).0.committed)
  {
    if StoreArgumentsValid(op.sessionId, op.tokenHash) && op.sessionId.value in a.current.sessions {
      var token := RefreshToken(op.sessionId.value, op.tokenHash.value, op.expiresAt, None, None);
      NewTokenOnPruned(a.current, b.current, op.jti, token);
    }
  }

  /** A step that does not diverge keeps the tables alike, and its answer. */
  lemma StepsStayPruned(a: Db, b: Db, e: Event)
    requires Pruned(a.current, b.current) && Pruned(a.committed, b.committed)
    requires FreshIds(b.current, e.op) && !Diverges(a, b, e.op)
    ensures Pruned(Step(a, e.op, e.now).0.current, StepUncleaned(b, e).0.current)
    ensures Pruned(Step(a, e.op, e.now).0.committed, StepUncleaned(b, e).0.committed)
    ensures e.op.StoreToken? || e.op.Refresh? ==> Step(a, e.op, e.now).1 == StepUncleaned(b, e).1
  {
    var op, now := e.op, e.now;
    match op
    case CleanupSessions(days, tenant) => CleanupPrunes(a.current, b.current, Purgeable(a.current, days, tenant, now));
    case StoreToken(_, _, _, _) => StoreStaysPruned(a, b, op, now);
    case Refresh(_, _, _, _, _, _, _, _) => RefreshOnPruned(a, b, op, now);
    case InvalidateSession(_, _) => InvalidateOnPruned(a, b, op, now);
    case InvalidateAllSessions(_, _) => InvalidateAllOnPruned(a, b, op, now);
    case RevokeAllForUser(_, _) => RevokeAllOnPruned(a, b, op, now);
    case RevokeToken(_) => RevokeTokenOnPruned(a, b, op, now);
    case _ => OthersStayPruned(a, b, op, now);
  }

  lemma OthersStayPruned(a: Db, b: Db, op: Op, now: Time)
    requires Pruned(a.current, b.current) && Pruned(a.committed, b.committed) && FreshIds(b.current, op)
    requires op.CreateSession? || op.CleanupTokens? || op.Commit? || op.Rollback?
    ensures Pruned(Step(a, op, now).0.current, Step(b, op, now).0.current)
    ensures Pruned(Step(a, op, now).0.committed, Step(b, op, now).0.committed)
  {
  }

  /** What `get_active_sessions` and `is_session_valid` can see of pruned tables. */
  lemma PrunedLooksFull(pruned: Tables, full: Tables, userId: int, tenant: Option<int>, sid: string)
    requires Pruned(pruned, full)
    ensures ActiveSessions(pruned, userId, tenant) == ActiveSessions(full, userId, tenant)
    ensures IsSessionValid(pruned, sid) <==> IsSessionValid(full, sid)
  {
  }

  /** Every answer of `get_active_sessions`, with its rows, and of
      `is_session_valid`. */
  ghost predicate LookAlike(x: Tables, y: Tables) {
    && (forall userId, tenant :: ActiveSessions(x, userId, tenant) == ActiveSessions(y, userId, tenant))
    && (forall sid :: sid in x.sessions && sid in y.sessions ==> x.sessions[sid] == y.sessions[sid])
    && (forall sid :: IsSessionValid(x, sid) <==> IsSessionValid(y, sid))
  }

  lemma PrunedLookAlike(pruned: Tables, full: Tables)
    requires Pruned(pruned, full)
    ensures LookAlike(pruned, full)
  {
    forall userId, tenant ensures ActiveSessions(pruned, userId, tenant) == ActiveSessions(full, userId, tenant) {
      PrunedLooksFull(pruned, full, userId, tenant, "");
    }
    forall sid ensures IsSessionValid(pruned, sid) <==> IsSessionValid(full, sid) {
      PrunedLooksFull(pruned, full, 0, None, sid);
    }
  }

  /** What a caller sees of one event: the result of a store or a refresh, and
      then every answer about sessions. */
  ghost predicate SeenAlike(a: Db, b: Db, e: Event) {
    && LookAlike(Step(a, e.op, e.now).0.current, StepUncleaned(b, e).0.current)
    && (e.op.StoreToken? || e.op.Refresh? ==> Step(a, e.op, e.now).1 == StepUncleaned(b, e).1)
  }

  ghost predicate AlwaysSeenAlike(a: Db, b: Db, events: seq<Event>)
    decreases events
  {
    events == [] ||
    (SeenAlike(a, b, events[0])
     && AlwaysSeenAlike(Step(a, events[0].op, events[0].now).0, StepUncleaned(b, events[0]).0, events[1..]))
  }

  ghost predicate NeverDiverges(a: Db, b: Db, events: seq<Event>)
    decreases events
  {
    events == [] ||
    (!Diverges(a, b, events[0].op)
     && NeverDiverges(Step(a, events[0].op, events[0].now).0, StepUncleaned(b, events[0]).0, events[1..]))
  }

  /** A divergence shows in the result: the store fails on the missing session. */
  lemma DivergenceShows(a: Db, b: Db, e: Event)
    requires Diverges(a, b, e.op) && FreshIds(b.current, e.op)
    ensures Step(a, e.op, e.now).1 == IntegrityError && StepUncleaned(b, e).1 == Done
  {
  }

  /** With new identifiers, deleting every session cleanup from a run changes
      nothing a caller sees of it, event by event, if and only if no token is
      stored for a session that a cleanup has removed. */
  lemma {:induction false} SessionCleanupUnobservableIff(a: Db, b: Db, events: seq<Event>)
    requires Pruned(a.current, b.current) && Pruned(a.committed, b.committed) && AllFresh(b, events)
    ensures AlwaysSeenAlike(a, b, events) <==> NeverDiverges(a, b, events)
    ensures NeverDiverges(a, b, events) ==> Pruned(Run(a, events).current, RunUncleaned(b, events).current)
    decreases events
  {
    if events != [] {
      var e := events[0];
      if Diverges(a, b, e.op) {
        DivergenceShows(a, b, e);
      } else {
        StepsStayPruned(a, b, e);
        PrunedLookAlike(Step(a, e.op, e.now).0.current, StepUncleaned(b, e).0.current);
        SessionCleanupUnobservableIff(Step(a, e.op, e.now).0, StepUncleaned(b, e).0, events[1..]);
      }
    }
  }

  /** A caller who stores tokens for unrevoked sessions only, as the services do. */
  predicate Orderly(t: Tables, op: Op) {
    op.StoreToken? && op.sessionId.Some? ==> IsSessionValid(t, op.sessionId.value)
  }

  ghost predicate AllOrderly(db: Db, events: seq<Event>)
    decreases events
  {
    events == [] || (Orderly(db.current, events[0].op) && AllOrderly(StepUncleaned(db, events[0]).0, events[1..]))
  }

  lemma {:induction false} OrderlyNeverDiverges(a: Db, b: Db, events: seq<Event>)
    requires Pruned(a.current, b.current) && Pruned(a.committed, b.committed)
    requires AllFresh(b, events) && AllOrderly(b, events)
    ensures NeverDiverges(a, b, events)
    decreases events
  {
    if events != [] {
      StepsStayPruned(a, b, events[0]);
      OrderlyNeverDiverges(Step(a, events[0].op, events[0].now).0, StepUncleaned(b, events[0]).0, events[1..]);
    }
  }

  /** For such a caller session cleanups change no answer of
      `get_active_sessions` or `is_session_valid`, nor of the refresh flow. */
  lemma SessionCleanupUnobservable(db: Db, events: seq<Event>, refresh: Op, now: Time)
    requires Integrity(db.current) && Integrity(db.committed)
    requires AllFresh(db, events) && AllOrderly(db, events)
    requires refresh.Refresh? && FreshIds(RunUncleaned(db, events).current, refresh)
    ensures LookAlike(Run(db, events).current, RunUncleaned(db, events).current)
    ensures Step(Run(db, events), refresh, now).1 == Step(RunUncleaned(db, events), refresh, now).1
  {
    OrderlyNeverDiverges(db, db, events);
    SessionCleanupUnobservableIff(db, db, events);
    PrunedLookAlike(Run(db, events).current, RunUncleaned(db, events).current);
    RefreshOnPruned(Run(db, events), RunUncleaned(db, events), refresh, now);
  }

  /** The proviso matters. `stale` was revoked long ago. A cleanup, a logout of
      `live`, and a token stored for `stale`: after the cleanup the store fails
      and its rollback undoes the logout; without it the logout stands. */
  lemma CleanupUndoesLogout(stale: string, live: string, jti: string, tokenHash: string)
    returns (db: Db, events: seq<Event>)
    requires stale != live && |tokenHash| == 64
    ensures Integrity(db.current) && Integrity(db.committed) && AllFresh(db, events)
    ensures |events| == 3 && events[0].op == CleanupSessions(30, None)
    ensures events[1].op == InvalidateSession(Some(live), None)
    ensures events[2].op == StoreToken(jti, 99.0 * DAY, Some(stale), Some(tokenHash))
    ensures IsSessionValid(Run(db, events).current, live)
    ensures !IsSessionValid(RunUncleaned(db, events).current, live)
  {
    var now := 40.0 * DAY;
    var t := Tables(map[stale := Session(1, 1, 0.0, Some(0.0), None), live := Session(1, 1, 0.0, None, None)], map[]);
    db := Db(t, t);
    var clean, logout := Event(CleanupSessions(30, None), now), Event(InvalidateSession(Some(live), None), now);
    var store := Event(StoreToken(jti, 99.0 * DAY, Some(stale), Some(tokenHash)), now);
    events := [clean] + ([logout] + ([store] + []));
    RunCons(db, clean, [logout] + ([store] + []));
    RunCons(Step(db, clean.op, now).0, logout, [store] + []);
    RunCons(Step(Step(db, clean.op, now).0, logout.op, now).0, store, []);
    RunCons(db, logout, [store] + []);
    RunCons(Step(db, logout.op, now).0, store, []);
    assert stale in Purgeable(t, 30, None, now) && live !in Purgeable(t, 30, None, now);
  }

  lemma RunCons(db: Db, e: Event, rest: seq<Event>)
    ensures Run(db, [e] + rest) == Run(Step(db, e.op, e.now).0, rest)
    ensures RunUncleaned(db, [e] + rest) == RunUncleaned(StepUncleaned(db, e).0, rest)
    ensures AllFresh(db, [e] + rest)
      <==> FreshIds(db.current, e.op) && AllFresh(StepUncleaned(db, e).0, rest)
  {
    assert ([e] + rest)[1..] == rest;
  }
}
