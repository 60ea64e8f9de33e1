/** The cleanup of refresh tokens, app/repositories/refresh_token.py, over whole
    runs: it deletes expired rows, and nobody can tell. */
module TokenCleanup {
  import opened Wrappers
  import opened AuthStore
  import opened AuthRuns

  /** `pruned` is `full` without some expired tokens. */
  ghost predicate LacksExpired(pruned: Tables, full: Tables, now: Time) {
    && pruned.sessions == full.sessions
    && (forall j :: j in pruned.tokens ==> j in full.tokens && pruned.tokens[j] == full.tokens[j])
    && (forall j :: j in full.tokens && full.tokens[j].expiresAt > now ==> j in pruned.tokens)
  }

  ghost predicate LacksExpiredDb(a: Db, b: Db, now: Time) {
    LacksExpired(a.current, b.current, now) && LacksExpired(a.committed, b.committed, now)
  }

  /** New identifiers have never been handed out. */
  predicate FreshToken(t: Tables, op: Op) {
    match op
    case StoreToken(jti, _, _, _) => jti !in t.tokens
    case Refresh(_, newJti, _, _, _, _, _, _) => newJti !in t.tokens
    case _ => true
  }

  function WithoutTokenCleanups(events: seq<Event>): seq<Event> {
    if events == [] then [] else
      (if events[0].op.CleanupTokens? then [] else [events[0]]) + WithoutTokenCleanups(events[1..])
  }

  ghost predicate AllFresh(db: Db, events: seq<Event>)
    decreases events
  {
    events == [] || (FreshToken(db.current, events[0].op)
    && AllFresh(Step(db, events[0].op, events[0].now).0, events[1..]))
  }

  lemma CleanupLacksExpired(a: Db, b: Db, now: Time)
    requires LacksExpiredDb(a, b, now)
    ensures LacksExpiredDb(Step(a, CleanupTokens, now).0, b, now)
  {
  }

  /** The refresh flow answers alike. */
  lemma RefreshAlike(a: Db, b: Db, op: Op, now: Time)
    requires LacksExpiredDb(a, b, now) && op.Refresh? && FreshToken(b.current, op)
    ensures Step(a, op, now).1 == Step(b, op, now).1
    ensures LacksExpiredDb(Step(a, op, now).0, Step(b, op, now).0, now)
  {
    var t := b.current.tokens;
    assert op.oldJti in t && op.oldJti !in a.current.tokens ==> t[op.oldJti].expiresAt <= now;
  }

  lemma UseTokensAlike(p: Tables, f: Tables, pt: set<string>, ft: set<string>, now: Time)
    requires LacksExpired(p, f, now)
    requires forall j :: j in p.tokens ==> (j in pt <==> j in ft)
    ensures LacksExpired(UseTokens(p, pt, now), UseTokens(f, ft, now), now)
  {
  }

  lemma RevocationsAlike(p: Tables, f: Tables, op: Op, now: Time)
    requires LacksExpired(p, f, now) && (op.RevokeToken? || op.RevokeAllForUser?)
    ensures LacksExpired(Step(Db(p, p), op, now).0.current, Step(Db(f, f), op, now).0.current, now)
  {
    match op
    case RevokeAllForUser(userId, tenant) =>
      UseTokensAlike(p, f, Revocable(p, userId, tenant), Revocable(f, userId, tenant), now);
    case RevokeToken(jti) =>
      if jti in p.tokens {
        UseTokensAlike(p, f, {jti}, {jti}, now);
      } else {
        UseExpired(p, f, jti, now);
      }
  }

  /** Marking a token that was cleaned up on one side only. */
  lemma UseExpired(p: Tables, f: Tables, jti: string, now: Time)
    requires LacksExpired(p, f, now) && jti !in p.tokens
    ensures LacksExpired(p, UseTokens(f, {jti}, now), now)
  {
  }

  lemma SessionsAlike(a: Db, b: Db, op: Op, now: Time)
    requires LacksExpiredDb(a, b, now)
    requires op.CreateSession? || op.InvalidateSession? || op.InvalidateAllSessions? || op.CleanupSessions?
    ensures LacksExpiredDb(Step(a, op, now).0, Step(b, op, now).0, now)
  {
  }

  lemma StepAlike(a: Db, b: Db, op: Op, now: Time)
    requires LacksExpiredDb(a, b, now) && !op.CleanupTokens? && FreshToken(b.current, op)
    ensures LacksExpiredDb(Step(a, op, now).0, Step(b, op, now).0, now)
  {
    match op
    case Refresh(_, _, _, _, _, _, _, _) => RefreshAlike(a, b, op, now);
    case RevokeToken(_) => RevocationsAlike(a.current, b.current, op, now);
    case RevokeAllForUser(_, _) => RevocationsAlike(a.current, b.current, op, now);
    case StoreToken(_, _, _, _) =>
    case Commit =>
    case Rollback =>
    case _ => SessionsAlike(a, b, op, now);
  }

  lemma {:induction false} RunsLackExpired(a: Db, b: Db, events: seq<Event>, start: Time)
    requires LacksExpiredDb(a, b, start) && Clocked(start, events) && AllFresh(b, WithoutTokenCleanups(events))
    ensures LacksExpiredDb(Run(a, events), Run(b, WithoutTokenCleanups(events)), EndOf(start, events))
    decreases events
  {
    if events != [] {
      var op, now := events[0].op, events[0].now;
      var rest := WithoutTokenCleanups(events[1..]);
      if op.CleanupTokens? {
        CleanupLacksExpired(a, b, now);
        assert WithoutTokenCleanups(events) == rest;
        RunsLackExpired(Step(a, op, now).0, b, events[1..], now);
      } else {
        assert WithoutTokenCleanups(events)[0] == events[0] && WithoutTokenCleanups(events)[1..] == rest;
        StepAlike(a, b, op, now);
        RunsLackExpired(Step(a, op, now).0, Step(b, op, now).0, events[1..], now);
      }
    }
  }

  lemma LooksAlike(p: Tables, f: Tables, jti: string, userId: int, tenant: Option<int>, now: Time)
    requires LacksExpired(p, f, now)
    ensures TokenIsValid(p, jti, now) <==> TokenIsValid(f, jti, now)
    ensures TokensOfUser(p, userId, tenant, false, now) == TokensOfUser(f, userId, tenant, false, now)
  {
    assert SessionIds(p, userId, tenant) == SessionIds(f, userId, tenant);
  }

  /** Deleting every token cleanup from a run changes no answer of `is_valid`,
      of `get_by_user_id` without revoked tokens, or of the refresh flow. */
  lemma TokenCleanupUnobservable(
      db: Db, events: seq<Event>, jti: string, userId: int, tenant: Option<int>, refresh: Op, start: Time)
    requires Clocked(start, events) && AllFresh(db, WithoutTokenCleanups(events))
    requires refresh.Refresh? && FreshToken(Run(db, WithoutTokenCleanups(events)).current, refresh)
    ensures var (with, without, now) := (Run(db, events), Run(db, WithoutTokenCleanups(events)), EndOf(start, events));
      && (TokenIsValid(with.current, jti, now) <==> TokenIsValid(without.current, jti, now))
      && TokensOfUser(with.current, userId, tenant, false, now)
         == TokensOfUser(without.current, userId, tenant, false, now)
      && Step(with, refresh, now).1 == Step(without, refresh, now).1
  {
    RunsLackExpired(db, db, events, start);
    var with, without, now := Run(db, events), Run(db, WithoutTokenCleanups(events)), EndOf(start, events);
    LooksAlike(with.current, without.current, jti, userId, tenant, now);
    RefreshAlike(with, without, refresh, now);
  }
}
