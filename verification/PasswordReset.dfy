/** app/repositories/password_reset.py and the quota its service enforces:
    reset tokens, single use, at most three requests an hour, old rows purged. */
module PasswordReset {
  import opened Wrappers
  import opened SlidingWindow

  const HOUR: Time := 3600.0
  const DAY: Time := 86400.0
  const MAX_REQUESTS_PER_HOUR := 3

  /** Hashes stand for the tokens they are computed from. */
  datatype Token = Token(
    id: int, userId: int, tokenHash: string, createdAt: Time, expiresAt: Time, usedAt: Option<Time>)
  {
    predicate IsValid(now: Time) {
      if usedAt.Some? then false else expiresAt > now
    }
  }

  // ----------------------------------------------------------------- queries

  /** `get_by_hash`: the first row with the hash. */
  function GetByHash(rows: seq<Token>, hash: string): Option<Token> {
    if rows == [] then None else
      var n := |rows| - 1;
      var earlier := GetByHash(rows[..n], hash);
      if earlier.Some? then earlier else if rows[n].tokenHash == hash then Some(rows[n]) else None
  }

  function ValidateToken(rows: seq<Token>, hash: string, now: Time): Option<Token> {
    match GetByHash(rows, hash)
    case None => None
    case Some(t) => if t.IsValid(now) then Some(t) else None
  }

  function CountRecentRequests(rows: seq<Token>, userId: int, cutoff: Time): nat {
    if rows == [] then 0 else
      var n := |rows| - 1;
      CountRecentRequests(rows[..n], userId, cutoff)
      + if rows[n].userId == userId && rows[n].createdAt >= cutoff then 1 else 0
  }

  predicate CanRequestReset(rows: seq<Token>, userId: int, now: Time) {
    CountRecentRequests(rows, userId, now - HOUR) < MAX_REQUESTS_PER_HOUR
  }

  // ----------------------------------------------------------------- changes

  /** Which rows an update marks as used. */
  datatype Target = One(id: int) | AllOf(userId: int) {
    predicate Hits(t: Token) {
      t.usedAt.None? && match this
        case One(id) => t.id == id
        case AllOf(userId) => t.userId == userId
    }
  }

  /** `use_token` and `invalidate_all_for_user`. */
  function MarkUsed(rows: seq<Token>, target: Target, now: Time): seq<Token> {
    if rows == [] then [] else
      var n := |rows| - 1;
      MarkUsed(rows[..n], target, now) + [if target.Hits(rows[n]) then rows[n].(usedAt := Some(now)) else rows[n]]
  }

  /** The filter of `cleanup_expired`. */
  predicate Purgeable(t: Token, cutoff: Time) {
    t.expiresAt < cutoff || (t.usedAt.Some? && t.usedAt.value < cutoff)
  }

  function Purge(rows: seq<Token>, cutoff: Time): seq<Token> {
    if rows == [] then [] else
      var n := |rows| - 1;
      Purge(rows[..n], cutoff) + if Purgeable(rows[n], cutoff) then [] else [rows[n]]
  }

  class PasswordResetRepository {
    var rows: seq<Token>

    constructor ()
      ensures rows == []
    {
      rows := [];
    }

    /** `request_reset` of the service: the quota, then `create_reset_token`. */
    method RequestReset(id: int, userId: int, tokenHash: string, expiryHours: Option<int>, now: Time)
      returns (token: Option<Token>)
      modifies this
      ensures rows == Step(old(rows), Event(Request(id, userId, tokenHash, expiryHours), now))
      ensures token.Some? <==> CanRequestReset(old(rows), userId, now)
      ensures token.Some? ==> rows == old(rows) + [token.value]
    {
      if CountRecentRequests(rows, userId, now - HOUR) >= MAX_REQUESTS_PER_HOUR {
        return None;
      }
      var hours := 1;
      if expiryHours.Some? {
        hours := expiryHours.value;
      }
      var t := Token(id, userId, tokenHash, now, now + hours as real * HOUR, None);
      rows := rows + [t];
      token := Some(t);
    }

    method UseToken(id: int, now: Time) returns (ok: bool)
      requires forall i, j :: 0 <= i < j < |rows| ==> rows[i].id != rows[j].id
      modifies this
      ensures rows == Step(old(rows), Event(Mark(One(id)), now))
      ensures ok <==> exists i :: 0 <= i < |old(rows)| && One(id).Hits(old(rows)[i])
    {
      var i := 0;
      while i < |rows| && rows[i].id != id
        invariant 0 <= i <= |rows|
        invariant forall k :: 0 <= k < i ==> rows[k].id != id
      {
        i := i + 1;
      }
      MarkUsedAt(rows, One(id), now);
      if i == |rows| || rows[i].usedAt.Some? {
        assert MarkUsed(rows, One(id), now) == rows;
        return false;
      }
      rows := rows[i := rows[i].(usedAt := Some(now))];
      assert rows == MarkUsed(old(rows), One(id), now);
      ok := true;
    }

    method CleanupExpired(olderThanDays: int, now: Time)
      modifies this
      ensures rows == Step(old(rows), Event(Cleanup(olderThanDays as real * DAY), now))
    {
      var cutoff := now - olderThanDays as real * DAY;
      rows := Purge(rows, cutoff);
    }
  }

  lemma {:induction false} MarkUsedAt(rows: seq<Token>, target: Target, now: Time)
    ensures |MarkUsed(rows, target, now)| == |rows|
    ensures forall i :: 0 <= i < |rows| ==>
      MarkUsed(rows, target, now)[i] == if target.Hits(rows[i]) then rows[i].(usedAt := Some(now)) else rows[i]
  {
    if rows != [] {
      MarkUsedAt(rows[..|rows| - 1], target, now);
    }
  }

  // -------------------------------------------------------------------- runs

  datatype Op =
    | Request(id: int, userId: int, tokenHash: string, expiryHours: Option<int>)
    | Mark(target: Target)
    | Cleanup(retention: Time)

  datatype Event = Event(op: Op, now: Time)

  /** The row `create_reset_token` adds. */
  function NewToken(op: Op, now: Time): Token
    requires op.Request?
  {
    var hours := if op.expiryHours.Some? then op.expiryHours.value else 1;
    Token(op.id, op.userId, op.tokenHash, now, now + hours as real * HOUR, None)
  }

  function Step(rows: seq<Token>, e: Event): seq<Token> {
    match e.op
    case Request(_, userId, _, _) =>
      if !CanRequestReset(rows, userId, e.now) then rows
      else rows + [NewToken(e.op, e.now)]
    case Mark(target) => MarkUsed(rows, target, e.now)
    case Cleanup(retention) => Purge(rows, e.now - retention)
  }

  function Run(events: seq<Event>): seq<Token> {
    if events == [] then [] else Step(Run(events[..|events| - 1]), events[|events| - 1])
  }

  /** The same run without its cleanups. */
  function RunUncleaned(events: seq<Event>): seq<Token> {
    if events == [] then [] else
      var rows, e := RunUncleaned(events[..|events| - 1]), events[|events| - 1];
      if e.op.Cleanup? then rows else Step(rows, e)
  }

  /** The clock does not go back, lifetimes are not negative, hashes are fresh,
      and a cleanup retains at least the hour the quota looks at. */
  ghost predicate Orderly(events: seq<Event>, end: Time)
    decreases events
  {
    events == [] ||
    var e, before := events[|events| - 1], events[..|events| - 1];
    && e.now <= end
    && Orderly(before, e.now)
    && match e.op
       case Request(_, _, tokenHash, hours) =>
         (hours.Some? ==> hours.value >= 0) && FreshHash(RunUncleaned(before), tokenHash)
       case Mark(_) => true
       case Cleanup(retention) => retention >= HOUR
  }

  ghost predicate FreshHash(rows: seq<Token>, hash: string) {
    forall i :: 0 <= i < |rows| ==> rows[i].tokenHash != hash
  }

  /** The reachable invariant that makes purging safe. */
  ghost predicate Sound(t: Token, now: Time) {
    t.createdAt <= t.expiresAt && t.createdAt <= now && (t.usedAt.Some? ==> t.createdAt <= t.usedAt.value)
  }

  ghost predicate AllSound(rows: seq<Token>, now: Time) {
    forall i :: 0 <= i < |rows| ==> Sound(rows[i], now)
  }

  ghost predicate DistinctHashes(rows: seq<Token>) {
    rows == [] ||
    (FreshHash(rows[..|rows| - 1], rows[|rows| - 1].tokenHash) && DistinctHashes(rows[..|rows| - 1]))
  }

  /** Nothing will ever be asked about the row again: it is out of the quota's
      window and no longer valid. */
  predicate Forgotten(t: Token, now: Time) {
    t.createdAt < now - HOUR && !t.IsValid(now)
  }

  /** `pruned` is `full` without some forgotten rows. */
  ghost predicate Pruned(pruned: seq<Token>, full: seq<Token>, now: Time)
    decreases |full|
  {
    if full == [] then pruned == []
    else
      var n := |full| - 1;
      || (pruned != [] && pruned[|pruned| - 1] == full[n] && Pruned(pruned[..|pruned| - 1], full[..n], now))
      || (Forgotten(full[n], now) && Pruned(pruned, full[..n], now))
  }

  lemma {:induction false} PrunedLater(a: seq<Token>, b: seq<Token>, now: Time, later: Time)
    requires Pruned(a, b, now) && now <= later
    ensures Pruned(a, b, later)
    decreases |b|
  {
    if b != [] {
      var n := |b| - 1;
      if a != [] && a[|a| - 1] == b[n] && Pruned(a[..|a| - 1], b[..n], now) {
        PrunedLater(a[..|a| - 1], b[..n], now, later);
      } else {
        PrunedLater(a, b[..n], now, later);
      }
    }
  }

  lemma PrunedAppend(a: seq<Token>, b: seq<Token>, t: Token, now: Time)
    requires Pruned(a, b, now)
    ensures Pruned(a + [t], b + [t], now)
  {
    assert (a + [t])[..|a|] == a && (b + [t])[..|b|] == b;
  }

  lemma {:induction false} PrunedMark(a: seq<Token>, b: seq<Token>, target: Target, now: Time)
    requires Pruned(a, b, now)
    ensures Pruned(MarkUsed(a, target, now), MarkUsed(b, target, now), now)
    decreases |b|
  {
    if b != [] {
      var n, m := |b| - 1, |a| - 1;
      var markedB := if target.Hits(b[n]) then b[n].(usedAt := Some(now)) else b[n];
      var restB := MarkUsed(b[..n], target, now);
      assert (restB + [markedB])[..|restB|] == restB;
      if a != [] && a[m] == b[n] && Pruned(a[..m], b[..n], now) {
        PrunedMark(a[..m], b[..n], target, now);
        PrunedAppend(MarkUsed(a[..m], target, now), restB, markedB, now);
      } else {
        PrunedMark(a, b[..n], target, now);
        assert Forgotten(markedB, now);
      }
    }
  }

  lemma {:induction false} PrunedPurge(a: seq<Token>, b: seq<Token>, retention: Time, now: Time)
    requires Pruned(a, b, now) && AllSound(b, now) && retention >= HOUR
    ensures Pruned(Purge(a, now - retention), b, now)
    decreases |b|
  {
    if b != [] {
      var n, m := |b| - 1, |a| - 1;
      if a != [] && a[m] == b[n] && Pruned(a[..m], b[..n], now) {
        PrunedPurge(a[..m], b[..n], retention, now);
        assert Sound(b[n], now);
        var rest := Purge(a[..m], now - retention);
        if Purgeable(b[n], now - retention) {
          assert Purge(a, now - retention) == rest;
        } else {
          assert (rest + [b[n]])[..|rest|] == rest;
        }
      } else {
        PrunedPurge(a, b[..n], retention, now);
      }
    }
  }

  lemma {:induction false} PrunedCount(a: seq<Token>, b: seq<Token>, userId: int, now: Time)
    requires Pruned(a, b, now)
    ensures CountRecentRequests(a, userId, now - HOUR) == CountRecentRequests(b, userId, now - HOUR)
    decreases |b|
  {
    if b != [] {
      var n, m := |b| - 1, |a| - 1;
      if a != [] && a[m] == b[n] && Pruned(a[..m], b[..n], now) {
        PrunedCount(a[..m], b[..n], userId, now);
      } else {
        PrunedCount(a, b[..n], userId, now);
      }
    }
  }

  lemma {:induction false} FreshIsAbsent(rows: seq<Token>, hash: string)
    requires FreshHash(rows, hash)
    ensures GetByHash(rows, hash) == None
  {
    if rows != [] {
      FreshIsAbsent(rows[..|rows| - 1], hash);
    }
  }

  lemma {:induction false} PrunedLookup(a: seq<Token>, b: seq<Token>, hash: string, now: Time)
    requires Pruned(a, b, now) && DistinctHashes(b)
    ensures var x, y := GetByHash(a, hash), GetByHash(b, hash);
      x == y || (x.None? && y.Some? && Forgotten(y.value, now))
    decreases |b|
  {
    if b != [] {
      var n, m := |b| - 1, |a| - 1;
      FreshIsAbsent(b[..n], b[n].tokenHash);
      if a != [] && a[m] == b[n] && Pruned(a[..m], b[..n], now) {
        PrunedLookup(a[..m], b[..n], hash, now);
      } else {
        PrunedLookup(a, b[..n], hash, now);
      }
    }
  }

  lemma {:induction false} MarkKeeps(rows: seq<Token>, target: Target, now: Time)
    requires AllSound(rows, now) && DistinctHashes(rows)
    ensures AllSound(MarkUsed(rows, target, now), now) && DistinctHashes(MarkUsed(rows, target, now))
  {
    MarkUsedAt(rows, target, now);
    if rows != [] {
      var n := |rows| - 1;
      MarkKeeps(rows[..n], target, now);
      MarkUsedAt(rows[..n], target, now);
      assert MarkUsed(rows, target, now)[..n] == MarkUsed(rows[..n], target, now);
    }
  }

  lemma AppendKeeps(rows: seq<Token>, t: Token, now: Time)
    requires AllSound(rows, now) && DistinctHashes(rows) && Sound(t, now) && FreshHash(rows, t.tokenHash)
    ensures AllSound(rows + [t], now) && DistinctHashes(rows + [t])
  {
    assert (rows + [t])[..|rows|] == rows;
  }

  lemma RequestStaysPruned(a: seq<Token>, b: seq<Token>, e: Event)
    requires Pruned(a, b, e.now) && AllSound(b, e.now) && DistinctHashes(b)
    requires e.op.Request? && (e.op.expiryHours.Some? ==> e.op.expiryHours.value >= 0) && FreshHash(b, e.op.tokenHash)
    ensures Pruned(Step(a, e), Step(b, e), e.now) && AllSound(Step(b, e), e.now) && DistinctHashes(Step(b, e))
  {
    PrunedCount(a, b, e.op.userId, e.now);
    if CanRequestReset(b, e.op.userId, e.now) {
      PrunedAppend(a, b, NewToken(e.op, e.now), e.now);
      AppendKeeps(b, NewToken(e.op, e.now), e.now);
    }
  }

  lemma StepStaysPruned(a: seq<Token>, b: seq<Token>, e: Event)
    requires Pruned(a, b, e.now) && AllSound(b, e.now) && DistinctHashes(b)
    requires e.op.Request? ==> (e.op.expiryHours.Some? ==> e.op.expiryHours.value >= 0) && FreshHash(b, e.op.tokenHash)
    requires e.op.Cleanup? ==> e.op.retention >= HOUR
    ensures var b' := if e.op.Cleanup? then b else Step(b, e);
      Pruned(Step(a, e), b', e.now) && AllSound(b', e.now) && DistinctHashes(b')
  {
    match e.op
    case Request(_, _, _, _) => RequestStaysPruned(a, b, e);
    case Mark(target) =>
      PrunedMark(a, b, target, e.now);
      MarkKeeps(b, target, e.now);
    case Cleanup(retention) => PrunedPurge(a, b, retention, e.now);
  }

  lemma {:induction false} RunsStayPruned(events: seq<Event>, end: Time)
    requires Orderly(events, end)
    ensures Pruned(Run(events), RunUncleaned(events), end)
    ensures AllSound(RunUncleaned(events), end) && DistinctHashes(RunUncleaned(events))
  {
    if events != [] {
      var n := |events| - 1;
      RunsStayPruned(events[..n], events[n].now);
      StepStaysPruned(Run(events[..n]), RunUncleaned(events[..n]), events[n]);
      PrunedLater(Run(events), RunUncleaned(events), events[n].now, end);
    }
  }

  /** Deleting every cleanup from a run changes no answer of `can_request_reset`
      or `validate_token`. */
  lemma CleanupUnobservable(events: seq<Event>, userId: int, hash: string, now: Time)
    requires Orderly(events, now)
    ensures CanRequestReset(Run(events), userId, now) <==> CanRequestReset(RunUncleaned(events), userId, now)
    ensures ValidateToken(Run(events), hash, now) == ValidateToken(RunUncleaned(events), hash, now)
  {
    RunsStayPruned(events, now);
    PrunedCount(Run(events), RunUncleaned(events), userId, now);
    PrunedLookup(Run(events), RunUncleaned(events), hash, now);
  }

  /** The retention condition is exact: a cleanup leaves every quota count on
      sound tables alone if and only if it retains the hour. */
  lemma RetentionIff(userId: int, retention: Time, now: Time)
    ensures (forall rows :: AllSound(rows, now) ==>
        CountRecentRequests(Purge(rows, now - retention), userId, now - HOUR)
          == CountRecentRequests(rows, userId, now - HOUR))
      <==> retention >= HOUR
  {
    if retention >= HOUR {
      forall rows | AllSound(rows, now)
        ensures CountRecentRequests(Purge(rows, now - retention), userId, now - HOUR)
             == CountRecentRequests(rows, userId, now - HOUR)
      {
        PrunedSelf(rows, now);
        PrunedPurge(rows, rows, retention, now);
        PrunedCount(Purge(rows, now - retention), rows, userId, now);
      }
    } else {
      var t := Token(0, userId, "", now - HOUR, now, Some(now - HOUR));
      var rows := [t];
      assert rows[..0] == [];
      assert Sound(t, now) && AllSound(rows, now) && Purge(rows, now - retention) == [];
      assert CountRecentRequests(rows, userId, now - HOUR) == 1;
      assert CountRecentRequests(Purge(rows, now - retention), userId, now - HOUR) == 0;
    }
  }

  lemma {:induction false} PrunedSelf(rows: seq<Token>, now: Time)
    ensures Pruned(rows, rows, now)
  {
    if rows != [] {
      PrunedSelf(rows[..|rows| - 1], now);
    }
  }

  // -------------------------------------------------------------- single use

  /** Every row with the hash is used. */
  ghost predicate Spent(rows: seq<Token>, hash: string) {
    forall i :: 0 <= i < |rows| && rows[i].tokenHash == hash ==> rows[i].usedAt.Some?
  }

  lemma {:induction false} SpentIsInvalid(rows: seq<Token>, hash: string, now: Time)
    requires Spent(rows, hash)
    ensures ValidateToken(rows, hash, now) == None
  {
    FoundAmong(rows, hash);
  }

  lemma {:induction false} FoundAmong(rows: seq<Token>, hash: string)
    ensures var t := GetByHash(rows, hash); t.Some? ==> t.value in rows && t.value.tokenHash == hash
  {
    if rows != [] {
      FoundAmong(rows[..|rows| - 1], hash);
    }
  }

  lemma {:induction false} PurgeAmong(rows: seq<Token>, cutoff: Time)
    ensures forall t :: t in Purge(rows, cutoff) ==> t in rows
  {
    if rows != [] {
      PurgeAmong(rows[..|rows| - 1], cutoff);
    }
  }

  lemma StepStaysSpent(rows: seq<Token>, e: Event, hash: string)
    requires Spent(rows, hash) && (e.op.Request? ==> e.op.tokenHash != hash)
    ensures Spent(Step(rows, e), hash)
  {
    match e.op
    case Request(_, _, _, _) =>
    case Mark(target) => MarkUsedAt(rows, target, e.now);
    case Cleanup(retention) =>
      PurgeAmong(rows, e.now - retention);
      var after := Purge(rows, e.now - retention);
      forall i | 0 <= i < |after| && after[i].tokenHash == hash ensures after[i].usedAt.Some? {
        assert after[i] in rows;
      }
  }

  /** No request after the n-th event hands the hash out again. */
  ghost predicate NotReissued(events: seq<Event>, n: nat, hash: string) {
    forall k :: n <= k < |events| && events[k].op.Request? ==> events[k].op.tokenHash != hash
  }

  lemma {:induction false} StaysSpent(events: seq<Event>, n: nat, hash: string)
    requires n <= |events| && Spent(Run(events[..n]), hash) && NotReissued(events, n, hash)
    ensures Spent(Run(events), hash)
    decreases |events|
  {
    if n == |events| {
      assert events[..n] == events;
    } else {
      var front, e := events[..|events| - 1], events[|events| - 1];
      assert front[..n] == events[..n];
      StaysSpent(front, n, hash);
      StepStaysSpent(Run(front), e, hash);
    }
  }

  lemma {:induction false} HashesStay(events: seq<Event>, n: nat, hash: string)
    requires n <= |events| && !FreshHash(RunUncleaned(events[..n]), hash)
    ensures !FreshHash(RunUncleaned(events), hash)
    decreases |events|
  {
    if n == |events| {
      assert events[..n] == events;
    } else {
      var front, e := events[..|events| - 1], events[|events| - 1];
      assert front[..n] == events[..n];
      HashesStay(front, n, hash);
      var i :| 0 <= i < |RunUncleaned(front)| && RunUncleaned(front)[i].tokenHash == hash;
      if e.op.Mark? {
        MarkUsedAt(RunUncleaned(front), e.op.target, e.now);
      }
      assert RunUncleaned(events)[i].tokenHash == hash;
    }
  }

  lemma {:induction false} FreshMeansNotReissued(events: seq<Event>, n: nat, hash: string, end: Time)
    requires Orderly(events, end) && n <= |events| && !FreshHash(RunUncleaned(events[..n]), hash)
    ensures NotReissued(events, n, hash)
    decreases |events|
  {
    if n < |events| {
      var front, e := events[..|events| - 1], events[|events| - 1];
      assert front[..n] == events[..n];
      FreshMeansNotReissued(front, n, hash, e.now);
      HashesStay(front, n, hash);
      assert forall k :: 0 <= k < |front| ==> front[k] == events[k];
    }
  }

  lemma {:induction false} PrunedAmong(a: seq<Token>, b: seq<Token>, now: Time)
    requires Pruned(a, b, now)
    ensures forall t :: t in a ==> t in b
    decreases |b|
  {
    if b != [] {
      var n, m := |b| - 1, |a| - 1;
      if a != [] && a[m] == b[n] && Pruned(a[..m], b[..n], now) {
        PrunedAmong(a[..m], b[..n], now);
        assert a == a[..m] + [a[m]];
      } else {
        PrunedAmong(a, b[..n], now);
      }
    }
  }

  lemma {:induction false} SameHashSameRow(rows: seq<Token>, s: Token, t: Token)
    requires DistinctHashes(rows) && s in rows && t in rows && s.tokenHash == t.tokenHash
    ensures s == t
  {
    var n := |rows| - 1;
    assert rows == rows[..n] + [rows[n]];
    if s in rows[..n] && t in rows[..n] {
      SameHashSameRow(rows[..n], s, t);
    }
  }

  /** A mark that hits the token spends its hash. */
  lemma MarkSpends(rows: seq<Token>, target: Target, t: Token, now: Time)
    requires t in rows && target.Hits(t)
    requires forall s :: s in rows && s.tokenHash == t.tokenHash ==> s == t
    ensures Spent(MarkUsed(rows, target, now), t.tokenHash)
  {
    MarkUsedAt(rows, target, now);
    var after := MarkUsed(rows, target, now);
    forall i | 0 <= i < |after| && after[i].tokenHash == t.tokenHash ensures after[i].usedAt.Some? {
      assert rows[i] in rows;
    }
  }

  /** Single use: a token marked at the n-th event, alone or with all of its
      user's, is not returned by `validate_token` at any point after it. */
  lemma SingleUse(events: seq<Event>, n: nat, t: Token, now: Time)
    requires Orderly(events, now) && n < |events|
    requires events[n].op.Mark? && t in Run(events[..n]) && events[n].op.target.Hits(t)
    ensures ValidateToken(Run(events), t.tokenHash, now) == None
  {
    var before, e := events[..n], events[n];
    OrderlyPrefix(events, n, now);
    RunsStayPruned(before, e.now);
    PrunedAmong(Run(before), RunUncleaned(before), e.now);
    forall s | s in Run(before) && s.tokenHash == t.tokenHash ensures s == t {
      SameHashSameRow(RunUncleaned(before), s, t);
    }
    MarkSpends(Run(before), e.op.target, t, e.now);
    assert events[..n + 1][..n] == before && events[..n + 1][n] == e;
    var i :| 0 <= i < |RunUncleaned(before)| && RunUncleaned(before)[i] == t;
    FreshMeansNotReissued(events, n, t.tokenHash, now);
    StaysSpent(events, n + 1, t.tokenHash);
    SpentIsInvalid(Run(events), t.tokenHash, now);
  }

  lemma {:induction false} OrderlyPrefix(events: seq<Event>, n: nat, end: Time)
    requires Orderly(events, end) && n < |events|
    ensures Orderly(events[..n], events[n].now)
    decreases |events|
  {
    if n < |events| - 1 {
      assert events[..|events| - 1][..n] == events[..n] && events[..|events| - 1][n] == events[n];
      OrderlyPrefix(events[..|events| - 1], n, events[|events| - 1].now);
    }
  }

  // ------------------------------------------------------------------- quota

  /** When the user's tokens were created, in order. */
  function Creations(rows: seq<Token>, userId: int): seq<Time> {
    if rows == [] then [] else
      var n := |rows| - 1;
      Creations(rows[..n], userId) + if rows[n].userId == userId then [rows[n].createdAt] else []
  }

  lemma {:induction false} CountIsSince(rows: seq<Token>, userId: int, cutoff: Time)
    ensures CountRecentRequests(rows, userId, cutoff) == |Since(Closed, Creations(rows, userId), cutoff)|
  {
    if rows != [] {
      var n := |rows| - 1;
      CountIsSince(rows[..n], userId, cutoff);
      SinceAppend(Closed, Creations(rows[..n], userId), rows[n].createdAt, cutoff);
      assert Creations(rows[..n], userId) + [] == Creations(rows[..n], userId);
    }
  }

  lemma {:induction false} MarkKeepsCreations(rows: seq<Token>, target: Target, userId: int, now: Time)
    ensures Creations(MarkUsed(rows, target, now), userId) == Creations(rows, userId)
  {
    if rows != [] {
      var n := |rows| - 1;
      MarkKeepsCreations(rows[..n], target, userId, now);
      var rest := MarkUsed(rows[..n], target, now);
      assert MarkUsed(rows, target, now)[..|rest|] == rest;
    }
  }

  lemma CreationsAppend(rows: seq<Token>, t: Token, userId: int)
    ensures Creations(rows + [t], userId) == Creations(rows, userId) + if t.userId == userId then [t.createdAt] else []
  {
    assert (rows + [t])[..|rows|] == rows;
  }

  lemma RequestAdmitted(rows: seq<Token>, e: Event, userId: int)
    requires e.op.Request? && Admitted(Closed, Creations(rows, userId), HOUR, MAX_REQUESTS_PER_HOUR)
    ensures Admitted(Closed, Creations(Step(rows, e), userId), HOUR, MAX_REQUESTS_PER_HOUR)
  {
    if CanRequestReset(rows, e.op.userId, e.now) {
      CreationsAppend(rows, NewToken(e.op, e.now), userId);
      CountIsSince(rows, userId, e.now - HOUR);
      AdmittedIfOwn(rows, userId, e.now, e.op.userId == userId);
    }
  }

  lemma AdmittedIfOwn(rows: seq<Token>, userId: int, now: Time, own: bool)
    requires Admitted(Closed, Creations(rows, userId), HOUR, MAX_REQUESTS_PER_HOUR)
    requires own ==> |Since(Closed, Creations(rows, userId), now - HOUR)| < MAX_REQUESTS_PER_HOUR
    ensures Admitted(Closed, Creations(rows, userId) + if own then [now] else [], HOUR, MAX_REQUESTS_PER_HOUR)
  {
    if own {
      AdmittedAppend(Closed, Creations(rows, userId), now, HOUR, MAX_REQUESTS_PER_HOUR);
    } else {
      assert Creations(rows, userId) + [] == Creations(rows, userId);
    }
  }

  lemma {:induction false} CreationsAdmitted(events: seq<Event>, userId: int, end: Time)
    requires Orderly(events, end)
    ensures Admitted(Closed, Creations(RunUncleaned(events), userId), HOUR, MAX_REQUESTS_PER_HOUR)
  {
    if events != [] {
      var n := |events| - 1;
      var rows, e := RunUncleaned(events[..n]), events[n];
      CreationsAdmitted(events[..n], userId, e.now);
      match e.op {
        case Request(_, _, _, _) => RequestAdmitted(rows, e, userId);
        case Mark(target) => MarkKeepsCreations(rows, target, userId, e.now);
        case Cleanup(_) =>
      }
    }
  }

  /** When the user was granted a reset, over a whole run, purged or not. */
  function Granted(events: seq<Event>, userId: int): seq<Time> {
    if events == [] then [] else
      var n := |events| - 1;
      var e := events[n];
      Granted(events[..n], userId)
      + if e.op.Request? && e.op.userId == userId && CanRequestReset(Run(events[..n]), userId, e.now)
        then [e.now] else []
  }

  /** One event without purging adds a creation exactly if it grants one. */
  lemma CreationsStep(rows: seq<Token>, e: Event, userId: int)
    requires !e.op.Cleanup?
    ensures Creations(Step(rows, e), userId) == Creations(rows, userId)
         + if e.op.Request? && e.op.userId == userId && CanRequestReset(rows, userId, e.now) then [e.now] else []
  {
    match e.op
    case Request(_, _, _, _) => CreationsAppend(rows, NewToken(e.op, e.now), userId);
    case Mark(target) =>
      MarkKeepsCreations(rows, target, userId, e.now);
      assert Creations(rows, userId) + [] == Creations(rows, userId);
  }

  /** What was granted is what a run without purges still holds. */
  lemma {:induction false} GrantedAreCreations(events: seq<Event>, userId: int, end: Time)
    requires Orderly(events, end)
    ensures Granted(events, userId) == Creations(RunUncleaned(events), userId)
  {
    if events != [] {
      var front, e := events[..|events| - 1], events[|events| - 1];
      GrantedAreCreations(front, userId, e.now);
      if e.op.Cleanup? {
        assert Granted(front, userId) + [] == Granted(front, userId);
      } else {
        SameQuota(front, userId, e.now);
        CreationsStep(RunUncleaned(front), e, userId);
      }
    }
  }

  lemma SameQuota(events: seq<Event>, userId: int, now: Time)
    requires Orderly(events, now)
    ensures CanRequestReset(Run(events), userId, now) <==> CanRequestReset(RunUncleaned(events), userId, now)
  {
    RunsStayPruned(events, now);
    PrunedCount(Run(events), RunUncleaned(events), userId, now);
  }

  /** The quota holds over every hour of every run: no instant `end` closes an
      hour in which a user was granted more than three requests. */
  lemma AtMostThreePerHour(events: seq<Event>, userId: int, now: Time, end: Time)
    requires Orderly(events, now)
    ensures |Within(Closed, Granted(events, userId), end - HOUR, end)| <= MAX_REQUESTS_PER_HOUR
  {
    GrantedAreCreations(events, userId, now);
    CreationsAdmitted(events, userId, now);
    WindowBound(Closed, Creations(RunUncleaned(events), userId), HOUR, MAX_REQUESTS_PER_HOUR, end);
  }


  // ------------------------------------------------------- single operations

  /** `validate_token` answers with the first row of the hash, if it is unused
      and has not expired. */
  lemma {:induction false} ValidateIff(rows: seq<Token>, hash: string, now: Time, t: Token)
    ensures ValidateToken(rows, hash, now) == Some(t) <==>
      && (exists i :: 0 <= i < |rows| && rows[i] == t && t.tokenHash == hash
                      && forall j :: 0 <= j < i ==> rows[j].tokenHash != hash)
      && t.usedAt.None? && now < t.expiresAt
  {
    FirstOfHash(rows, hash);
  }

  lemma {:induction false} FirstOfHash(rows: seq<Token>, hash: string)
    ensures GetByHash(rows, hash).None? ==> FreshHash(rows, hash)
    ensures GetByHash(rows, hash).Some? ==>
      exists i :: 0 <= i < |rows| && rows[i] == GetByHash(rows, hash).value && rows[i].tokenHash == hash
                  && forall j :: 0 <= j < i ==> rows[j].tokenHash != hash
  {
    if rows != [] {
      var n := |rows| - 1;
      FirstOfHash(rows[..n], hash);
      assert forall i :: 0 <= i < n ==> rows[..n][i] == rows[i];
    }
  }

  /** A granted reset can be used until its lifetime, one hour unless given, is
      over. */
  lemma GrantedTokenLives(rows: seq<Token>, op: Op, now: Time, later: Time)
    requires op.Request? && CanRequestReset(rows, op.userId, now) && FreshHash(rows, op.tokenHash)
    ensures var after := Step(rows, Event(op, now));
      && rows <= after && |after| == |rows| + 1
      && after[|rows|].id == op.id && after[|rows|].userId == op.userId && after[|rows|].tokenHash == op.tokenHash
      && (ValidateToken(after, op.tokenHash, later) == Some(after[|rows|])
          <==> later < now + (if op.expiryHours.Some? then op.expiryHours.value as real else 1.0) * 3600.0)
  {
    FreshIsAbsent(rows, op.tokenHash);
    var after := Step(rows, Event(op, now));
    assert after[..|rows|] == rows;
  }

  /** A mark leaves used exactly the rows that were, and the one of the id or
      those of the user; nothing else about a row changes. */
  lemma MarkUsesIff(rows: seq<Token>, target: Target, now: Time, i: nat)
    requires i < |rows|
    ensures |MarkUsed(rows, target, now)| == |rows|
    ensures var (before, after) := (rows[i], MarkUsed(rows, target, now)[i]);
      && (after.usedAt.Some?
          <==> (before.usedAt.Some?
                || (target.One? && before.id == target.id) || (target.AllOf? && before.userId == target.userId)))
      && (before.usedAt.Some? ==> after == before)
      && (after != before ==>
            after == Token(before.id, before.userId, before.tokenHash, before.createdAt, before.expiresAt, Some(now)))
  {
    MarkUsedAt(rows, target, now);
  }

  /** A purge keeps, in order, the tokens neither expired nor used before the
      cutoff. */
  lemma {:induction false} PurgeInOrder(a: seq<Token>, b: seq<Token>, t: Token, cutoff: Time)
    ensures Purge(a + b, cutoff) == Purge(a, cutoff) + Purge(b, cutoff)
    ensures Purge([t], cutoff)
         == if t.expiresAt >= cutoff && (t.usedAt.Some? ==> t.usedAt.value >= cutoff) then [t] else []
  {
    assert [t][..0] == [];
    if b == [] {
      assert a + b == a;
    } else {
      var n := |b| - 1;
      assert (a + b)[..|a + b| - 1] == a + b[..n];
      PurgeInOrder(a, b[..n], t, cutoff);
    }
  }

  /** A reset is refused exactly when three were granted in the last hour. */
  lemma RefusedIffThree(events: seq<Event>, userId: int, now: Time)
    requires Orderly(events, now)
    ensures !CanRequestReset(Run(events), userId, now)
      <==> |Since(Closed, Granted(events, userId), now - HOUR)| == 3
  {
    var rows := RunUncleaned(events);
    SameQuota(events, userId, now);
    CountIsSince(rows, userId, now - HOUR);
    GrantedAreCreations(events, userId, now);
    AtMostThreePerHour(events, userId, now, now);
    RunsStayPruned(events, now);
    CreationsNotLater(rows, userId, now);
    SinceIsWithin(Closed, Creations(rows, userId), now - HOUR, now);
  }

  lemma {:induction false} CreationsNotLater(rows: seq<Token>, userId: int, now: Time)
    requires AllSound(rows, now)
    ensures NotLater(Creations(rows, userId), now)
  {
    if rows != [] {
      var n := |rows| - 1;
      CreationsNotLater(rows[..n], userId, now);
      assert Sound(rows[n], now);
    }
  }
}
