/** app/repositories/revoked_token.py: the blacklist of revoked tokens.

    The rows are those committed and the current ones, which include what the
    open transaction has flushed. A duplicate key makes the flush fail, and the
    repository answers by rolling the whole transaction back. */
module Blacklist {

  type Time = real

  /** jti -> expires_at */
  type Rows = map<string, Time>

  datatype Entry = Entry(jti: string, expiresAt: Time)

  datatype Db = Db(committed: Rows, current: Rows)

  predicate IsRevoked(db: Db, jti: string) {
    jti in db.current
  }

  /** One `add` and `flush`, rolled back on a duplicate key. */
  function Add(db: Db, e: Entry): Db {
    if e.jti in db.current then Db(db.committed, db.committed)
    else Db(db.committed, db.current[e.jti := e.expiresAt])
  }

  function CleanupExpired(db: Db, now: Time): Db {
    Db(db.committed, map j | j in db.current && !(db.current[j] < now) :: db.current[j])
  }

  /** The rows after flushing all of `entries` at once, if no key repeats. */
  function AddAll(rows: Rows, entries: seq<Entry>): Rows {
    if entries == [] then rows else
      var n := |entries| - 1;
      AddAll(rows, entries[..n])[entries[n].jti := entries[n].expiresAt]
  }

  predicate FlushConflicts(rows: Rows, entries: seq<Entry>) {
    exists i :: 0 <= i < |entries| &&
      (entries[i].jti in rows || exists j :: 0 <= j < i && entries[j].jti == entries[i].jti)
  }

  /** The fallback loop, over the first n entries. */
  function OneByOne(db: Db, entries: seq<Entry>, n: nat): Db
    requires n <= |entries|
  {
    if n == 0 then db else Add(OneByOne(db, entries, n - 1), entries[n - 1])
  }

  /** How many turns of the fallback loop did not conflict. */
  function Successes(db: Db, entries: seq<Entry>, n: nat): nat
    requires n <= |entries|
  {
    if n == 0 then 0 else
      Successes(db, entries, n - 1) + if entries[n - 1].jti in OneByOne(db, entries, n - 1).current then 0 else 1
  }

  function AfterBulkAdd(db: Db, entries: seq<Entry>): (Db, nat) {
    if !FlushConflicts(db.current, entries) then (Db(db.committed, AddAll(db.current, entries)), |entries|)
    else
      var restart := Db(db.committed, db.committed);
      (OneByOne(restart, entries, |entries|), Successes(restart, entries, |entries|))
  }

  class RevokedTokenRepository {
    var committed: Rows
    var current: Rows

    function State(): Db
      reads this
    {
      Db(committed, current)
    }

    constructor ()
      ensures State() == Db(map[], map[])
    {
      committed, current := map[], map[];
    }

    /** One row added and flushed, the integrity error caught. */
    method TryFlush(e: Entry) returns (ok: bool)
      modifies this
      ensures State() == Add(old(State()), e)
      ensures ok <==> e.jti !in old(current)
    {
      ok := e.jti !in current;
      if ok {
        current := current[e.jti := e.expiresAt];
      } else {
        current := committed;
      }
    }

    method AddToBlacklist(jti: string, expiresAt: Time) returns (added: bool)
      modifies this
      ensures added && State() == Add(old(State()), Entry(jti, expiresAt))
    {
      var _ := TryFlush(Entry(jti, expiresAt));
      added := true;
    }

    method BulkAdd(entries: seq<Entry>) returns (count: nat)
      modifies this
      ensures (State(), count) == AfterBulkAdd(old(State()), entries)
    {
      if entries == [] {
        assert AddAll(current, entries) == current;
        return 0;
      }
      if !FlushConflicts(current, entries) {
        current := AddAll(current, entries);
        return |entries|;
      }
      current := committed;
      count := 0;
      ghost var restart := Db(committed, committed);
      for i := 0 to |entries|
        invariant State() == OneByOne(restart, entries, i)
        invariant count == Successes(restart, entries, i)
      {
        var ok := TryFlush(entries[i]);
        if ok {
          count := count + 1;
        }
      }
    }

    method Cleanup(now: Time) returns (deleted: nat)
      modifies this
      ensures State() == CleanupExpired(old(State()), now)
      ensures deleted == |old(current)| - |current|
    {
      var doomed := set j | j in current && current[j] < now;
      ghost var before := current;
      current := map j | j in current && !(current[j] < now) :: current[j];
      deleted := |doomed|;
      assert before.Keys == current.Keys + doomed;
      assert |before| == |before.Keys| && |current| == |current.Keys|;
    }
  }

  /** A cleanup forgets exactly the tokens that have expired. */
  lemma CleanupForgets(db: Db, now: Time, jti: string)
    ensures CleanupExpired(db, now).committed == db.committed
    ensures IsRevoked(CleanupExpired(db, now), jti) <==> IsRevoked(db, jti) && db.current[jti] >= now
    ensures IsRevoked(CleanupExpired(db, now), jti) ==> CleanupExpired(db, now).current[jti] == db.current[jti]
  {
  }

  // ------------------------------------------------------------ single adds

  /** The documentation calls `add_to_blacklist` idempotent. Its token ends up
      revoked unless the same token was already waiting in this transaction:
      then the duplicate rolls both back. */
  lemma AddRevokesIff(db: Db, e: Entry)
    ensures IsRevoked(Add(db, e), e.jti) <==> e.jti !in db.current || e.jti in db.committed
  {
  }

  /** A duplicate also takes down every other uncommitted revocation. */
  lemma AddKeepsOthersIff(db: Db, e: Entry, other: string)
    requires other != e.jti && IsRevoked(db, other)
    ensures IsRevoked(Add(db, e), other) <==> e.jti !in db.current || other in db.committed
  {
  }

  lemma AddTwiceUnrevokes(db: Db, e: Entry)
    requires e.jti !in db.current && e.jti !in db.committed
    ensures IsRevoked(Add(db, e), e.jti) && !IsRevoked(Add(Add(db, e), e), e.jti)
  {
  }

  // -------------------------------------------------------------- bulk adds

  ghost predicate AllRevoked(db: Db, entries: seq<Entry>) {
    forall i :: 0 <= i < |entries| ==> IsRevoked(db, entries[i].jti)
  }

  function JtisFrom(entries: seq<Entry>, i: nat, n: nat): set<string>
    requires i <= n <= |entries|
  {
    set k | i <= k < n :: entries[k].jti
  }

  /** How many of the first n entries the fallback still holds: all since the
      last one that is committed already or repeats one it held. */
  function KeptTail(rows: Rows, entries: seq<Entry>, n: nat): (k: nat)
    requires n <= |entries|
    ensures k <= n
  {
    if n == 0 then 0 else
      var k := KeptTail(rows, entries, n - 1);
      if entries[n - 1].jti in rows || entries[n - 1].jti in JtisFrom(entries, n - 1 - k, n - 1) then 0 else k + 1
  }

  function TailJtis(rows: Rows, entries: seq<Entry>, n: nat): set<string>
    requires n <= |entries|
  {
    JtisFrom(entries, n - KeptTail(rows, entries, n), n)
  }

  lemma {:induction false} AddAllKeys(rows: Rows, entries: seq<Entry>)
    ensures AddAll(rows, entries).Keys == rows.Keys + JtisFrom(entries, 0, |entries|)
  {
    if entries != [] {
      var n := |entries| - 1;
      AddAllKeys(rows, entries[..n]);
      assert JtisFrom(entries, 0, |entries|) == JtisFrom(entries[..n], 0, n) + {entries[n].jti};
    }
  }

  /** A flush of all entries at once conflicts exactly if it would add fewer rows
      than it has entries: one is there already, or comes twice. */
  lemma {:induction false} ConflictsIffFewer(rows: Rows, entries: seq<Entry>)
    ensures |AddAll(rows, entries).Keys| <= |rows.Keys| + |entries|
    ensures FlushConflicts(rows, entries) <==> |AddAll(rows, entries).Keys| < |rows.Keys| + |entries|
  {
    if entries != [] {
      var front, e := entries[..|entries| - 1], entries[|entries| - 1];
      ConflictsIffFewer(rows, front);
      AddAllKeys(rows, front);
      ConflictsStep(rows, entries);
      KeysOfInsert(AddAll(rows, front), e);
    }
  }

  lemma KeysOfInsert(rows: Rows, e: Entry)
    ensures |rows[e.jti := e.expiresAt].Keys| == |rows.Keys| + if e.jti in rows then 0 else 1
  {
    assert rows[e.jti := e.expiresAt].Keys == rows.Keys + {e.jti};
  }

  lemma ConflictsStep(rows: Rows, entries: seq<Entry>)
    requires entries != []
    ensures var (front, e) := (entries[..|entries| - 1], entries[|entries| - 1]);
      FlushConflicts(rows, entries)
      <==> (FlushConflicts(rows, front) || e.jti in rows || e.jti in JtisFrom(front, 0, |front|))
  {
    var n := |entries| - 1;
    var front, e := entries[..n], entries[n];
    if FlushConflicts(rows, front) {
      var i :| 0 <= i < n && (front[i].jti in rows || exists j :: 0 <= j < i && front[j].jti == front[i].jti);
      assert entries[i] == front[i];
      if front[i].jti !in rows {
        var j :| 0 <= j < i && front[j].jti == front[i].jti;
        assert entries[j] == front[j];
      }
    }
    if e.jti in JtisFrom(front, 0, n) {
      var j :| 0 <= j < n && front[j].jti == e.jti;
      assert entries[j].jti == entries[n].jti;
    }
    if FlushConflicts(rows, entries) {
      var i :| 0 <= i <= n && (entries[i].jti in rows || exists j :: 0 <= j < i && entries[j].jti == entries[i].jti);
      if entries[i].jti !in rows {
        var j :| 0 <= j < i && entries[j].jti == entries[i].jti;
        if i < n {
          assert front[i] == entries[i] && front[j] == entries[j];
        } else {
          assert front[j].jti in JtisFrom(front, 0, n);
        }
      } else if i < n {
        assert front[i] == entries[i];
      }
    }
  }

  lemma JtisFromStep(entries: seq<Entry>, i: nat, n: nat)
    requires i < n <= |entries|
    ensures JtisFrom(entries, i, n) == JtisFrom(entries, i, n - 1) + {entries[n - 1].jti}
  {
  }

  lemma TailStep(rows: Rows, entries: seq<Entry>, n: nat)
    requires 0 < n <= |entries|
    ensures var (tail, jti) := (TailJtis(rows, entries, n - 1), entries[n - 1].jti);
      TailJtis(rows, entries, n) == if jti in rows || jti in tail then {} else tail + {jti}
  {
    var k := KeptTail(rows, entries, n - 1);
    if KeptTail(rows, entries, n) != 0 {
      JtisFromStep(entries, n - 1 - k, n);
    }
  }

  /** One add, when the rows are the committed ones and `tail`. */
  lemma AddToTail(db: Db, tail: set<string>, e: Entry)
    requires db.current.Keys == db.committed.Keys + tail
    ensures var (after, conflict) := (Add(db, e), e.jti in db.committed || e.jti in tail);
      && after.committed == db.committed
      && after.current.Keys == db.committed.Keys + (if conflict then {} else tail + {e.jti})
  {
    assert e.jti in db.current <==> e.jti in db.current.Keys;
  }

  /** What the fallback loop leaves: the committed rows and the kept tail. Every
      other new token has been rolled back. */
  lemma {:induction false} FallbackKeeps(rows: Rows, entries: seq<Entry>, n: nat)
    requires n <= |entries|
    ensures OneByOne(Db(rows, rows), entries, n).committed == rows
    ensures OneByOne(Db(rows, rows), entries, n).current.Keys == rows.Keys + TailJtis(rows, entries, n)
  {
    if n > 0 {
      FallbackKeeps(rows, entries, n - 1);
      TailStep(rows, entries, n);
      AddToTail(OneByOne(Db(rows, rows), entries, n - 1), TailJtis(rows, entries, n - 1), entries[n - 1]);
    }
  }

  lemma GrownSize(rows: set<string>, tail: set<string>, jti: string)
    requires tail !! rows
    ensures jti !in rows && jti !in tail ==> |tail + {jti}| == |tail| + 1 && (tail + {jti}) !! rows
  {
  }

  lemma {:induction false} TailSize(rows: Rows, entries: seq<Entry>, n: nat)
    requires n <= |entries|
    ensures TailJtis(rows, entries, n) !! rows.Keys && |TailJtis(rows, entries, n)| == KeptTail(rows, entries, n)
  {
    if n > 0 {
      var tail, jti := TailJtis(rows, entries, n - 1), entries[n - 1].jti;
      TailSize(rows, entries, n - 1);
      TailStep(rows, entries, n);
      GrownSize(rows.Keys, tail, jti);
    }
  }

  lemma FallbackSize(rows: Rows, entries: seq<Entry>, n: nat)
    requires n <= |entries|
    ensures |OneByOne(Db(rows, rows), entries, n).current| == |rows| + KeptTail(rows, entries, n)
  {
    FallbackKeeps(rows, entries, n);
    TailSize(rows, entries, n);
    var current := OneByOne(Db(rows, rows), entries, n).current;
    assert |current| == |current.Keys| && |rows| == |rows.Keys|;
    assert |rows.Keys + TailJtis(rows, entries, n)| == |rows.Keys| + |TailJtis(rows, entries, n)|;
  }

  /** After `bulk_add` of any list, repeats included, all its tokens are revoked
      exactly if the first flush went through, or each is committed already or
      in the kept tail. */
  lemma BulkAddRevokesAllIff(db: Db, entries: seq<Entry>)
    ensures AllRevoked(AfterBulkAdd(db, entries).0, entries)
      <==> !FlushConflicts(db.current, entries)
           || forall i :: 0 <= i < |entries| ==>
                entries[i].jti in db.committed || entries[i].jti in TailJtis(db.committed, entries, |entries|)
  {
    if FlushConflicts(db.current, entries) {
      FallbackKeeps(db.committed, entries, |entries|);
    } else {
      AddAllKeys(db.current, entries);
    }
  }

  /** The first m entries are committed already; from there to n they are new
      and pairwise different. */
  ghost predicate KnownThenNew(rows: Rows, entries: seq<Entry>, m: nat, n: nat)
    requires m <= n <= |entries|
  {
    && (forall i :: 0 <= i < m ==> entries[i].jti in rows)
    && (forall i :: m <= i < n ==> entries[i].jti !in rows && entries[i].jti !in JtisFrom(entries, m, i))
  }

  /** One turn of the fallback loop, in counts. */
  lemma CountsStep(rows: Rows, entries: seq<Entry>, n: nat)
    requires 0 < n <= |entries|
    ensures var (before, conflict) := (KeptTail(rows, entries, n - 1),
                                       entries[n - 1].jti in rows
                                       || entries[n - 1].jti in TailJtis(rows, entries, n - 1));
      && KeptTail(rows, entries, n) == (if conflict then 0 else before + 1)
      && Successes(Db(rows, rows), entries, n)
           == Successes(Db(rows, rows), entries, n - 1) + (if conflict then 0 else 1)
  {
    FallbackKeeps(rows, entries, n - 1);
  }

  lemma {:induction false} KeptAtMostCounted(rows: Rows, entries: seq<Entry>, n: nat)
    requires n <= |entries|
    ensures KeptTail(rows, entries, n) <= Successes(Db(rows, rows), entries, n)
  {
    if n > 0 {
      KeptAtMostCounted(rows, entries, n - 1);
      CountsStep(rows, entries, n);
    }
  }

  lemma {:induction false} NothingLost(rows: Rows, entries: seq<Entry>, n: nat)
    requires n <= |entries|
    requires KeptTail(rows, entries, n) == Successes(Db(rows, rows), entries, n)
    ensures KnownThenNew(rows, entries, n - KeptTail(rows, entries, n), n)
  {
    if n > 0 {
      CountsStep(rows, entries, n);
      KeptAtMostCounted(rows, entries, n - 1);
      NothingLost(rows, entries, n - 1);
    }
  }

  lemma {:induction false} KnownThenNewKeepsAll(rows: Rows, entries: seq<Entry>, m: nat, n: nat)
    requires m <= n <= |entries| && KnownThenNew(rows, entries, m, n)
    ensures KeptTail(rows, entries, n) == Successes(Db(rows, rows), entries, n) == n - m
    decreases n
  {
    if n > 0 {
      KnownThenNewKeepsAll(rows, entries, if m < n then m else n - 1, n - 1);
      CountsStep(rows, entries, n);
    }
  }

  /** The count of the fallback is never below the rows it has added to the
      committed ones, and equal to them exactly for a list of committed tokens
      followed by new ones that are pairwise different. */
  lemma BulkAddCountIff(db: Db, entries: seq<Entry>)
    requires FlushConflicts(db.current, entries)
    ensures var (after, count) := AfterBulkAdd(db, entries);
      && |db.committed| <= |after.current| <= |db.committed| + count
      && (|after.current| == |db.committed| + count <==>
            exists m :: 0 <= m <= |entries| && KnownThenNew(db.committed, entries, m, |entries|))
  {
    FallbackSize(db.committed, entries, |entries|);
    KeptAtMostCounted(db.committed, entries, |entries|);
    if KeptTail(db.committed, entries, |entries|) == Successes(Db(db.committed, db.committed), entries, |entries|) {
      NothingLost(db.committed, entries, |entries|);
    }
    if m :| 0 <= m <= |entries| && KnownThenNew(db.committed, entries, m, |entries|) {
      KnownThenNewKeepsAll(db.committed, entries, m, |entries|);
    }
  }

  /** A list that repeats one new token reports one revocation and makes none. */
  lemma RepeatLosesToken(e: Entry)
    ensures var (after, count) := AfterBulkAdd(Db(map[], map[]), [e, e]);
      count == 1 && !IsRevoked(after, e.jti)
  {
    var entries, none := [e, e], Db(map[], map[]);
    assert entries[1].jti == entries[0].jti;
    assert FlushConflicts(map[], entries);
    assert OneByOne(none, entries, 1) == Add(OneByOne(none, entries, 0), e);
    assert OneByOne(none, entries, 2) == Add(OneByOne(none, entries, 1), e);
    assert Successes(none, entries, 1) == 1;
  }

  // ---------------------------------------------------------------- cleanup

  /** Another add shows whether a cleanup ran just before it, by what becomes of
      an unexpired revoked token, if and only if its own token is an expired row
      and the other is not committed: with the row there the add conflicts and
      rolls the other back. */
  lemma AddSeesCleanupIff(db: Db, e: Entry, other: string, now: Time)
    requires other != e.jti && IsRevoked(db, other) && db.current[other] >= now
    ensures (IsRevoked(Add(CleanupExpired(db, now), e), other) <==> IsRevoked(Add(db, e), other))
      <==> !(e.jti in db.current && db.current[e.jti] < now && other !in db.committed)
  {
  }

  datatype Op = AddOne(e: Entry) | AddMany(entries: seq<Entry>) | Cleanup | Commit | Rollback

  datatype Event = Event(op: Op, now: Time)

  function Step(db: Db, ev: Event): Db {
    match ev.op
    case AddOne(e) => Add(db, e)
    case AddMany(entries) => AfterBulkAdd(db, entries).0
    case Cleanup => CleanupExpired(db, ev.now)
    case Commit => Db(db.current, db.current)
    case Rollback => Db(db.committed, db.committed)
  }

  /** The step of a run from which the cleanups are deleted. */
  function StepUncleaned(db: Db, ev: Event): Db {
    if ev.op.Cleanup? then db else Step(db, ev)
  }

  function Run(db: Db, events: seq<Event>): Db
    decreases events
  {
    if events == [] then db else Run(Step(db, events[0]), events[1..])
  }

  function RunUncleaned(db: Db, events: seq<Event>): Db
    decreases events
  {
    if events == [] then db else RunUncleaned(StepUncleaned(db, events[0]), events[1..])
  }

  ghost predicate Clocked(start: Time, events: seq<Event>)
    decreases events
  {
    events == [] || (start <= events[0].now && Clocked(events[0].now, events[1..]))
  }

  function EndOf(start: Time, events: seq<Event>): Time
    decreases events
  {
    if events == [] then start else EndOf(events[0].now, events[1..])
  }

  /** A token carries its expiry, so every entry for it does. */
  type Expiry = string -> Time

  ghost predicate Consistent(expiry: Expiry, ev: Event) {
    match ev.op
    case AddOne(e) => e.expiresAt == expiry(e.jti)
    case AddMany(entries) => forall i :: 0 <= i < |entries| ==> entries[i].expiresAt == expiry(entries[i].jti)
    case _ => true
  }

  /** Rows hold the expiry of their token. */
  ghost predicate Dated(expiry: Expiry, rows: Rows) {
    forall j :: j in rows ==> rows[j] == expiry(j)
  }

  ghost predicate SameLive(expiry: Expiry, a: Rows, b: Rows, now: Time) {
    forall j :: expiry(j) >= now ==> (j in a <==> j in b)
  }

  /** The two databases hold the same unexpired tokens, and no unexpired
      committed token has been deleted. */
  ghost predicate SameLiveDb(expiry: Expiry, a: Db, b: Db, now: Time) {
    && Dated(expiry, a.committed) && Dated(expiry, a.current)
    && Dated(expiry, b.committed) && Dated(expiry, b.current)
    && SameLive(expiry, a.committed, b.committed, now)
    && SameLive(expiry, a.current, b.current, now)
    && Upright(expiry, b, now)
  }

  ghost predicate Upright(expiry: Expiry, db: Db, now: Time) {
    forall j :: j in db.committed && expiry(j) >= now ==> j in db.current
  }

  /** No answer of `is_revoked` about an unexpired token tells the two apart. */
  ghost predicate Agree(expiry: Expiry, a: Db, b: Db, now: Time) {
    forall j :: expiry(j) >= now ==> (IsRevoked(a, j) <==> IsRevoked(b, j))
  }

  predicate Lists(op: Op, j: string) {
    match op
    case AddOne(e) => e.jti == j
    case AddMany(entries) => exists i :: 0 <= i < |entries| && entries[i].jti == j
    case _ => false
  }

  /** The add conflicts and leaves j, revoked before or listed, rolled back. */
  predicate Loses(db: Db, op: Op, j: string) {
    match op
    case AddOne(e) => e.jti in db.current && j !in db.committed
    case AddMany(entries) =>
      FlushConflicts(db.current, entries) && j !in db.committed && j !in TailJtis(db.committed, entries, |entries|)
    case _ => false
  }

  /** The event is an add that rolls back an unexpired token in one of the two
      runs only. */
  ghost predicate Diverges(expiry: Expiry, a: Db, b: Db, ev: Event) {
    exists j :: expiry(j) >= ev.now && (IsRevoked(b, j) || Lists(ev.op, j)) && Loses(a, ev.op, j) != Loses(b, ev.op, j)
  }

  /** What an add leaves revoked. */
  lemma AddLeaves(db: Db, op: Op, now: Time, j: string)
    requires op.AddOne? || op.AddMany?
    requires j in db.committed ==> j in db.current
    ensures IsRevoked(Step(db, Event(op, now)), j) <==> (IsRevoked(db, j) || Lists(op, j)) && !Loses(db, op, j)
    ensures Step(db, Event(op, now)).committed == db.committed
  {
    if op.AddMany? {
      var entries, rows := op.entries, db.committed;
      if FlushConflicts(db.current, entries) {
        FallbackKeeps(rows, entries, |entries|);
        assert j in TailJtis(rows, entries, |entries|) ==> Lists(op, j);
      } else {
        AddAllKeys(db.current, entries);
        assert j in JtisFrom(entries, 0, |entries|) <==> Lists(op, j);
      }
    }
  }

  lemma {:induction false} AddAllDated(expiry: Expiry, rows: Rows, entries: seq<Entry>)
    requires Dated(expiry, rows) && forall i :: 0 <= i < |entries| ==> entries[i].expiresAt == expiry(entries[i].jti)
    ensures Dated(expiry, AddAll(rows, entries))
  {
    if entries != [] {
      AddAllDated(expiry, rows, entries[..|entries| - 1]);
    }
  }

  lemma {:induction false} OneByOneDated(expiry: Expiry, rows: Rows, entries: seq<Entry>, n: nat)
    requires Dated(expiry, rows) && forall i :: 0 <= i < |entries| ==> entries[i].expiresAt == expiry(entries[i].jti)
    requires n <= |entries|
    ensures OneByOne(Db(rows, rows), entries, n).committed == rows
    ensures Dated(expiry, OneByOne(Db(rows, rows), entries, n).current)
  {
    if n > 0 {
      OneByOneDated(expiry, rows, entries, n - 1);
    }
  }

  lemma StepDated(expiry: Expiry, db: Db, ev: Event)
    requires Dated(expiry, db.committed) && Dated(expiry, db.current) && Consistent(expiry, ev)
    ensures Dated(expiry, Step(db, ev).committed) && Dated(expiry, Step(db, ev).current)
  {
    if ev.op.AddMany? {
      AddAllDated(expiry, db.current, ev.op.entries);
      OneByOneDated(expiry, db.committed, ev.op.entries, |ev.op.entries|);
    }
  }

  lemma AddKeepsCommitted(expiry: Expiry, db: Db, ev: Event)
    requires (ev.op.AddOne? || ev.op.AddMany?) && Upright(expiry, db, ev.now)
    ensures Step(db, ev).committed == db.committed && Upright(expiry, Step(db, ev), ev.now)
  {
    if ev.op.AddMany? {
      FallbackKeeps(db.committed, ev.op.entries, |ev.op.entries|);
    }
    forall j | j in db.committed && expiry(j) >= ev.now ensures IsRevoked(Step(db, ev), j) {
      AddLeaves(db, ev.op, ev.now, j);
    }
  }

  lemma AddAgreesIff(expiry: Expiry, a: Db, b: Db, ev: Event)
    requires SameLiveDb(expiry, a, b, ev.now) && (ev.op.AddOne? || ev.op.AddMany?)
    ensures Agree(expiry, Step(a, ev), Step(b, ev), ev.now) <==> !Diverges(expiry, a, b, ev)
  {
    var x, y := Step(a, ev), Step(b, ev);
    forall j | expiry(j) >= ev.now
      ensures IsRevoked(x, j) != IsRevoked(y, j) <==>
        (IsRevoked(b, j) || Lists(ev.op, j)) && Loses(a, ev.op, j) != Loses(b, ev.op, j)
    {
      AddLeaves(a, ev.op, ev.now, j);
      AddLeaves(b, ev.op, ev.now, j);
    }
  }

  /** A step keeps the unexpired rows alike exactly if it does not diverge, and
      a divergence shows at once. */
  lemma StepAgreesIff(expiry: Expiry, a: Db, b: Db, ev: Event)
    requires SameLiveDb(expiry, a, b, ev.now) && Consistent(expiry, ev)
    ensures Agree(expiry, Step(a, ev), StepUncleaned(b, ev), ev.now) <==> !Diverges(expiry, a, b, ev)
    ensures !Diverges(expiry, a, b, ev) ==> SameLiveDb(expiry, Step(a, ev), StepUncleaned(b, ev), ev.now)
  {
    StepDated(expiry, a, ev);
    StepDated(expiry, b, ev);
    if ev.op.AddOne? || ev.op.AddMany? {
      AddAgreesIff(expiry, a, b, ev);
      AddKeepsCommitted(expiry, a, ev);
      AddKeepsCommitted(expiry, b, ev);
    }
  }

  /** Every answer after every event of the run is the same without cleanups. */
  ghost predicate AlwaysAgree(expiry: Expiry, a: Db, b: Db, events: seq<Event>)
    decreases events
  {
    events == [] ||
    (Agree(expiry, Step(a, events[0]), StepUncleaned(b, events[0]), events[0].now)
     && AlwaysAgree(expiry, Step(a, events[0]), StepUncleaned(b, events[0]), events[1..]))
  }

  ghost predicate NeverDiverges(expiry: Expiry, a: Db, b: Db, events: seq<Event>)
    decreases events
  {
    events == [] ||
    (!Diverges(expiry, a, b, events[0])
     && NeverDiverges(expiry, Step(a, events[0]), StepUncleaned(b, events[0]), events[1..]))
  }

  /** Deleting every cleanup from a run leaves all answers about unexpired
      tokens alone, after every event, if and only if no add rolls back an
      unexpired token with the cleanups only or without them only. */
  lemma {:induction false} CleanupUnobservableIff(expiry: Expiry, a: Db, b: Db, events: seq<Event>, start: Time)
    requires SameLiveDb(expiry, a, b, start) && Clocked(start, events)
    requires forall i :: 0 <= i < |events| ==> Consistent(expiry, events[i])
    ensures AlwaysAgree(expiry, a, b, events) <==> NeverDiverges(expiry, a, b, events)
    ensures NeverDiverges(expiry, a, b, events) ==>
      SameLiveDb(expiry, Run(a, events), RunUncleaned(b, events), EndOf(start, events))
    decreases events
  {
    if events != [] {
      var ev := events[0];
      assert SameLiveDb(expiry, a, b, ev.now);
      StepAgreesIff(expiry, a, b, ev);
      if !Diverges(expiry, a, b, ev) {
        CleanupUnobservableIff(expiry, Step(a, ev), StepUncleaned(b, ev), events[1..], ev.now);
      }
    }
  }

  /** A caller who only revokes tokens that have not expired. */
  ghost predicate Timely(ev: Event) {
    match ev.op
    case AddOne(e) => e.expiresAt >= ev.now
    case AddMany(entries) => forall i :: 0 <= i < |entries| ==> entries[i].expiresAt >= ev.now
    case _ => true
  }

  lemma {:induction false} SameTail(a: Rows, b: Rows, entries: seq<Entry>, n: nat)
    requires n <= |entries|
    requires forall i :: 0 <= i < |entries| ==> (entries[i].jti in a <==> entries[i].jti in b)
    ensures KeptTail(a, entries, n) == KeptTail(b, entries, n)
  {
    if n > 0 {
      SameTail(a, b, entries, n - 1);
    }
  }

  lemma TimelyStepAgrees(expiry: Expiry, a: Db, b: Db, ev: Event)
    requires SameLiveDb(expiry, a, b, ev.now) && Consistent(expiry, ev) && Timely(ev)
    ensures !Diverges(expiry, a, b, ev)
  {
    if ev.op.AddMany? {
      SameTail(a.committed, b.committed, ev.op.entries, |ev.op.entries|);
    }
  }

  lemma {:induction false} TimelyNeverDiverges(expiry: Expiry, a: Db, b: Db, events: seq<Event>, start: Time)
    requires SameLiveDb(expiry, a, b, start) && Clocked(start, events)
    requires forall i :: 0 <= i < |events| ==> Consistent(expiry, events[i]) && Timely(events[i])
    ensures NeverDiverges(expiry, a, b, events)
    decreases events
  {
    if events != [] {
      var ev := events[0];
      assert SameLiveDb(expiry, a, b, ev.now);
      TimelyStepAgrees(expiry, a, b, ev);
      StepAgreesIff(expiry, a, b, ev);
      TimelyNeverDiverges(expiry, Step(a, ev), StepUncleaned(b, ev), events[1..], ev.now);
    }
  }

  /** So its cleanups change no answer about an unexpired token. */
  lemma CleanupUnobservable(expiry: Expiry, events: seq<Event>, jti: string, start: Time)
    requires Clocked(start, events)
    requires forall i :: 0 <= i < |events| ==> Consistent(expiry, events[i]) && Timely(events[i])
    requires EndOf(start, events) <= expiry(jti)
    ensures IsRevoked(Run(Db(map[], map[]), events), jti) <==> IsRevoked(RunUncleaned(Db(map[], map[]), events), jti)
  {
    var empty := Db(map[], map[]);
    TimelyNeverDiverges(expiry, empty, empty, events, start);
    CleanupUnobservableIff(expiry, empty, empty, events, start);
  }

  lemma RunCons(db: Db, ev: Event, rest: seq<Event>)
    ensures Run(db, [ev] + rest) == Run(Step(db, ev), rest)
    ensures RunUncleaned(db, [ev] + rest) == RunUncleaned(StepUncleaned(db, ev), rest)
  {
    assert ([ev] + rest)[1..] == rest;
  }

  /** A run that diverges: revoking an expired token a second time conflicts,
      and rolls back, only if its row has not been cleaned up. `db` is left by
      revoking `expired` at 0, its expiry being 10, and committing. */
  lemma LateRevocationSeesCleanup(expired: string, live: string) returns (db: Db, events: seq<Event>)
    requires expired != live
    ensures db == Step(Step(Db(map[], map[]), Event(AddOne(Entry(expired, 10.0)), 0.0)), Event(Commit, 0.0))
    ensures forall i :: 0 <= i < |events| ==> events[i].now == 20.0
    ensures IsRevoked(Run(db, events), live)
    ensures !IsRevoked(RunUncleaned(db, events), live)
  {
    var rows: Rows := map[expired := 10.0];
    db := Db(rows, rows);
    var clean, addLive := Event(Cleanup, 20.0), Event(AddOne(Entry(live, 99.0)), 20.0);
    var again := Event(AddOne(Entry(expired, 10.0)), 20.0);
    events := [clean] + ([addLive] + ([again] + []));
    RunCons(db, clean, [addLive] + ([again] + []));
    RunCons(Step(db, clean), addLive, [again] + []);
    RunCons(Step(Step(db, clean), addLive), again, []);
    RunCons(db, addLive, [again] + []);
    RunCons(Step(db, addLive), again, []);
  }
}
