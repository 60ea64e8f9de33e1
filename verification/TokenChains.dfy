/** Token rotation over whole runs: the tokens of a session form one chain,
    linked by `replaced_by_jti` (app/models/session.py). */
module TokenChains {
  import opened Wrappers
  import opened AuthStore
  import opened AuthRuns

  /** Where a token stands: the n-th one issued for its session. */
  datatype Place = Place(sid: string, index: nat)

  /** Every token ever issued, whether or not its row still exists, and how
      many each session was given. */
  datatype Ledger = Ledger(places: map<string, Place>, lengths: map<string, nat>) {
    function Length(sid: string): nat {
      if sid in lengths then lengths[sid] else 0
    }

    function Append(sid: string, jti: string): Ledger {
      Ledger(places[jti := Place(sid, Length(sid))], lengths[sid := Length(sid) + 1])
    }
  }

  /** The ledger has the same two levels as the database. */
  datatype Books = Books(committed: Ledger, current: Ledger)

  function Record(books: Books, db: Db, op: Op, now: Time): Books {
    if RollsBack(db, op, now) then Books(books.committed, books.committed)
    else match op
      case Commit => Books(books.current, books.current)
      case StoreToken(jti, _, sid, _) =>
        if Step(db, op, now).1.Done? then Books(books.committed, books.current.Append(sid.value, jti)) else books
      case Refresh(oldJti, newJti, _, _, _, _, _, _) =>
        // a ValueError from the store leaves the old token marked
        var r := Step(db, op, now).1;
        if r.Done? || r.ValueError?
        then Books(books.committed, books.current.Append(db.current.tokens[oldJti].sessionId, newJti))
        else books
      case _ => books
  }

  /** A token is stored directly only as the first of its session; new
      identifiers have never been issued. */
  predicate Rotating(ledger: Ledger, op: Op) {
    match op
    case StoreToken(jti, _, sid, _) => jti !in ledger.places && (sid.Some? ==> ledger.Length(sid.value) == 0)
    case Refresh(_, newJti, _, _, _, _, _, _) => newJti != "" && newJti !in ledger.places
    case _ => true
  }

  /** No two tokens share a place, and every place is within its session's count. */
  ghost predicate Proper(ledger: Ledger) {
    && (forall j :: j in ledger.places ==> ledger.places[j].index < ledger.Length(ledger.places[j].sid))
    && (forall j, k :: j in ledger.places && k in ledger.places && ledger.places[j] == ledger.places[k] ==> j == k)
  }

  /** A row agrees with the ledger: each token but the last of its session is
      used and points to the next one, and the last points nowhere. */
  ghost predicate Linked(ledger: Ledger, jti: string, token: RefreshToken) {
    && jti in ledger.places
    && ledger.places[jti].sid == token.sessionId
    && var next := ledger.places[jti].index + 1;
       if next < ledger.Length(token.sessionId)
       then token.usedAt.Some? && token.replacedBy.Some? && token.replacedBy.value in ledger.places
            && ledger.places[token.replacedBy.value] == Place(token.sessionId, next)
       else token.replacedBy.None?
  }

  ghost predicate Chained(t: Tables, ledger: Ledger) {
    && Proper(ledger)
    && forall j :: j in t.tokens ==> Linked(ledger, j, t.tokens[j])
  }

  lemma AppendProper(ledger: Ledger, sid: string, jti: string)
    requires Proper(ledger) && jti !in ledger.places
    ensures Proper(ledger.Append(sid, jti))
  {
    var l := ledger.Append(sid, jti);
    forall j | j in l.places ensures l.places[j].index < l.Length(l.places[j].sid) {
      if j != jti {
        assert ledger.places[j].index < ledger.Length(ledger.places[j].sid);
      }
    }
    forall j, k | j in l.places && k in l.places && l.places[j] == l.places[k] ensures j == k {
    }
  }

  /** Appending to a session alters the status of no token but its last. */
  lemma AppendLinks(ledger: Ledger, sid: string, jti: string, j: string, token: RefreshToken)
    requires Proper(ledger) && jti !in ledger.places && Linked(ledger, j, token)
    requires token.sessionId == sid ==> ledger.places[j].index + 1 < ledger.Length(sid)
    ensures Linked(ledger.Append(sid, jti), j, token)
  {
  }

  /** Only the last token of a session, here `last`, is affected by an append. */
  lemma AppendChained(t: Tables, ledger: Ledger, sid: string, jti: string, last: string)
    requires Chained(t, ledger) && jti !in ledger.places
    requires last in ledger.places ==>
      ledger.places[last].sid == sid && ledger.places[last].index + 1 == ledger.Length(sid)
    requires last !in ledger.places ==> ledger.Length(sid) == 0
    ensures Proper(ledger.Append(sid, jti))
    ensures forall j :: j in t.tokens && j != last ==> Linked(ledger.Append(sid, jti), j, t.tokens[j])
  {
    AppendProper(ledger, sid, jti);
    forall j | j in t.tokens && j != last ensures Linked(ledger.Append(sid, jti), j, t.tokens[j]) {
      assert Linked(ledger, j, t.tokens[j]);
      assert ledger.places[j].index < ledger.Length(ledger.places[j].sid);
      AppendLinks(ledger, sid, jti, j, t.tokens[j]);
    }
  }

  lemma RotatedLinks(ledger: Ledger, token: RefreshToken, oldJti: string, newJti: string, now: Time)
    requires Linked(ledger, oldJti, token) && newJti != "" && newJti !in ledger.places
    requires ledger.places[oldJti].index + 1 == ledger.Length(token.sessionId)
    ensures Linked(ledger.Append(token.sessionId, newJti), oldJti, token.MarkAsUsed(newJti, now))
  {
  }

  lemma RotationStaysChained(db: Db, books: Books, op: Op, now: Time)
    requires Chained(db.current, books.current) && Rotating(books.current, op)
    requires op.Refresh? && !RollsBack(db, op, now)
    ensures Chained(Step(db, op, now).0.current, Record(books, db, op, now).current)
  {
    var r := Step(db, op, now).1;
    if r.Done? || r.ValueError? {
      var token := db.current.tokens[op.oldJti];
      assert Linked(books.current, op.oldJti, token);
      assert books.current.places[op.oldJti].index < books.current.Length(token.sessionId);
      AppendChained(db.current, books.current, token.sessionId, op.newJti, op.oldJti);
      var ledger, t' := books.current.Append(token.sessionId, op.newJti), Step(db, op, now).0.current;
      forall j | j in t'.tokens ensures Linked(ledger, j, t'.tokens[j]) {
        if j == op.oldJti {
          RotatedLinks(books.current, token, op.oldJti, op.newJti, now);
        } else if j != op.newJti {
          assert t'.tokens[j] == db.current.tokens[j];
        }
      }
    }
  }

  lemma FirstTokenStaysChained(db: Db, books: Books, op: Op, now: Time)
    requires Chained(db.current, books.current) && Rotating(books.current, op)
    requires op.StoreToken? && Step(db, op, now).1.Done?
    ensures Chained(Step(db, op, now).0.current, Record(books, db, op, now).current)
  {
    AppendChained(db.current, books.current, op.sessionId.value, op.jti, op.jti);
  }

  /** Every other operation keeps rows as they are, marks them used or drops them. */
  lemma OthersStayChained(db: Db, ledger: Ledger, op: Op, now: Time)
    requires Chained(db.current, ledger) && !RollsBack(db, op, now)
    requires !op.Refresh? && (op.StoreToken? ==> !Step(db, op, now).1.Done?)
    ensures Chained(Step(db, op, now).0.current, ledger)
  {
    var t, t' := db.current, Step(db, op, now).0.current;
    forall j | j in t'.tokens ensures Linked(ledger, j, t'.tokens[j]) {
      assert Linked(ledger, j, t.tokens[j]);
    }
  }

  lemma StepStaysChained(db: Db, books: Books, op: Op, now: Time)
    requires Chained(db.current, books.current) && Chained(db.committed, books.committed)
    requires Rotating(books.current, op)
    ensures Chained(Step(db, op, now).0.current, Record(books, db, op, now).current)
    ensures Chained(Step(db, op, now).0.committed, Record(books, db, op, now).committed)
  {
    if RollsBack(db, op, now) {
      RollbackRestores(db, op, now);
    } else if op.Refresh? {
      RotationStaysChained(db, books, op, now);
    } else if op.StoreToken? && Step(db, op, now).1.Done? {
      FirstTokenStaysChained(db, books, op, now);
    } else {
      OthersStayChained(db, books.current, op, now);
    }
  }

  ghost predicate AllRotating(db: Db, books: Books, events: seq<Event>)
    decreases events
  {
    events == [] ||
    (Rotating(books.current, events[0].op)
     && AllRotating(Step(db, events[0].op, events[0].now).0,
                    Record(books, db, events[0].op, events[0].now), events[1..]))
  }

  function RecordAll(db: Db, books: Books, events: seq<Event>): Books
    decreases events
  {
    if events == [] then books else
      RecordAll(Step(db, events[0].op, events[0].now).0, Record(books, db, events[0].op, events[0].now), events[1..])
  }

  /** Rotation, revocation, logout, cleanup, commit and rollback in any order
      keep every session's tokens on a single chain. */
  lemma {:induction false} RunsStayChained(db: Db, books: Books, events: seq<Event>)
    requires Chained(db.current, books.current) && Chained(db.committed, books.committed)
    requires AllRotating(db, books, events)
    ensures Chained(Run(db, events).current, RecordAll(db, books, events).current)
    decreases events
  {
    if events != [] {
      var op, now := events[0].op, events[0].now;
      StepStaysChained(db, books, op, now);
      RunsStayChained(Step(db, op, now).0, Record(books, db, op, now), events[1..]);
    }
  }

  /** The run starts from an empty database. */
  const EMPTY := Tables(map[], map[])
  const NO_LEDGER := Ledger(map[], map[])

  ghost predicate Reachable(t: Tables, ledger: Ledger) {
    exists events: seq<Event> :: AllRotating(Db(EMPTY, EMPTY), Books(NO_LEDGER, NO_LEDGER), events)
      && t == Run(Db(EMPTY, EMPTY), events).current
      && ledger == RecordAll(Db(EMPTY, EMPTY), Books(NO_LEDGER, NO_LEDGER), events).current
  }

  lemma ReachableIsChained(t: Tables, ledger: Ledger)
    requires Reachable(t, ledger)
    ensures Chained(t, ledger)
  {
    var events: seq<Event> :| AllRotating(Db(EMPTY, EMPTY), Books(NO_LEDGER, NO_LEDGER), events)
      && t == Run(Db(EMPTY, EMPTY), events).current
      && ledger == RecordAll(Db(EMPTY, EMPTY), Books(NO_LEDGER, NO_LEDGER), events).current;
    RunsStayChained(Db(EMPTY, EMPTY), Books(NO_LEDGER, NO_LEDGER), events);
  }

  /** A session has at most one token that can still be used. */
  lemma OneUnusedToken(t: Tables, ledger: Ledger, j: string, k: string)
    requires Reachable(t, ledger)
    requires j in t.tokens && k in t.tokens && t.tokens[j].sessionId == t.tokens[k].sessionId
    requires t.tokens[j].usedAt.None? && t.tokens[k].usedAt.None?
    ensures j == k
  {
    ReachableIsChained(t, ledger);
    assert Linked(ledger, j, t.tokens[j]) && Linked(ledger, k, t.tokens[k]);
    assert ledger.places[j] == ledger.places[k];
  }

  /** p follows `replaced_by_jti` through existing rows. */
  ghost predicate IsTrail(t: Tables, p: seq<string>) {
    forall i {:trigger p[i]} :: 0 < i < |p| ==>
      p[i - 1] in t.tokens && t.tokens[p[i - 1]].replacedBy == Some(p[i])
  }

  lemma LinkClimbs(t: Tables, ledger: Ledger, j: string, k: string)
    requires Chained(t, ledger) && j in t.tokens && t.tokens[j].replacedBy == Some(k)
    ensures j in ledger.places && k in ledger.places
    ensures ledger.places[k] == Place(ledger.places[j].sid, ledger.places[j].index + 1)
  {
    assert Linked(ledger, j, t.tokens[j]);
  }

  /** Following `replaced_by_jti` always terminates: a trail visits places in
      order, so it never repeats a token and is no longer than the chain. */
  lemma {:induction false} TrailsClimb(t: Tables, ledger: Ledger, p: seq<string>, n: nat)
    requires Chained(t, ledger) && IsTrail(t, p) && n < |p| && p[0] in t.tokens
    ensures p[0] in ledger.places && p[n] in ledger.places
    ensures ledger.places[p[n]] == Place(ledger.places[p[0]].sid, ledger.places[p[0]].index + n)
  {
    if n == 0 {
      assert Linked(ledger, p[0], t.tokens[p[0]]);
    } else {
      TrailsClimb(t, ledger, p, n - 1);
      LinkClimbs(t, ledger, p[n - 1], p[n]);
    }
  }

  lemma TrailsTerminate(t: Tables, ledger: Ledger, p: seq<string>)
    requires Reachable(t, ledger)
    requires IsTrail(t, p) && p != [] && p[0] in t.tokens
    ensures |p| <= ledger.Length(t.tokens[p[0]].sessionId)
    ensures forall i, j :: 0 <= i < j < |p| ==> p[i] != p[j]
  {
    ReachableIsChained(t, ledger);
    assert Linked(ledger, p[0], t.tokens[p[0]]);
    TrailsClimb(t, ledger, p, |p| - 1);
    forall i, j | 0 <= i < j < |p| ensures p[i] != p[j] {
      TrailsClimb(t, ledger, p, i);
      TrailsClimb(t, ledger, p, j);
    }
  }

  /** The runs are all there can be: any session may be given its first token, any
      new identifier may be rotated to, and every other operation is free. */
  lemma RotatingIff(ledger: Ledger, op: Op)
    ensures op.StoreToken? && op.sessionId.Some? ==>
      (Rotating(ledger, op) <==>
        op.jti !in ledger.places && (op.sessionId.value in ledger.lengths ==> ledger.lengths[op.sessionId.value] == 0))
    ensures op.Refresh? ==> (Rotating(ledger, op) <==> |op.newJti| > 0 && op.newJti !in ledger.places)
    ensures !op.StoreToken? && !op.Refresh? ==> Rotating(ledger, op)
  {
  }
}
