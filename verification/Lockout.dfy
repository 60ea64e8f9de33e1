/** The login lockout over whole runs: the brute-force steps of `login` in
    app/services/auth.py on top of app/repositories/login_attempt.py, inside the
    transaction that app/core/dependencies.py opens for each request.

    A request that ends in an exception is rolled back, and the login endpoint
    raises one for every wrong sign-in. Whether a sign-in's request commits is
    therefore an input of each event, and what the endpoint does with it is
    stated apart. */
module Lockout {
  import opened SlidingWindow
  import LoginAttempts

  const MAX_LOGIN_ATTEMPTS := 5
  const LOCKOUT_MINUTES := 30

  const WINDOW: Time := 1800.0

  type Rows = seq<LoginAttempts.Attempt>

  /** A sign-in, whether its credentials are right and whether its request
      commits, or a cleanup. */
  datatype Event =
    | SignIn(email: string, tenant: int, correct: bool, commits: bool, ip: string, now: Time)
    | Cleanup(days: int, now: Time)

  function IdentifierOf(e: Event): string
    requires e.SignIn?
  {
    LoginAttempts.Identifier(LoginAttempts.Normalize(LoginAttempts.Normalize(e.email)), e.tenant)
  }

  predicate Locked(rows: Rows, e: Event)
    requires e.SignIn?
  {
    LoginAttempts.IsLockedOut(rows, LoginAttempts.Normalize(e.email), e.tenant,
        MAX_LOGIN_ATTEMPTS, LOCKOUT_MINUTES, e.now)
  }

  /** The committed rows after a request. */
  function Step(rows: Rows, e: Event): Rows {
    match e
    case SignIn(_, _, correct, commits, ip, now) =>
      if Locked(rows, e) || !commits then rows
      else rows + [LoginAttempts.Attempt(IdentifierOf(e), ip, correct, now)]
    case Cleanup(_, _) => LoginAttempts.KeepSince(rows, CutoffOf(e))
  }

  /** A cleanup keeps the attempts from here on. */
  function CutoffOf(e: Event): Time
    requires e.Cleanup?
  {
    e.now - e.days as real * LoginAttempts.DAY
  }

  datatype Outcome = Success | Failure | AccountLocked

  /** `login`, as far as the lockout goes. */
  method Login(repository: LoginAttempts.LoginAttemptRepository,
                 email: string, tenant: int, correct: bool, ip: string, now: Time)
    returns (o: Outcome)
    modifies repository
    ensures repository.rows == Step(old(repository.rows), SignIn(email, tenant, correct, true, ip, now))
    ensures o.AccountLocked? <==> Locked(old(repository.rows), SignIn(email, tenant, correct, true, ip, now))
    ensures !o.AccountLocked? ==> (o.Success? <==> correct)
  {
    var normalizedEmail := LoginAttempts.Normalize(email);
    if LoginAttempts.IsLockedOut(repository.rows, normalizedEmail, tenant, MAX_LOGIN_ATTEMPTS, LOCKOUT_MINUTES, now) {
      return AccountLocked;
    }
    var _ := repository.RecordAttempt(normalizedEmail, tenant, correct, ip, now);
    o := if correct then Success else Failure;
  }

  /** The login endpoint with the session its dependency provides. */
  class LoginEndpoint {
    var committed: Rows

    constructor ()
      ensures committed == []
    {
      committed := [];
    }

    /** One request. A wrong sign-in and a locked account end in an exception,
        and the dependency rolls the session back. */
    method Post(email: string, tenant: int, correct: bool, ip: string, now: Time) returns (o: Outcome)
      modifies this
      ensures committed == Step(old(committed), SignIn(email, tenant, correct, correct, ip, now))
      ensures o.AccountLocked? <==> Locked(old(committed), SignIn(email, tenant, correct, correct, ip, now))
      ensures !o.Success? ==> committed == old(committed)
    {
      var session := new LoginAttempts.LoginAttemptRepository();
      session.rows := committed;
      o := Login(session, email, tenant, correct, ip, now);
      if o.Success? {
        committed := session.rows;
      }
    }
  }

  function Run(events: seq<Event>): Rows {
    if events == [] then [] else Step(Run(events[..|events| - 1]), events[|events| - 1])
  }

  /** The wrong sign-ins of an identifier that got past the lock, in a whole
      run, whether or not their requests committed. */
  function WrongSignIns(events: seq<Event>, id: string): seq<Time> {
    if events == [] then [] else
      var n := |events| - 1;
      var e, before := events[n], WrongSignIns(events[..n], id);
      if Fails(Run(events[..n]), e, id) then before + [e.now] else before
  }

  /** Those whose requests committed, cleaned up since or not. */
  function Recorded(events: seq<Event>, id: string): seq<Time> {
    if events == [] then [] else
      var n := |events| - 1;
      var e, before := events[n], Recorded(events[..n], id);
      if FailsRecorded(Run(events[..n]), e, id) then before + [e.now] else before
  }

  /** Those whose requests were rolled back. */
  function Lost(events: seq<Event>, id: string): seq<Time> {
    if events == [] then [] else
      var n := |events| - 1;
      var e, before := events[n], Lost(events[..n], id);
      if Fails(Run(events[..n]), e, id) && !e.commits then before + [e.now] else before
  }

  /** The clock does not go back, and cleanups retain at least a day. */
  ghost predicate Orderly(events: seq<Event>, end: Time)
    decreases events
  {
    events == [] ||
    var e := events[|events| - 1];
    e.now <= end && Orderly(events[..|events| - 1], e.now) && (e.Cleanup? ==> e.days >= 1)
  }

  /** The failures of an identifier still in the table. */
  function Stored(rows: Rows, id: string): seq<Time> {
    if rows == [] then [] else
      var n := |rows| - 1;
      var before := Stored(rows[..n], id);
      if rows[n].identifier == id && !rows[n].success then before + [rows[n].at] else before
  }

  lemma {:induction false} CountIsSince(rows: Rows, id: string, cutoff: Time)
    ensures LoginAttempts.Count(rows, LoginAttempts.Equals(id), cutoff) == |Since(Closed, Stored(rows, id), cutoff)|
  {
    if rows != [] {
      var n := |rows| - 1;
      CountIsSince(rows[..n], id, cutoff);
      SinceAppend(Closed, Stored(rows[..n], id), rows[n].at, cutoff);
    }
  }

  lemma LockedByStored(rows: Rows, e: Event)
    requires e.SignIn?
    ensures Locked(rows, e) <==> |Since(Closed, Stored(rows, IdentifierOf(e)), e.now - WINDOW)| >= MAX_LOGIN_ATTEMPTS
  {
    CountIsSince(rows, IdentifierOf(e), e.now - WINDOW);
  }

  lemma StoredAppend(rows: Rows, a: LoginAttempts.Attempt, id: string)
    ensures Stored(rows + [a], id)
         == if a.identifier == id && !a.success then Stored(rows, id) + [a.at] else Stored(rows, id)
  {
    assert (rows + [a])[..|rows|] == rows;
  }

  lemma {:induction false} StoredAfterKeep(rows: Rows, kept: Time, id: string, cutoff: Time)
    requires kept <= cutoff
    ensures Since(Closed, Stored(LoginAttempts.KeepSince(rows, kept), id), cutoff)
         == Since(Closed, Stored(rows, id), cutoff)
  {
    if rows != [] {
      var n := |rows| - 1;
      var front := LoginAttempts.KeepSince(rows[..n], kept);
      StoredAfterKeep(rows[..n], kept, id, cutoff);
      SinceAppend(Closed, Stored(rows[..n], id), rows[n].at, cutoff);
      SinceAppend(Closed, Stored(front, id), rows[n].at, cutoff);
      StoredAppend(front, rows[n], id);
      assert front + [] == front;
    }
  }

  /** The event is a wrong sign-in of this identifier that got past the lock. */
  predicate Fails(rows: Rows, e: Event, id: string) {
    e.SignIn? && IdentifierOf(e) == id && !e.correct && !Locked(rows, e)
  }

  predicate FailsRecorded(rows: Rows, e: Event, id: string) {
    Fails(rows, e, id) && e.commits
  }

  lemma CleanupKeepsWindow(rows: Rows, e: Event, id: string, cutoff: Time)
    requires e.Cleanup? && e.days >= 1 && e.now <= cutoff + WINDOW
    ensures Since(Closed, Stored(LoginAttempts.KeepSince(rows, CutoffOf(e)), id), cutoff)
         == Since(Closed, Stored(rows, id), cutoff)
  {
    assert e.days as real * LoginAttempts.DAY >= LoginAttempts.DAY;
    StoredAfterKeep(rows, CutoffOf(e), id, cutoff);
  }

  lemma StepKeepsWindow(rows: Rows, e: Event, id: string, cutoff: Time)
    requires e.now <= cutoff + WINDOW && (e.Cleanup? ==> e.days >= 1)
    ensures Since(Closed, Stored(Step(rows, e), id), cutoff)
         == Since(Closed, if FailsRecorded(rows, e, id) then Stored(rows, id) + [e.now] else Stored(rows, id), cutoff)
  {
    match e
    case SignIn(_, _, correct, _, ip, now) =>
      StoredAppend(rows, LoginAttempts.Attempt(IdentifierOf(e), ip, correct, now), id);
    case Cleanup(_, _) => CleanupKeepsWindow(rows, e, id, cutoff);
  }

  /** The table, cleaned or not, shows any window a later sign-in looks at as
      the full history does. */
  lemma {:induction false} StoredIsHistory(events: seq<Event>, id: string, cutoff: Time)
    requires Orderly(events, cutoff + WINDOW)
    ensures Since(Closed, Stored(Run(events), id), cutoff) == Since(Closed, Recorded(events, id), cutoff)
  {
    if events != [] {
      var n := |events| - 1;
      var e, rows := events[n], Run(events[..n]);
      OrderlyLater(events[..n], e.now, cutoff + WINDOW);
      StoredIsHistory(events[..n], id, cutoff);
      StepKeepsWindow(rows, e, id, cutoff);
      SinceAppend(Closed, Stored(rows, id), e.now, cutoff);
      SinceAppend(Closed, Recorded(events[..n], id), e.now, cutoff);
    }
  }

  lemma OrderlyLater(events: seq<Event>, end: Time, later: Time)
    requires Orderly(events, end) && end <= later
    ensures Orderly(events, later)
  {
  }

  /** How many recorded wrong sign-ins the window before `now` holds. */
  function Recent(events: seq<Event>, id: string, now: Time): nat {
    |Since(Closed, Recorded(events, id), now - WINDOW)|
  }

  lemma LockedIsCount(events: seq<Event>, e: Event)
    requires e.SignIn? && Orderly(events, e.now)
    ensures Locked(Run(events), e) <==> Recent(events, IdentifierOf(e), e.now) >= MAX_LOGIN_ATTEMPTS
  {
    LockedByStored(Run(events), e);
    StoredIsHistory(events, IdentifierOf(e), e.now - WINDOW);
  }

  lemma FailsWithRoom(events: seq<Event>, e: Event, id: string)
    requires Orderly(events, e.now) && FailsRecorded(Run(events), e, id)
    ensures Recent(events, id, e.now) < MAX_LOGIN_ATTEMPTS
  {
    LockedIsCount(events, e);
  }

  /** `after` is `before`, or `before` and t when its window had room. */
  ghost predicate Grows(before: seq<Time>, after: seq<Time>, t: Time) {
    after == before || (after == before + [t] && |Since(Closed, before, t - WINDOW)| < MAX_LOGIN_ATTEMPTS)
  }

  /** A failure is recorded only if the window still had room for it. */
  lemma RecordedStep(events: seq<Event>, id: string)
    requires events != [] && Orderly(events[..|events| - 1], events[|events| - 1].now)
    ensures Grows(Recorded(events[..|events| - 1], id), Recorded(events, id), events[|events| - 1].now)
  {
    var front, e := events[..|events| - 1], events[|events| - 1];
    if FailsRecorded(Run(front), e, id) {
      FailsWithRoom(front, e, id);
    }
  }

  ghost predicate Bounded(times: seq<Time>, end: Time) {
    Admitted(Closed, times, WINDOW, MAX_LOGIN_ATTEMPTS) && NotLater(times, end)
  }

  lemma GrowsBounded(before: seq<Time>, after: seq<Time>, t: Time, end: Time)
    requires Bounded(before, t) && Grows(before, after, t) && t <= end
    ensures Bounded(after, end)
  {
    if after != before {
      AdmittedAppend(Closed, before, t, WINDOW, MAX_LOGIN_ATTEMPTS);
    }
  }

  lemma {:induction false} RecordedBounded(events: seq<Event>, id: string, end: Time)
    requires Orderly(events, end)
    ensures Bounded(Recorded(events, id), end)
  {
    if events != [] {
      var front, e := events[..|events| - 1], events[|events| - 1];
      RecordedBounded(front, id, e.now);
      RecordedStep(events, id);
      GrowsBounded(Recorded(front, id), Recorded(events, id), e.now, end);
    }
  }

  lemma RecordedBound(events: seq<Event>, id: string, now: Time, end: Time)
    requires Orderly(events, now)
    ensures |Within(Closed, Recorded(events, id), end - WINDOW, end)| <= MAX_LOGIN_ATTEMPTS
  {
    RecordedBounded(events, id, now);
    WindowBound(Closed, Recorded(events, id), WINDOW, MAX_LOGIN_ATTEMPTS, end);
  }

  lemma {:induction false} WrongSignInsSplit(events: seq<Event>, id: string, start: Time, end: Time)
    ensures |Within(Closed, WrongSignIns(events, id), start, end)|
         == |Within(Closed, Recorded(events, id), start, end)| + |Within(Closed, Lost(events, id), start, end)|
  {
    if events != [] {
      var n := |events| - 1;
      var e := events[n];
      WrongSignInsSplit(events[..n], id, start, end);
      WithinAppend(WrongSignIns(events[..n], id), e.now, start, end);
      WithinAppend(Recorded(events[..n], id), e.now, start, end);
      WithinAppend(Lost(events[..n], id), e.now, start, end);
    }
  }

  lemma WithinAppend(times: seq<Time>, t: Time, start: Time, end: Time)
    ensures |Within(Closed, times + [t], start, end)|
         == |Within(Closed, times, start, end)| + if start <= t <= end then 1 else 0
  {
    assert (times + [t])[..|times|] == times;
  }

  /** The lockout in any run, whichever requests commit: thirty minutes hold at
      most five wrong sign-ins for one email and tenant, and those rolled back. */
  lemma LockoutBound(events: seq<Event>, id: string, now: Time, end: Time)
    requires Orderly(events, now)
    ensures |Within(Closed, WrongSignIns(events, id), end - WINDOW, end)|
         <= MAX_LOGIN_ATTEMPTS + |Within(Closed, Lost(events, id), end - WINDOW, end)|
  {
    WrongSignInsSplit(events, id, end - WINDOW, end);
    RecordedBound(events, id, now, end);
  }

  /** No account is locked early: exactly when the last thirty minutes hold five
      wrong sign-ins whose requests committed. */
  lemma LockedIffFull(events: seq<Event>, e: Event)
    requires e.SignIn? && Orderly(events, e.now)
    ensures Locked(Run(events), e) <==> Recent(events, IdentifierOf(e), e.now) == MAX_LOGIN_ATTEMPTS
  {
    LockedIsCount(events, e);
    RecentBound(events, IdentifierOf(e), e.now);
  }

  lemma RecentBound(events: seq<Event>, id: string, now: Time)
    requires Orderly(events, now)
    ensures Recent(events, id, now) <= MAX_LOGIN_ATTEMPTS
  {
    RecordedBounded(events, id, now);
    WindowBound(Closed, Recorded(events, id), WINDOW, MAX_LOGIN_ATTEMPTS, now);
    SinceIsWithin(Closed, Recorded(events, id), now - WINDOW, now);
  }

  /** The run without the sign-ins of other identifiers. */
  function OnlyOf(events: seq<Event>, id: string): seq<Event> {
    if events == [] then [] else
      var n := |events| - 1;
      OnlyOf(events[..n], id) + if events[n].SignIn? && IdentifierOf(events[n]) != id then [] else [events[n]]
  }

  lemma {:induction false} KeepStored(rows: Rows, others: Rows, kept: Time, id: string)
    requires StoredRows(rows, id) == StoredRows(others, id)
    ensures StoredRows(LoginAttempts.KeepSince(rows, kept), id) == StoredRows(LoginAttempts.KeepSince(others, kept), id)
  {
    KeepCommutes(rows, kept, id);
    KeepCommutes(others, kept, id);
  }

  function StoredRows(rows: Rows, id: string): Rows {
    if rows == [] then [] else
      var n := |rows| - 1;
      StoredRows(rows[..n], id) + if rows[n].identifier == id then [rows[n]] else []
  }

  lemma {:induction false} KeepCommutes(rows: Rows, kept: Time, id: string)
    ensures StoredRows(LoginAttempts.KeepSince(rows, kept), id) == LoginAttempts.KeepSince(StoredRows(rows, id), kept)
  {
    if rows != [] {
      var n := |rows| - 1;
      KeepCommutes(rows[..n], kept, id);
      var front, mine := LoginAttempts.KeepSince(rows[..n], kept), StoredRows(rows[..n], id);
      StoredRowsAppend(front, rows[n], id);
      assert (mine + [rows[n]])[..|mine|] == mine;
      assert front + [] == front && mine + [] == mine;
    }
  }

  lemma StoredRowsAppend(rows: Rows, a: LoginAttempts.Attempt, id: string)
    ensures StoredRows(rows + [a], id) == StoredRows(rows, id) + if a.identifier == id then [a] else []
  {
    assert (rows + [a])[..|rows|] == rows;
  }

  lemma {:induction false} StoredOfRows(rows: Rows, id: string)
    ensures Stored(StoredRows(rows, id), id) == Stored(rows, id)
  {
    if rows != [] {
      var n := |rows| - 1;
      StoredOfRows(rows[..n], id);
      StoredAppend(StoredRows(rows[..n], id), rows[n], id);
      assert StoredRows(rows[..n], id) + [] == StoredRows(rows[..n], id);
    }
  }

  lemma SameAnswer(a: Rows, b: Rows, e: Event)
    requires e.SignIn? && StoredRows(a, IdentifierOf(e)) == StoredRows(b, IdentifierOf(e))
    ensures Locked(a, e) <==> Locked(b, e)
  {
    LockedByStored(a, e);
    LockedByStored(b, e);
    StoredOfRows(a, IdentifierOf(e));
    StoredOfRows(b, IdentifierOf(e));
  }

  lemma CleanupOnOwnRows(a: Rows, b: Rows, e: Event, id: string)
    requires e.Cleanup? && StoredRows(a, id) == StoredRows(b, id)
    ensures StoredRows(Step(a, e), id) == StoredRows(Step(b, e), id)
  {
    KeepStored(a, b, CutoffOf(e), id);
  }

  lemma SignInOnOwnRows(a: Rows, b: Rows, e: Event)
    requires e.SignIn? && StoredRows(a, IdentifierOf(e)) == StoredRows(b, IdentifierOf(e))
    ensures StoredRows(Step(a, e), IdentifierOf(e)) == StoredRows(Step(b, e), IdentifierOf(e))
  {
    SameAnswer(a, b, e);
    SignInRows(a, e);
    SignInRows(b, e);
  }

  lemma SignInRows(rows: Rows, e: Event)
    requires e.SignIn?
    ensures var (id, row) := (IdentifierOf(e), LoginAttempts.Attempt(IdentifierOf(e), e.ip, e.correct, e.now));
      StoredRows(Step(rows, e), id)
        == if Locked(rows, e) || !e.commits then StoredRows(rows, id) else StoredRows(rows, id) + [row]
  {
    StoredRowsAppend(rows, LoginAttempts.Attempt(IdentifierOf(e), e.ip, e.correct, e.now), IdentifierOf(e));
  }

  lemma StepByOther(rows: Rows, e: Event, id: string)
    requires e.SignIn? && IdentifierOf(e) != id
    ensures StoredRows(Step(rows, e), id) == StoredRows(rows, id)
  {
    StoredRowsAppend(rows, LoginAttempts.Attempt(IdentifierOf(e), e.ip, e.correct, e.now), id);
    assert StoredRows(rows, id) + [] == StoredRows(rows, id);
  }

  lemma {:induction false} OnlyOfRows(events: seq<Event>, id: string)
    ensures StoredRows(Run(events), id) == StoredRows(Run(OnlyOf(events, id)), id)
  {
    if events != [] {
      var n := |events| - 1;
      var e, own := events[n], OnlyOf(events[..n], id);
      OnlyOfRows(events[..n], id);
      if e.SignIn? && IdentifierOf(e) != id {
        StepByOther(Run(events[..n]), e, id);
        assert OnlyOf(events, id) == own;
      } else {
        assert OnlyOf(events, id) == own + [e] && (own + [e])[..|own|] == own;
        if e.SignIn? {
          SignInOnOwnRows(Run(events[..n]), Run(own), e);
        } else {
          CleanupOnOwnRows(Run(events[..n]), Run(own), e, id);
        }
      }
    }
  }

  /** Lockouts are separate: the sign-ins of other emails or tenants change no
      answer, whatever the clock does. */
  lemma LockoutsAreSeparate(events: seq<Event>, e: Event)
    requires e.SignIn?
    ensures Locked(Run(events), e) <==> Locked(Run(OnlyOf(events, IdentifierOf(e))), e)
  {
    OnlyOfRows(events, IdentifierOf(e));
    SameAnswer(Run(events), Run(OnlyOf(events, IdentifierOf(e))), e);
  }

  // ------------------------------------------------------- what the code does

  /** A right sign-in commits, a wrong one only if `keepsFailures`. The request
      dependency has it false. */
  ghost predicate Obeys(events: seq<Event>, keepsFailures: bool) {
    forall i :: 0 <= i < |events| && events[i].SignIn? ==> (events[i].commits <==> events[i].correct || keepsFailures)
  }

  /** The promise: at most five wrong sign-ins in the thirty minutes to `end`. */
  ghost predicate Protected(events: seq<Event>, id: string, end: Time) {
    |Within(Closed, WrongSignIns(events, id), end - WINDOW, end)| <= MAX_LOGIN_ATTEMPTS
  }

  lemma {:induction false} NothingLost(events: seq<Event>, id: string)
    requires Obeys(events, true)
    ensures Lost(events, id) == []
  {
    if events != [] {
      NothingLost(events[..|events| - 1], id);
    }
  }

  lemma {:induction false} NothingStored(events: seq<Event>, id: string)
    requires Obeys(events, false)
    ensures Stored(Run(events), id) == []
  {
    if events != [] {
      var n := |events| - 1;
      var e, rows := events[n], Run(events[..n]);
      NothingStored(events[..n], id);
      match e {
        case SignIn(_, _, correct, _, ip, now) =>
          StoredAppend(rows, LoginAttempts.Attempt(IdentifierOf(e), ip, correct, now), id);
        case Cleanup(_, _) => StoredShrinks(rows, CutoffOf(e), id);
      }
    }
  }

  lemma {:induction false} StoredShrinks(rows: Rows, kept: Time, id: string)
    ensures |Stored(LoginAttempts.KeepSince(rows, kept), id)| <= |Stored(rows, id)|
  {
    if rows != [] {
      var n := |rows| - 1;
      var front := LoginAttempts.KeepSince(rows[..n], kept);
      StoredShrinks(rows[..n], kept, id);
      StoredAppend(front, rows[n], id);
      assert front + [] == front;
    }
  }

  /** As the code stands, no run of the endpoint ever locks an account. */
  lemma NeverLocked(events: seq<Event>, e: Event)
    requires Obeys(events, false) && e.SignIn?
    ensures !Locked(Run(events), e)
  {
    NothingStored(events, IdentifierOf(e));
    LockedByStored(Run(events), e);
  }

  /** So any number of wrong sign-ins gets through at one instant. */
  lemma {:induction false} Unlimited(n: nat, email: string, tenant: int, now: Time)
    returns (events: seq<Event>, id: string)
    ensures Obeys(events, false) && Orderly(events, now)
    ensures id == LoginAttempts.Identifier(LoginAttempts.Normalize(LoginAttempts.Normalize(email)), tenant)
    ensures |Within(Closed, WrongSignIns(events, id), now - WINDOW, now)| == n
  {
    var e := SignIn(email, tenant, false, false, "", now);
    events, id := [], IdentifierOf(e);
    if n > 0 {
      var front, _ := Unlimited(n - 1, email, tenant, now);
      NeverLocked(front, e);
      events := front + [e];
      assert events[..|front|] == front;
      WithinAppend(WrongSignIns(front, id), now, now - WINDOW, now);
    }
  }

  ghost predicate AlwaysProtected(keepsFailures: bool) {
    forall events, id, now, end ::
      Obeys(events, keepsFailures) && Orderly(events, now) ==> Protected(events, id, end)
  }

  /** The promise holds of every run exactly if wrong sign-ins commit. */
  lemma ProtectedIff(keepsFailures: bool)
    ensures AlwaysProtected(keepsFailures) <==> keepsFailures
  {
    if keepsFailures {
      forall events, id, now, end | Obeys(events, keepsFailures) && Orderly(events, now)
        ensures Protected(events, id, end)
      {
        LockoutBound(events, id, now, end);
        NothingLost(events, id);
      }
    } else {
      var events, id := Unlimited(MAX_LOGIN_ATTEMPTS + 1, "", 0, 0.0);
      assert Obeys(events, keepsFailures) && Orderly(events, 0.0) && !Protected(events, id, 0.0);
    }
  }
}
