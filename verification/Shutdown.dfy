/** app/core/shutdown.py and app/middleware/shutdown.py: counting requests and
    draining them.

    The middleware runs on one event loop. Between its test of
    `is_shutting_down` and its increment there is no `await`, so no other
    coroutine runs there; a signal handler can. The protocol is therefore a
    machine whose loop is either free or inside that gap. */
module Shutdown {
  import opened Wrappers

  type Time = real

  type RequestId = int

  const ALLOWED_PATHS: set<string> := {"/health", "/ready", "/health/deep"}

  datatype State = State(
    shuttingDown: bool,
    active: int,              // `_active_requests`
    counted: set<RequestId>,  // requests between their increment and their decrement
    gap: Option<RequestId>)   // the request past the test and not yet counted

  datatype Event =
    | Arrive(r: RequestId, http: bool, path: string)
    | Count
    | Finish(r: RequestId)
    | Signal
    | Poll

  /** The scheduler can take this step. Identifiers are those of live requests. */
  predicate Enabled(s: State, e: Event) {
    match e
    case Arrive(r, _, _) => s.gap.None? && r !in s.counted
    case Count => s.gap.Some?
    case Finish(r) => s.gap.None? && r in s.counted
    case Signal => true
    case Poll => s.gap.None?
  }

  /** One less, but not below zero. */
  function Decremented(n: int): int {
    if n - 1 > 0 then n - 1 else 0
  }

  function Step(s: State, e: Event): State {
    match e
    case Arrive(r, http, path) =>
      if !http then s                     // passed through, never counted
      else if s.shuttingDown then s       // passed through (allowed paths) or answered 503
      else s.(gap := Some(r))
    case Count =>
      if s.gap.None? then s
      else s.(active := s.active + 1, counted := s.counted + {s.gap.value}, gap := None)
    case Finish(r) => s.(active := Decremented(s.active), counted := s.counted - {r})
    case Signal => s.(shuttingDown := true)
    case Poll => s
  }

  /** What the client of a new request gets. */
  datatype Reply = Served(countedInDrain: bool) | Unavailable // 503

  function ReplyTo(s: State, http: bool, path: string): Reply {
    if !http then Served(false)
    else if s.shuttingDown then if path in ALLOWED_PATHS then Served(false) else Unavailable
    else Served(true)
  }

  const INITIAL := State(false, 0, {}, None)

  ghost predicate IsRun(s: State, events: seq<Event>)
    decreases events
  {
    events == [] || (Enabled(s, events[0]) && IsRun(Step(s, events[0]), events[1..]))
  }

  function Run(s: State, events: seq<Event>): State
    decreases events
  {
    if events == [] then s else Run(Step(s, events[0]), events[1..])
  }

  // -------------------------------------------------------------- safety

  /** The counter is the number of requests it should be counting. */
  ghost predicate Accurate(s: State) {
    && s.active == |s.counted|
    && (s.gap.Some? ==> s.gap.value !in s.counted)
  }

  lemma StepAccurate(s: State, e: Event)
    requires Accurate(s) && Enabled(s, e)
    ensures Accurate(Step(s, e))
    // the clamp in `decrement_requests` never fires
    ensures e.Finish? ==> s.active >= 1 && Step(s, e).active == s.active - 1
  {
    if e.Finish? {
      assert s.counted == (s.counted - {e.r}) + {e.r};
    }
  }

  lemma {:induction false} RunsAccurate(s: State, events: seq<Event>)
    requires Accurate(s) && IsRun(s, events)
    ensures Accurate(Run(s, events))
    decreases events
  {
    if events != [] {
      StepAccurate(s, events[0]);
      RunsAccurate(Step(s, events[0]), events[1..]);
    }
  }

  /** In every interleaving, `_active_requests` equals the requests in flight. */
  lemma CounterIsAccurate(events: seq<Event>)
    requires IsRun(INITIAL, events)
    ensures Run(INITIAL, events).active == |Run(INITIAL, events).counted|
  {
    RunsAccurate(INITIAL, events);
  }

  /** The requests that may still finish: those counted, and the one in the gap. */
  function InFlight(s: State): set<RequestId> {
    s.counted + if s.gap.Some? then {s.gap.value} else {}
  }

  /** After the signal no request joins: whatever is counted later was counted,
      or had passed the test, when the signal came. */
  lemma {:induction false} NoNewRequests(s: State, events: seq<Event>)
    requires s.shuttingDown && IsRun(s, events)
    ensures Run(s, events).shuttingDown
    ensures InFlight(Run(s, events)) <= InFlight(s)
    decreases events
  {
    if events != [] {
      NoNewRequests(Step(s, events[0]), events[1..]);
    }
  }

  /** At most the one request already past the test is counted after the signal. */
  lemma AtMostOneLate(s: State, events: seq<Event>)
    requires s.shuttingDown && IsRun(s, events)
    ensures |Run(s, events).counted - s.counted| <= 1
  {
    NoNewRequests(s, events);
    var late := Run(s, events).counted - s.counted;
    if late != {} {
      assert late <= {s.gap.value};
      assert late == {s.gap.value};
    }
  }

  /** A poll that finds the counter at zero. */
  predicate Drained(s: State) {
    s.gap.None? && s.active == 0
  }

  /** No request is ever counted again. */
  ghost predicate QuietForever(s: State) {
    forall events :: IsRun(s, events) ==> Run(s, events).counted == {}
  }

  /** A drain that ends at zero is final exactly when the shutdown has been
      signalled. */
  lemma DrainIsFinalIff(s: State)
    requires Accurate(s) && Drained(s)
    ensures QuietForever(s) <==> s.shuttingDown
  {
    if s.shuttingDown {
      forall events | IsRun(s, events) ensures Run(s, events).counted == {} {
        NoNewRequests(s, events);
      }
    } else {
      var arrive, count := Arrive(0, true, "/"), [Count];
      var late, mid := [arrive] + count, Step(s, arrive);
      assert late[1..] == count && count[1..] == [];
      assert IsRun(mid, count) && Run(mid, count) == Run(Step(mid, Count), []);
      assert IsRun(s, late) && Run(s, late) == Run(mid, count);
      assert 0 in Run(s, late).counted;
    }
  }

  // ------------------------------------------------------ implementation

  /** The handler and the event loop it lives on. */
  class ShutdownHandler {
    var state: State

    constructor ()
      ensures state == INITIAL
    {
      state := INITIAL;
    }

    method InitiateShutdown()
      modifies this
      ensures state == Step(old(state), Signal)
    {
      state := state.(shuttingDown := true);
    }

    /** `ShutdownMiddleware.__call__` up to its first `await`. */
    method Arrive(r: RequestId, http: bool, path: string) returns (reply: Reply)
      requires Enabled(state, Event.Arrive(r, http, path))
      modifies this
      ensures state == Step(old(state), Event.Arrive(r, http, path))
      ensures reply == ReplyTo(old(state), http, path)
    {
      if !http {
        return Served(false);
      }
      if state.shuttingDown {
        if path in ALLOWED_PATHS {
          return Served(false);
        }
        return Unavailable;
      }
      state := state.(gap := Some(r));
      reply := Served(true);
    }

    method IncrementRequests()
      requires Enabled(state, Count)
      modifies this
      ensures state == Step(old(state), Count)
    {
      state := State(state.shuttingDown, state.active + 1, state.counted + {state.gap.value}, None);
    }

    /** The `finally` clause. */
    method DecrementRequests(r: RequestId)
      requires Enabled(state, Finish(r))
      modifies this
      ensures state == Step(old(state), Finish(r))
    {
      var n := state.active - 1;
      if n < 0 {
        n := 0;
      }
      state := state.(active := n, counted := state.counted - {r});
    }

    /** The other coroutines and signals that run during one sleep. */
    method Sleep(events: seq<Event>)
      requires IsRun(state, events)
      modifies this
      ensures state == Run(old(state), events)
    {
      var rest := events;
      while rest != []
        invariant IsRun(state, rest) && Run(state, rest) == Run(old(state), events)
        decreases rest
      {
        match rest[0] {
          case Arrive(r, http, path) => var _ := Arrive(r, http, path);
          case Count => IncrementRequests();
          case Finish(r) => DecrementRequests(r);
          case Signal => InitiateShutdown();
          case Poll =>
        }
        rest := rest[1..];
      }
    }

    /** `drain_connections(timeout)`. `clock[i]` is the elapsed time read by the
        i-th poll and `sleeps[i]` what happens during the sleep after it; the
        clock reaches the timeout. */
    method DrainConnections(timeout: Time, clock: seq<Time>, sleeps: seq<seq<Event>>)
      returns (timedOut: bool, polls: nat)
      requires clock != [] && clock[|clock| - 1] >= timeout && |sleeps| >= |clock|
      requires Accurate(state) && Scheduled(state, sleeps)
      modifies this
      ensures polls < |clock| && state == RunAll(old(state), sleeps[..polls]) && Accurate(state)
      ensures timedOut ==> state.active > 0 && clock[polls] >= timeout
      ensures !timedOut ==> state.counted == {} && Drained(state)
      // each earlier poll found requests, and time left
      ensures forall i :: 0 <= i < polls ==> clock[i] < timeout && RunAll(old(state), sleeps[..i]).active > 0
      // after the signal, a drain without timeout is final
      ensures !timedOut && old(state).shuttingDown ==> QuietForever(state)
    {
      polls := 0;
      timedOut := false;
      assert sleeps[..0] == [];
      assert old(state).shuttingDown ==> state.shuttingDown;
      while state.active > 0
        invariant polls < |clock|
        invariant state == RunAll(old(state), sleeps[..polls])
        invariant Accurate(state) && Scheduled(state, sleeps[polls..])
        invariant old(state).shuttingDown ==> state.shuttingDown
        invariant forall i :: 0 <= i < polls ==> clock[i] < timeout && RunAll(old(state), sleeps[..i]).active > 0
        decreases |clock| - polls
      {
        var elapsed := clock[polls];
        if elapsed >= timeout {
          timedOut := true;
          break;
        }
        RunsAccurate(state, sleeps[polls]);
        if state.shuttingDown {
          NoNewRequests(state, sleeps[polls]);
        }
        RunAllStep(old(state), sleeps, polls);
        assert sleeps[polls..][0] == sleeps[polls] && sleeps[polls..][1..] == sleeps[polls + 1..];
        Sleep(sleeps[polls]);
        polls := polls + 1;
      }
      if !timedOut {
        assert sleeps[polls..] != [];
        DrainIsFinalIff(state);
      }
    }
  }

  /** Each batch of events can be run, and leaves the loop free for the next poll. */
  ghost predicate Scheduled(s: State, sleeps: seq<seq<Event>>)
    decreases sleeps
  {
    s.gap.None? &&
    (sleeps == [] || (IsRun(s, sleeps[0]) && Scheduled(Run(s, sleeps[0]), sleeps[1..])))
  }

  function RunAll(s: State, sleeps: seq<seq<Event>>): State {
    if sleeps == [] then s else Run(RunAll(s, sleeps[..|sleeps| - 1]), sleeps[|sleeps| - 1])
  }

  lemma RunAllStep(s: State, sleeps: seq<seq<Event>>, n: nat)
    requires n < |sleeps|
    ensures RunAll(s, sleeps[..n + 1]) == Run(RunAll(s, sleeps[..n]), sleeps[n])
  {
    assert sleeps[..n + 1][..n] == sleeps[..n];
  }


  // ------------------------------------------------------------------ replies

  /** A new request gets 503 exactly if it is an HTTP request for anything but a
      health check while shutting down; it is going to be counted exactly if it
      is an HTTP request and no shutdown was signalled. */
  lemma ReplyIff(s: State, r: RequestId, http: bool, path: string)
    requires s.gap.None?
    ensures ReplyTo(s, http, path).Unavailable? <==>
      http && s.shuttingDown && path != "/health" && path != "/ready" && path != "/health/deep"
    ensures ReplyTo(s, http, path) == Served(true) <==> http && !s.shuttingDown
    ensures Step(s, Arrive(r, http, path)) == if ReplyTo(s, http, path) == Served(true) then s.(gap := Some(r)) else s
  {
  }

  /** The signal raises the flag and nothing else; a poll changes nothing. */
  lemma SignalOnlyFlags(s: State)
    ensures Step(s, Signal) == State(true, s.active, s.counted, s.gap) && Step(s, Poll) == s
  {
  }

  /** The request in the gap joins the count; a finished one leaves it. */
  lemma CountAndFinish(s: State, r: RequestId)
    requires Accurate(s)
    ensures s.gap.Some? ==> Step(s, Count) == State(s.shuttingDown, s.active + 1, s.counted + {s.gap.value}, None)
    ensures r in s.counted ==> Step(s, Finish(r)) == State(s.shuttingDown, s.active - 1, s.counted - {r}, s.gap)
  {
    if r in s.counted {
      StepAccurateFinish(s, r);
    }
  }

  lemma StepAccurateFinish(s: State, r: RequestId)
    requires Accurate(s) && r in s.counted
    ensures s.active >= 1
  {
    assert s.counted == (s.counted - {r}) + {r};
  }

  /** The decrement is the larger of zero and one less. */
  lemma ClampsAtZero(n: int)
    ensures Decremented(n) >= 0 && Decremented(n) >= n - 1 && (Decremented(n) == 0 || Decremented(n) == n - 1)
  {
  }

  /** The runs are all there can be: a signal may come at any moment, the counting
      step only from the gap, and anything else only while the loop is free. */
  lemma EnabledIff(s: State, r: RequestId, http: bool, path: string)
    ensures Enabled(s, Signal)
    ensures Enabled(s, Count) <==> s.gap != None
    ensures Enabled(s, Poll) <==> s.gap == None
    ensures Enabled(s, Arrive(r, http, path)) <==> s.gap == None && r !in s.counted
    ensures Enabled(s, Finish(r)) <==> s.gap == None && r in s.counted
  {
  }
}
