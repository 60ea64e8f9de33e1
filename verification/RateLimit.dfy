/** app/middleware/rate_limit.py: the in-memory and the Redis sliding-window
    limiters, as two separate machines. */
module RateLimit {
  import opened SlidingWindow
  import opened Text
  import opened Wrappers

  datatype Decision = Decision(allowed: bool, remaining: int, resetTime: int)

  /** `now` is the middleware's clock, `server` the one by which the Redis server
      expires keys when the request reaches it. */
  datatype Request = Request(key: string, limit: int, now: Time, server: Time)

  /** Python's `int(x)` on a float: truncation toward zero. */
  function Truncate(x: real): int {
    if x >= 0.0 then x.Floor else -((-x).Floor)
  }

  function Max(a: int, b: int): int {
    if a >= b then a else b
  }

  ghost predicate NonDecreasing(reqs: seq<Request>) {
    forall i, j :: 0 <= i < j < |reqs| ==> reqs[i].now <= reqs[j].now
  }

  /** Every request for the key carries a limit of at most `limit`. */
  ghost predicate LimitedBy(reqs: seq<Request>, key: string, limit: int) {
    forall i :: 0 <= i < |reqs| && reqs[i].key == key ==> reqs[i].limit <= limit
  }

  // ------------------------------------------------------------------ memory

  type Store = map<string, seq<Time>>

  /** Reading a defaultdict(list). */
  function Entries(store: Store, key: string): seq<Time> {
    if key in store then store[key] else []
  }

  function MemoryStep(window: Time, store: Store, r: Request): (Store, Decision) {
    var kept := Since(Open, Entries(store, r.key), r.now - window);
    var allowed := |kept| < r.limit;
    (store[r.key := if allowed then kept + [r.now] else kept],
     Decision(allowed, if allowed then r.limit - |kept| - 1 else 0, Truncate(r.now + window)))
  }

  class MemoryLimiter {
    const window: Time
    var store: Store

    constructor (window: Time)
      ensures this.window == window && store == map[]
    {
      this.window := window;
      store := map[];
    }

    /** `_check_rate_limit_memory`. */
    method Check(key: string, limit: int, now: Time) returns (d: Decision)
      modifies this`store
      ensures (store, d) == MemoryStep(window, old(store), Request(key, limit, now, now))
    {
      var windowStart := now - window;
      store := store[key := Since(Open, Entries(store, key), windowStart)];
      var currentCount := |store[key]|;
      var remaining, allowed;
      if currentCount < limit {
        store := store[key := store[key] + [now]];
        remaining := limit - currentCount - 1;
        allowed := true;
      } else {
        remaining := 0;
        allowed := false;
      }
      d := Decision(allowed, remaining, Truncate(now + window));
      assert store == MemoryStep(window, old(store), Request(key, limit, now, now)).0;
    }
  }

  /** The store after a run of requests, from an empty one. */
  function MemoryRun(window: Time, reqs: seq<Request>): Store {
    if reqs == [] then map[] else
      MemoryStep(window, MemoryRun(window, reqs[..|reqs| - 1]), reqs[|reqs| - 1]).0
  }

  /** The answer to the i-th request of a run. */
  function MemoryAnswer(window: Time, reqs: seq<Request>, i: nat): Decision
    requires i < |reqs|
  {
    MemoryStep(window, MemoryRun(window, reqs[..i]), reqs[i]).1
  }

  /** The full history of accepted requests for a key, never pruned. */
  function Accepted(window: Time, reqs: seq<Request>, key: string): seq<Time> {
    if reqs == [] then [] else
      var n := |reqs| - 1;
      var before := Accepted(window, reqs[..n], key);
      if reqs[n].key == key && MemoryAnswer(window, reqs, n).allowed
      then before + [reqs[n].now] else before
  }

  /** The pruned list is the full accepted history filtered to the window: it
      agrees with it at every cut a later request can make. */
  lemma {:induction false} StoreIsHistory(window: Time, reqs: seq<Request>, key: string, start: Time)
    requires NonDecreasing(reqs)
    requires reqs != [] ==> reqs[|reqs| - 1].now - window <= start
    ensures Since(Open, Entries(MemoryRun(window, reqs), key), start) == Since(Open, Accepted(window, reqs, key), start)
  {
    if reqs != [] {
      var n := |reqs| - 1;
      var store := MemoryRun(window, reqs[..n]);
      StoreIsHistory(window, reqs[..n], key, start);
      StepKeepsWindow(window, store, reqs[n], key, start);
      if reqs[n].key == key {
        SinceAppend(Open, Accepted(window, reqs[..n], key), reqs[n].now, start);
      }
    }
  }

  lemma StepKeepsWindow(window: Time, store: Store, r: Request, key: string, start: Time)
    requires r.now - window <= start
    ensures var (after, d) := MemoryStep(window, store, r);
      var before := Since(Open, Entries(store, key), start);
      Since(Open, Entries(after, key), start)
        == if r.key == key && d.allowed && r.now > start then before + [r.now] else before
  {
    if r.key == key {
      var kept := Since(Open, Entries(store, key), r.now - window);
      SinceSince(Open, Entries(store, key), r.now - window, start);
      SinceAppend(Open, kept, r.now, start);
      assert Entries(MemoryStep(window, store, r).0, key) == if |kept| < r.limit then kept + [r.now] else kept;
    } else {
      assert Entries(MemoryStep(window, store, r).0, key) == Entries(store, key);
    }
  }

  /** Every answer, in terms of the unpruned history alone. */
  lemma AnswerIsWindowCount(window: Time, reqs: seq<Request>, i: nat)
    requires NonDecreasing(reqs) && i < |reqs|
    ensures var count := |Since(Open, Accepted(window, reqs[..i], reqs[i].key), reqs[i].now - window)|;
      MemoryAnswer(window, reqs, i)
        == Decision(count < reqs[i].limit, if count < reqs[i].limit then reqs[i].limit - count - 1 else 0,
                    Truncate(reqs[i].now + window))
  {
    StoreIsHistory(window, reqs[..i], reqs[i].key, reqs[i].now - window);
  }

  // -------------------------------------------------- memory, on any clock

  /** How many instants after `start` a cut removes. */
  function CutAway(times: seq<Time>, cut: Time, start: Time): nat {
    if times == [] then 0 else
      var t := times[|times| - 1];
      CutAway(times[..|times| - 1], cut, start) + if start < t <= cut then 1 else 0
  }

  lemma {:induction false} CutAwayIsDifference(times: seq<Time>, cut: Time, start: Time)
    ensures |Since(Open, times, start)| == |Since(Open, Since(Open, times, cut), start)| + CutAway(times, cut, start)
    ensures CutAway(times, cut, start) == 0 ==> Since(Open, Since(Open, times, cut), start) == Since(Open, times, start)
  {
    if times != [] {
      var n := |times| - 1;
      CutAwayIsDifference(times[..n], cut, start);
      SinceAppend(Open, Since(Open, times[..n], cut), times[n], start);
    }
  }

  ghost predicate AllAfter(times: seq<Time>, cut: Time) {
    forall t :: t in times ==> t > cut
  }

  lemma AllAfterAppend(times: seq<Time>, t: Time, cut: Time)
    ensures AllAfter(times + [t], cut) <==> AllAfter(times, cut) && t > cut
  {
    assert t in times + [t];
    forall x | x in times ensures x in times + [t] {
    }
  }

  lemma {:induction false} CutsNothingIff(times: seq<Time>, cut: Time, start: Time)
    ensures CutAway(times, cut, start) == 0 <==> AllAfter(Since(Open, times, start), cut)
  {
    if times != [] {
      var n := |times| - 1;
      CutsNothingIff(times[..n], cut, start);
      var before, after := Since(Open, times[..n], start), Since(Open, times, start);
      if times[n] > start {
        assert after == before + [times[n]];
        AllAfterAppend(before, times[n], cut);
      }
    }
  }

  /** The history of a window, and what the store still holds of it. */
  function InWindow(window: Time, reqs: seq<Request>, key: string, start: Time): seq<Time> {
    Since(Open, Accepted(window, reqs, key), start)
  }

  function StillHeld(window: Time, reqs: seq<Request>, key: string, start: Time): seq<Time> {
    Since(Open, Entries(MemoryRun(window, reqs), key), start)
  }

  /** What the last request adds to both, and what it cuts. */
  function Added(window: Time, reqs: seq<Request>, key: string, start: Time): seq<Time>
    requires reqs != []
  {
    var r := reqs[|reqs| - 1];
    if r.key == key && MemoryAnswer(window, reqs, |reqs| - 1).allowed && r.now > start then [r.now] else []
  }

  function LastCut(window: Time, reqs: seq<Request>, key: string, start: Time): nat
    requires reqs != []
  {
    var front, r := reqs[..|reqs| - 1], reqs[|reqs| - 1];
    if r.key == key then CutAway(Entries(MemoryRun(window, front), key), r.now - window, start) else 0
  }

  /** The stored instants after `start` that requests of the key have cut. */
  function Lost(window: Time, reqs: seq<Request>, key: string, start: Time): nat {
    if reqs == [] then 0 else
      Lost(window, reqs[..|reqs| - 1], key, start) + LastCut(window, reqs, key, start)
  }

  lemma HistoryStep(window: Time, reqs: seq<Request>, key: string, start: Time)
    requires reqs != []
    ensures InWindow(window, reqs, key, start)
         == InWindow(window, reqs[..|reqs| - 1], key, start) + Added(window, reqs, key, start)
  {
    var front, r := reqs[..|reqs| - 1], reqs[|reqs| - 1];
    var before := Accepted(window, front, key);
    SinceAppend(Open, before, r.now, start);
    assert Since(Open, before, start) + [] == Since(Open, before, start);
  }

  lemma StoreStep(window: Time, reqs: seq<Request>, key: string, start: Time)
    requires reqs != []
    ensures var (held, cut) := (StillHeld(window, reqs[..|reqs| - 1], key, start), LastCut(window, reqs, key, start));
      && |held| + |Added(window, reqs, key, start)| == |StillHeld(window, reqs, key, start)| + cut
      && (cut == 0 ==> StillHeld(window, reqs, key, start) == held + Added(window, reqs, key, start))
  {
    var front, r := reqs[..|reqs| - 1], reqs[|reqs| - 1];
    var times := Entries(MemoryRun(window, front), key);
    var held := Since(Open, times, start);
    assert held + [] == held;
    if r.key == key {
      CutAndAppend(times, r.now - window, start, r.now);
      assert Entries(MemoryRun(window, reqs), key)
          == Since(Open, times, r.now - window)
             + if MemoryAnswer(window, reqs, |reqs| - 1).allowed then [r.now] else [];
    } else {
      assert Entries(MemoryRun(window, reqs), key) == times;
    }
  }

  lemma CutAndAppend(times: seq<Time>, cut: Time, start: Time, t: Time)
    ensures var (held, kept) := (Since(Open, times, start), Since(Open, times, cut));
      && |held| == |Since(Open, kept + [], start)| + CutAway(times, cut, start)
      && (CutAway(times, cut, start) == 0 ==> Since(Open, kept + [], start) == held)
      && Since(Open, kept + [t], start) == Since(Open, kept + [], start) + if t > start then [t] else []
  {
    var kept := Since(Open, times, cut);
    CutAwayIsDifference(times, cut, start);
    SinceAppend(Open, kept, t, start);
    assert kept + [] == kept && Since(Open, kept, start) + [] == Since(Open, kept, start);
  }

  /** Whatever the clock does, the history in a window is what the store still
      holds of it and what was cut. */
  lemma {:induction false} HistoryIsStoreAndLost(window: Time, reqs: seq<Request>, key: string, start: Time)
    ensures |InWindow(window, reqs, key, start)|
         == |StillHeld(window, reqs, key, start)| + Lost(window, reqs, key, start)
  {
    if reqs != [] {
      HistoryIsStoreAndLost(window, reqs[..|reqs| - 1], key, start);
      HistoryStep(window, reqs, key, start);
      StoreStep(window, reqs, key, start);
    }
  }

  /** No request of the key read a clock a whole window past an instant after
      `start` that had been accepted before it. */
  ghost predicate CutFree(window: Time, reqs: seq<Request>, key: string, start: Time) {
    reqs == [] ||
    var front, r := reqs[..|reqs| - 1], reqs[|reqs| - 1];
    && CutFree(window, front, key, start)
    && (r.key == key ==> AllAfter(InWindow(window, front, key, start), r.now - window))
  }

  lemma {:induction false} LostNothingIff(window: Time, reqs: seq<Request>, key: string, start: Time)
    ensures Lost(window, reqs, key, start) == 0 <==> CutFree(window, reqs, key, start)
    ensures CutFree(window, reqs, key, start) ==>
      StillHeld(window, reqs, key, start) == InWindow(window, reqs, key, start)
  {
    if reqs != [] {
      var front, r := reqs[..|reqs| - 1], reqs[|reqs| - 1];
      LostNothingIff(window, front, key, start);
      HistoryStep(window, reqs, key, start);
      StoreStep(window, reqs, key, start);
      LastCutIff(window, reqs, key, start);
    }
  }

  lemma LastCutIff(window: Time, reqs: seq<Request>, key: string, start: Time)
    requires reqs != []
    ensures var (front, r) := (reqs[..|reqs| - 1], reqs[|reqs| - 1]);
      (LastCut(window, reqs, key, start) == 0
       <==> (r.key == key ==> AllAfter(StillHeld(window, front, key, start), r.now - window)))
  {
    var front, r := reqs[..|reqs| - 1], reqs[|reqs| - 1];
    CutsNothingIff(Entries(MemoryRun(window, front), key), r.now - window, start);
  }

  /** On any clock, the store holds the true window from `start` on if and only
      if no instant of it was cut before. */
  lemma HoldsWindowIff(window: Time, reqs: seq<Request>, key: string, start: Time)
    ensures |StillHeld(window, reqs, key, start)| == |InWindow(window, reqs, key, start)|
      <==> CutFree(window, reqs, key, start)
  {
    HistoryIsStoreAndLost(window, reqs, key, start);
    LostNothingIff(window, reqs, key, start);
  }

  /** ... and that is what an answer counts. */
  lemma AnswerCountsHeld(window: Time, reqs: seq<Request>, i: nat)
    requires i < |reqs|
    ensures MemoryAnswer(window, reqs, i).allowed
      <==> |StillHeld(window, reqs[..i], reqs[i].key, reqs[i].now - window)| < reqs[i].limit
  {
  }

  /** Every answer for the key counts its true window. */
  ghost predicate Steady(window: Time, reqs: seq<Request>, key: string) {
    reqs == [] ||
    var front, r := reqs[..|reqs| - 1], reqs[|reqs| - 1];
    Steady(window, front, key) && (r.key == key ==> CutFree(window, front, key, r.now - window))
  }

  lemma {:induction false} HistoryAdmitted(window: Time, reqs: seq<Request>, key: string, limit: int)
    requires Steady(window, reqs, key) && LimitedBy(reqs, key, limit)
    ensures Admitted(Open, Accepted(window, reqs, key), window, limit)
  {
    if reqs != [] {
      var front, r := reqs[..|reqs| - 1], reqs[|reqs| - 1];
      HistoryAdmitted(window, front, key, limit);
      if r.key == key && MemoryAnswer(window, reqs, |reqs| - 1).allowed {
        LostNothingIff(window, front, key, r.now - window);
        AdmittedAppend(Open, Accepted(window, front, key), r.now, window, limit);
      }
    }
  }

  /** The bound needs no more of the clock than that. */
  lemma SteadyWindowBound(window: Time, reqs: seq<Request>, key: string, limit: nat, end: Time)
    requires Steady(window, reqs, key) && LimitedBy(reqs, key, limit)
    ensures |Within(Open, Accepted(window, reqs, key), end - window, end)| <= limit
  {
    HistoryAdmitted(window, reqs, key, limit);
    WindowBound(Open, Accepted(window, reqs, key), window, limit, end);
  }

  lemma {:induction false} SinceStarts(times: seq<Time>, start: Time)
    ensures forall t :: t in Since(Open, times, start) ==> t > start
  {
    if times != [] {
      SinceStarts(times[..|times| - 1], start);
    }
  }

  lemma {:induction false} EarlierCutsNothing(window: Time, reqs: seq<Request>, key: string, start: Time)
    requires forall i :: 0 <= i < |reqs| ==> reqs[i].now - window <= start
    ensures CutFree(window, reqs, key, start)
  {
    if reqs != [] {
      EarlierCutsNothing(window, reqs[..|reqs| - 1], key, start);
      SinceStarts(Accepted(window, reqs[..|reqs| - 1], key), start);
      assert reqs[|reqs| - 1].now - window <= start;
    }
  }

  lemma {:induction false} NonDecreasingIsSteady(window: Time, reqs: seq<Request>, key: string)
    requires NonDecreasing(reqs)
    ensures Steady(window, reqs, key)
  {
    if reqs != [] {
      NonDecreasingIsSteady(window, reqs[..|reqs| - 1], key);
      EarlierCutsNothing(window, reqs[..|reqs| - 1], key, reqs[|reqs| - 1].now - window);
    }
  }

  /** The rate limit: in every run under a non-decreasing clock, no window of
      the configured length contains more than `limit` accepted requests. */
  lemma MemoryWindowBound(window: Time, reqs: seq<Request>, key: string, limit: nat, end: Time)
    requires NonDecreasing(reqs)
    requires LimitedBy(reqs, key, limit)
    ensures |Within(Open, Accepted(window, reqs, key), end - window, end)| <= limit
  {
    NonDecreasingIsSteady(window, reqs, key);
    SteadyWindowBound(window, reqs, key, limit, end);
  }

  /** No request is refused early: a refusal finds the window exactly full. */
  lemma RefusedOnlyWhenFull(window: Time, reqs: seq<Request>, i: nat, limit: nat)
    requires NonDecreasing(reqs) && i < |reqs|
    requires forall j :: 0 <= j < |reqs| && reqs[j].key == reqs[i].key ==> reqs[j].limit == limit
    ensures !MemoryAnswer(window, reqs, i).allowed
      <==> |Since(Open, Accepted(window, reqs[..i], reqs[i].key), reqs[i].now - window)| == limit
  {
    var before, key, now := reqs[..i], reqs[i].key, reqs[i].now;
    AnswerIsWindowCount(window, reqs, i);
    MemoryWindowBound(window, before, key, limit, now);
    AcceptedNotLater(window, before, key, now);
    SinceIsWithin(Open, Accepted(window, before, key), now - window, now);
  }

  lemma {:induction false} AcceptedNotLater(window: Time, reqs: seq<Request>, key: string, now: Time)
    requires forall i :: 0 <= i < |reqs| ==> reqs[i].now <= now
    ensures NotLater(Accepted(window, reqs, key), now)
  {
    if reqs != [] {
      var n := |reqs| - 1;
      AcceptedNotLater(window, reqs[..n], key, now);
      assert reqs[n].now <= now;
    }
  }

  lemma Admit(window: Time, reqs: seq<Request>, r: Request, kept: seq<Time>)
    requires Since(Open, Entries(MemoryRun(window, reqs), r.key), r.now - window) == kept
    requires |kept| < r.limit
    ensures Entries(MemoryRun(window, reqs + [r]), r.key) == kept + [r.now]
    ensures Accepted(window, reqs + [r], r.key) == Accepted(window, reqs, r.key) + [r.now]
  {
    assert (reqs + [r])[..|reqs|] == reqs;
  }

  /** A clock that steps back defeats the bound: `time.time()` is not monotonic. */
  lemma ClockStepBackBreaksBound() returns (reqs: seq<Request>)
    ensures forall i :: 0 <= i < |reqs| ==> reqs[i].key == "k" && reqs[i].limit == 2
    ensures |Within(Open, Accepted(60.0, reqs, "k"), 101.0 - 60.0, 101.0)| > 2
  {
    var three := TwoThenOneLater();
    Admit(60.0, three, Request("k", 2, 101.0, 101.0), [200.0]);
    reqs := three + [Request("k", 2, 101.0, 101.0)];
    assert Accepted(60.0, reqs, "k") == [99.0, 100.0, 200.0, 101.0];
    WindowOfFour(99.0, 100.0, 200.0, 101.0);
  }

  lemma TwoThenOneLater() returns (reqs: seq<Request>)
    ensures forall i :: 0 <= i < |reqs| ==> reqs[i].key == "k" && reqs[i].limit == 2
    ensures Since(Open, Entries(MemoryRun(60.0, reqs), "k"), 41.0) == [200.0]
    ensures Accepted(60.0, reqs, "k") == [99.0, 100.0, 200.0]
  {
    var two := TwoAtOnce();
    var later := Request("k", 2, 200.0, 200.0);
    PastAll(99.0, 100.0, 140.0);
    Admit(60.0, two, later, []);
    reqs := two + [later];
    assert [200.0][..0] == [];
  }

  lemma TwoAtOnce() returns (reqs: seq<Request>)
    ensures forall i :: 0 <= i < |reqs| ==> reqs[i].key == "k" && reqs[i].limit == 2
    ensures Entries(MemoryRun(60.0, reqs), "k") == Accepted(60.0, reqs, "k") == [99.0, 100.0]
  {
    var first, second := Request("k", 2, 99.0, 99.0), Request("k", 2, 100.0, 100.0);
    Admit(60.0, [], first, []);
    assert [] + [first] == [first] && [99.0][..0] == [];
    Admit(60.0, [first], second, [99.0]);
    reqs := [first] + [second];
  }

  lemma PastAll(a: Time, b: Time, start: Time)
    requires a <= start && b <= start
    ensures Since(Open, [a, b], start) == []
  {
    assert [a, b][..1] == [a];
    assert Since(Open, [a], start) == [];
  }

  lemma WindowOfFour(a: Time, b: Time, c: Time, d: Time)
    requires 41.0 < a <= 101.0 && 41.0 < b <= 101.0 && 41.0 < d <= 101.0 < c
    ensures Within(Open, [a, b, c, d], 41.0, 101.0) == [a, b, d]
  {
    assert [a, b, c, d][..3] == [a, b, c] && [a, b, c][..2] == [a, b] && [a, b][..1] == [a];
    assert Within(Open, [a], 41.0, 101.0) == [a];
    assert Within(Open, [a, b], 41.0, 101.0) == [a, b];
    assert Within(Open, [a, b, c], 41.0, 101.0) == [a, b];
  }

  // ------------------------------------------------------------------- redis

  /** A sorted set `{str(t): t}` with the instant at which its key expires. */
  datatype Bucket = Bucket(zset: set<Time>, deadline: Time)

  type Buckets = map<string, Bucket>

  /** The members of a key, empty when it is missing or, if the server honours
      EXPIRE, past its deadline. */
  function Members(expire: bool, buckets: Buckets, key: string, server: Time): set<Time> {
    if key !in buckets || (expire && buckets[key].deadline < server) then {} else buckets[key].zset
  }

  /** ZREMRANGEBYSCORE key lo hi */
  function RemoveByScore(zset: set<Time>, lo: Time, hi: Time): set<Time> {
    set m | m in zset && !(lo <= m <= hi)
  }

  /** The members a request counts. */
  function Counted(expire: bool, window: Time, buckets: Buckets, r: Request): set<Time> {
    RemoveByScore(Members(expire, buckets, r.key, r.server), 0.0, r.now - window)
  }

  function RedisStep(expire: bool, window: Time, buckets: Buckets, r: Request): (Buckets, Decision) {
    var kept := Counted(expire, window, buckets, r);
    (buckets[r.key := Bucket(kept + {r.now}, r.server + window)],
     Decision(|kept| < r.limit, Max(0, r.limit - |kept| - 1), Truncate(r.now + window)))
  }

  class RedisLimiter {
    const window: Time
    var buckets: Buckets

    constructor (window: Time)
      ensures this.window == window && buckets == map[]
    {
      this.window := window;
      buckets := map[];
    }

    /** `_check_rate_limit_redis`: the four commands of the pipeline, in order. */
    method Check(key: string, limit: int, now: Time, server: Time) returns (d: Decision)
      modifies this`buckets
      ensures (buckets, d) == RedisStep(true, window, old(buckets), Request(key, limit, now, server))
    {
      var windowStart := now - window;
      var zset := RemoveByScore(Members(true, buckets, key, server), 0.0, windowStart);
      var currentCount := |zset|;
      zset := zset + {now};
      buckets := buckets[key := Bucket(zset, server + window)];
      d := Decision(currentCount < limit, Max(0, limit - currentCount - 1), Truncate(now + window));
    }
  }

  function RedisRun(expire: bool, window: Time, reqs: seq<Request>): Buckets {
    if reqs == [] then map[] else
      RedisStep(expire, window, RedisRun(expire, window, reqs[..|reqs| - 1]), reqs[|reqs| - 1]).0
  }

  function RedisAnswer(expire: bool, window: Time, reqs: seq<Request>, i: nat): Decision
    requires i < |reqs|
  {
    RedisStep(expire, window, RedisRun(expire, window, reqs[..i]), reqs[i]).1
  }

  /** Every request for a key, admitted or not. */
  function Arrivals(reqs: seq<Request>, key: string): seq<Time> {
    if reqs == [] then [] else
      var n := |reqs| - 1;
      var before := Arrivals(reqs[..n], key);
      if reqs[n].key == key then before + [reqs[n].now] else before
  }

  ghost function Instants(times: seq<Time>): set<Time> {
    set i | 0 <= i < |times| :: times[i]
  }

  lemma InstantsAppend(times: seq<Time>, t: Time)
    ensures Instants(times + [t]) == Instants(times) + {t}
  {
    var longer := times + [t];
    forall x | x in Instants(times) + {t} ensures x in Instants(longer) {
      if x in Instants(times) {
        var i :| 0 <= i < |times| && times[i] == x;
        assert longer[i] == x;
      } else {
        assert longer[|times|] == x;
      }
    }
  }

  /** The last request for a key. */
  function LastOf(reqs: seq<Request>, key: string): Option<Request> {
    if reqs == [] then None
    else if reqs[|reqs| - 1].key == key then Some(reqs[|reqs| - 1])
    else LastOf(reqs[..|reqs| - 1], key)
  }

  /** Scores equal members and are not negative; the last request for the key
      left the latest member and set the deadline. */
  ghost predicate BucketValid(window: Time, b: Bucket, last: Request) {
    && b.deadline == last.server + window
    && last.now in b.zset
    && forall m :: m in b.zset ==> 0.0 <= m <= last.now
  }

  ghost predicate BucketsValid(window: Time, buckets: Buckets, reqs: seq<Request>) {
    && (forall k :: k in buckets <==> LastOf(reqs, k).Some?)
    && (forall k :: k in buckets ==> BucketValid(window, buckets[k], LastOf(reqs, k).value))
  }

  ghost predicate Clocked(reqs: seq<Request>) {
    NonDecreasing(reqs) && (reqs != [] ==> 0.0 <= reqs[0].now)
  }

  lemma ClockedPrefix(reqs: seq<Request>)
    requires Clocked(reqs) && reqs != []
    ensures Clocked(reqs[..|reqs| - 1])
    ensures 0.0 <= reqs[|reqs| - 1].now
    ensures forall i :: 0 <= i < |reqs| ==> reqs[i].now <= reqs[|reqs| - 1].now
  {
    assert reqs[0].now <= reqs[|reqs| - 1].now;
  }

  lemma {:induction false} LastAmong(reqs: seq<Request>, key: string)
    ensures LastOf(reqs, key).Some? ==> LastOf(reqs, key).value in reqs && LastOf(reqs, key).value.key == key
  {
    if reqs != [] {
      LastAmong(reqs[..|reqs| - 1], key);
    }
  }

  lemma LastNotLater(reqs: seq<Request>)
    requires Clocked(reqs) && reqs != []
    ensures var (l, r) := (LastOf(reqs[..|reqs| - 1], reqs[|reqs| - 1].key), reqs[|reqs| - 1]);
      l.Some? ==> l.value.now <= r.now
  {
    LastAmong(reqs[..|reqs| - 1], reqs[|reqs| - 1].key);
    ClockedPrefix(reqs);
  }

  lemma {:induction false} RunsStayValid(expire: bool, window: Time, reqs: seq<Request>)
    requires Clocked(reqs)
    ensures BucketsValid(window, RedisRun(expire, window, reqs), reqs)
  {
    if reqs != [] {
      ClockedPrefix(reqs);
      RunsStayValid(expire, window, reqs[..|reqs| - 1]);
      LastNotLater(reqs);
      StepValid(expire, window, RedisRun(expire, window, reqs[..|reqs| - 1]), reqs);
    }
  }

  lemma StepValid(expire: bool, window: Time, buckets: Buckets, reqs: seq<Request>)
    requires reqs != [] && BucketsValid(window, buckets, reqs[..|reqs| - 1])
    requires var (l, r) := (LastOf(reqs[..|reqs| - 1], reqs[|reqs| - 1].key), reqs[|reqs| - 1]);
      0.0 <= r.now && (l.Some? ==> l.value.now <= r.now)
    ensures BucketsValid(window, RedisStep(expire, window, buckets, reqs[|reqs| - 1]).0, reqs)
  {
    var front, r := reqs[..|reqs| - 1], reqs[|reqs| - 1];
    var after := RedisStep(expire, window, buckets, r).0;
    forall k | k in after ensures BucketValid(window, after[k], LastOf(reqs, k).value) {
      if k != r.key {
        assert BucketValid(window, buckets[k], LastOf(front, k).value);
      } else {
        assert k in buckets ==> BucketValid(window, buckets[k], LastOf(front, k).value);
      }
    }
  }

  /** If the server has let the key expire since its last request, the window
      has passed on the middleware's clock too. */
  predicate Covered(window: Time, front: seq<Request>, r: Request) {
    match LastOf(front, r.key)
    case None => true
    case Some(l) => l.server + window < r.server ==> l.now + window <= r.now
  }

  predicate TtlCovers(window: Time, reqs: seq<Request>) {
    reqs == [] || (TtlCovers(window, reqs[..|reqs| - 1]) && Covered(window, reqs[..|reqs| - 1], reqs[|reqs| - 1]))
  }

  /** One request counts the same members with and without EXPIRE exactly then. */
  lemma ExpiredIsPrunedIff(window: Time, buckets: Buckets, front: seq<Request>, r: Request)
    requires BucketsValid(window, buckets, front)
    ensures Counted(true, window, buckets, r) == Counted(false, window, buckets, r) <==> Covered(window, front, r)
  {
    if r.key in buckets {
      var b, l := buckets[r.key], LastOf(front, r.key).value;
      assert BucketValid(window, b, l);
      if b.deadline < r.server {
        assert Counted(true, window, buckets, r) == {};
        if l.now <= r.now - window {
          assert Counted(false, window, buckets, r) == {};
        } else {
          assert l.now in Counted(false, window, buckets, r);
        }
      }
    }
  }

  /** Every request of the run counts the same members with and without EXPIRE. */
  ghost predicate CountsAgree(window: Time, reqs: seq<Request>) {
    reqs == [] ||
    var front, r := reqs[..|reqs| - 1], reqs[|reqs| - 1];
    && CountsAgree(window, front)
    && Counted(true, window, RedisRun(true, window, front), r)
       == Counted(false, window, RedisRun(false, window, front), r)
  }

  lemma {:induction false} StoresAgree(window: Time, reqs: seq<Request>)
    requires CountsAgree(window, reqs)
    ensures RedisRun(true, window, reqs) == RedisRun(false, window, reqs)
  {
    if reqs != [] {
      StoresAgree(window, reqs[..|reqs| - 1]);
    }
  }

  /** EXPIRE is unobservable over a run if and only if no key expires on the
      server's clock before its window has passed on the middleware's. */
  lemma {:induction false} ExpireUnobservableIff(window: Time, reqs: seq<Request>)
    requires Clocked(reqs)
    ensures CountsAgree(window, reqs) <==> TtlCovers(window, reqs)
  {
    if reqs != [] {
      var front := reqs[..|reqs| - 1];
      ClockedPrefix(reqs);
      ExpireUnobservableIff(window, front);
      if CountsAgree(window, front) {
        StoresAgree(window, front);
        RunsStayValid(true, window, front);
        ExpiredIsPrunedIff(window, RedisRun(true, window, front), front, reqs[|reqs| - 1]);
      }
    }
  }

  lemma {:induction false} TtlCoversPrefix(window: Time, reqs: seq<Request>, i: nat)
    requires TtlCovers(window, reqs) && i <= |reqs|
    ensures TtlCovers(window, reqs[..i])
  {
    if i < |reqs| {
      TtlCoversPrefix(window, reqs[..|reqs| - 1], i);
      assert reqs[..|reqs| - 1][..i] == reqs[..i];
    } else {
      assert reqs[..i] == reqs;
    }
  }

  /** Then it changes neither the store nor any answer. */
  lemma ExpireUnobservable(window: Time, reqs: seq<Request>, i: nat)
    requires Clocked(reqs) && TtlCovers(window, reqs) && i < |reqs|
    ensures RedisRun(true, window, reqs[..i]) == RedisRun(false, window, reqs[..i])
    ensures RedisAnswer(true, window, reqs, i) == RedisAnswer(false, window, reqs, i)
  {
    var upTo := reqs[..i + 1];
    assert upTo[..|upTo| - 1] == reqs[..i] && upTo[|upTo| - 1] == reqs[i];
    TtlCoversPrefix(window, reqs, i + 1);
    ExpireUnobservableIff(window, upTo);
    StoresAgree(window, reqs[..i]);
  }

  /** The same latency for every request is enough. */
  lemma {:induction false} ConstantLatencyCovers(window: Time, reqs: seq<Request>, latency: Time)
    requires forall i :: 0 <= i < |reqs| ==> reqs[i].server == reqs[i].now + latency
    ensures TtlCovers(window, reqs)
  {
    if reqs != [] {
      ConstantLatencyCovers(window, reqs[..|reqs| - 1], latency);
      LastAmong(reqs[..|reqs| - 1], reqs[|reqs| - 1].key);
    }
  }

  /** Varying latency is not: a key that expires a moment early lets a second
      request through a limit of one within the window. */
  lemma EarlyExpiryAdmits(window: Time) returns (reqs: seq<Request>)
    requires window > 1.0
    ensures Clocked(reqs) && |reqs| == 2 && reqs[1].now - reqs[0].now < window
    ensures forall i :: 0 <= i < 2 ==>
      reqs[i].key == "k" && reqs[i].limit == 1 && RedisAnswer(true, window, reqs, i).allowed
    ensures !RedisAnswer(false, window, reqs, 1).allowed
  {
    var first, second := Request("k", 1, 0.0, 0.0), Request("k", 1, window - 1.0, window + 1.0);
    reqs := [first, second];
    assert reqs[..1] == [first] && reqs[..0] == [] && [first][..0] == [];
    assert Counted(true, window, map[], first) == {} == Counted(false, window, map[], first);
    assert Counted(true, window, RedisRun(true, window, [first]), second) == {};
    assert 0.0 in Counted(false, window, RedisRun(false, window, [first]), second);
  }

  lemma PruneStep(zset: set<Time>, now: Time, cut: Time, start: Time)
    requires forall m :: m in zset ==> 0.0 <= m
    requires cut <= start && 0.0 <= now
    ensures RemoveByScore(RemoveByScore(zset, 0.0, cut) + {now}, 0.0, start)
         == RemoveByScore(zset, 0.0, start) + if now > start then {now} else {}
  {
  }

  /** The members a request leaves behind, seen through a later cut. */
  lemma StepMembers(window: Time, buckets: Buckets, front: seq<Request>, r: Request, start: Time, server: Time)
    requires BucketsValid(window, buckets, front)
    requires 0.0 <= r.now && r.now - window <= start
    ensures RemoveByScore(Members(false, RedisStep(false, window, buckets, r).0, r.key, server), 0.0, start)
         == RemoveByScore(Members(false, buckets, r.key, server), 0.0, start)
            + if r.now > start then {r.now} else {}
  {
    var zset := Members(false, buckets, r.key, server);
    forall m | m in zset ensures 0.0 <= m {
      assert BucketValid(window, buckets[r.key], LastOf(front, r.key).value);
    }
    PruneStep(zset, r.now, r.now - window, start);
  }

  /** A Redis key remembers exactly the instants at which requests arrived in
      the window, refused requests included. */
  lemma {:induction false} MembersAreArrivals(window: Time, reqs: seq<Request>, key: string, start: Time, server: Time)
    requires Clocked(reqs)
    requires reqs != [] ==> reqs[|reqs| - 1].now - window <= start
    ensures RemoveByScore(Members(false, RedisRun(false, window, reqs), key, server), 0.0, start)
         == Instants(Since(Open, Arrivals(reqs, key), start))
  {
    if reqs != [] {
      var before, r := reqs[..|reqs| - 1], reqs[|reqs| - 1];
      ClockedPrefix(reqs);
      RunsStayValid(false, window, before);
      MembersAreArrivals(window, before, key, start, server);
      if r.key == key {
        StepMembers(window, RedisRun(false, window, before), before, r, start, server);
        SinceAppend(Open, Arrivals(before, key), r.now, start);
        InstantsAppend(Since(Open, Arrivals(before, key), start), r.now);
      }
    }
  }

  lemma CountedAreArrivals(window: Time, reqs: seq<Request>, i: nat)
    requires Clocked(reqs) && i < |reqs|
    ensures Counted(false, window, RedisRun(false, window, reqs[..i]), reqs[i])
         == Instants(Since(Open, Arrivals(reqs[..i], reqs[i].key), reqs[i].now - window))
  {
    MembersAreArrivals(window, reqs[..i], reqs[i].key, reqs[i].now - window, reqs[i].server);
  }

  /** What a Redis answer counts: the distinct instants of earlier arrivals. */
  lemma RedisAnswerIsArrivalCount(window: Time, reqs: seq<Request>, i: nat)
    requires Clocked(reqs) && i < |reqs|
    ensures RedisAnswer(false, window, reqs, i).allowed <==>
      |Instants(Since(Open, Arrivals(reqs[..i], reqs[i].key), reqs[i].now - window))| < reqs[i].limit
    ensures RedisAnswer(false, window, reqs, i).remaining
      == Max(0, reqs[i].limit - |Instants(Since(Open, Arrivals(reqs[..i], reqs[i].key), reqs[i].now - window))| - 1)
  {
    CountedAreArrivals(window, reqs, i);
  }

  // ------------------------------------------------------------- comparison

  lemma {:induction false} AcceptedAmongArrivals(window: Time, reqs: seq<Request>, key: string, start: Time)
    ensures |InWindow(window, reqs, key, start)| <= |ArrivedIn(reqs, key, start)|
  {
    if reqs != [] {
      var n := |reqs| - 1;
      AcceptedAmongArrivals(window, reqs[..n], key, start);
      SinceAppend(Open, Accepted(window, reqs[..n], key), reqs[n].now, start);
      SinceAppend(Open, Arrivals(reqs[..n], key), reqs[n].now, start);
    }
  }

  ghost predicate PairwiseDifferent(times: seq<Time>) {
    times == [] ||
    (PairwiseDifferent(times[..|times| - 1]) && times[|times| - 1] !in Instants(times[..|times| - 1]))
  }

  /** Counting instants counts their occurrences exactly if none repeats. */
  lemma {:induction false} DistinctIff(times: seq<Time>)
    ensures |Instants(times)| <= |times|
    ensures |Instants(times)| == |times| <==> PairwiseDifferent(times)
  {
    if times != [] {
      var front, last := times[..|times| - 1], times[|times| - 1];
      DistinctIff(front);
      InstantsAppend(front, last);
      assert times == front + [last];
      if last in Instants(front) {
        assert Instants(front) + {last} == Instants(front);
      }
    }
  }

  /** The arrivals of a key in a window. */
  function ArrivedIn(reqs: seq<Request>, key: string, start: Time): seq<Time> {
    Since(Open, Arrivals(reqs, key), start)
  }

  lemma RedisAllowsIff(window: Time, reqs: seq<Request>, i: nat)
    requires Clocked(reqs) && TtlCovers(window, reqs) && i < |reqs|
    ensures RedisAnswer(true, window, reqs, i).allowed
      <==> |Instants(ArrivedIn(reqs[..i], reqs[i].key, reqs[i].now - window))| < reqs[i].limit
  {
    ExpireUnobservable(window, reqs, i);
    RedisAnswerIsArrivalCount(window, reqs, i);
  }

  lemma MemoryAllowsIff(window: Time, reqs: seq<Request>, i: nat)
    requires Clocked(reqs) && i < |reqs|
    ensures MemoryAnswer(window, reqs, i).allowed
      <==> |InWindow(window, reqs[..i], reqs[i].key, reqs[i].now - window)| < reqs[i].limit
  {
    AnswerIsWindowCount(window, reqs, i);
  }

  /** The two limiters part over a request exactly if its limit lies between
      the distinct instants of the arrivals seen and the requests accepted among
      them: Redis alone admits it when equal instants hide accepted requests,
      memory alone when refused requests fill the window. */
  lemma LimitersPartIff(window: Time, reqs: seq<Request>, i: nat)
    requires Clocked(reqs) && TtlCovers(window, reqs) && i < |reqs|
    ensures RedisAnswer(true, window, reqs, i).allowed && !MemoryAnswer(window, reqs, i).allowed
      <==> |Instants(ArrivedIn(reqs[..i], reqs[i].key, reqs[i].now - window))| < reqs[i].limit
             <= |InWindow(window, reqs[..i], reqs[i].key, reqs[i].now - window)|
    ensures MemoryAnswer(window, reqs, i).allowed && !RedisAnswer(true, window, reqs, i).allowed
      <==> |InWindow(window, reqs[..i], reqs[i].key, reqs[i].now - window)| < reqs[i].limit
             <= |Instants(ArrivedIn(reqs[..i], reqs[i].key, reqs[i].now - window))|
  {
    RedisAllowsIff(window, reqs, i);
    MemoryAllowsIff(window, reqs, i);
  }

  /** Redis is the stricter one wherever the arrivals in the window came at
      different instants: what it admits there the memory limiter admits too. */
  lemma RedisAdmitsLess(window: Time, reqs: seq<Request>, i: nat)
    requires Clocked(reqs) && TtlCovers(window, reqs) && i < |reqs|
    requires PairwiseDifferent(ArrivedIn(reqs[..i], reqs[i].key, reqs[i].now - window))
    requires RedisAnswer(true, window, reqs, i).allowed
    ensures MemoryAnswer(window, reqs, i).allowed
  {
    RedisAllowsIff(window, reqs, i);
    MemoryAllowsIff(window, reqs, i);
    DistinctIff(ArrivedIn(reqs[..i], reqs[i].key, reqs[i].now - window));
    AcceptedAmongArrivals(window, reqs[..i], reqs[i].key, reqs[i].now - window);
  }

  /** The full history of the requests for a key that Redis admitted. */
  function RedisAccepted(window: Time, reqs: seq<Request>, key: string): seq<Time> {
    if reqs == [] then [] else
      var n := |reqs| - 1;
      var before := RedisAccepted(window, reqs[..n], key);
      if reqs[n].key == key && RedisAnswer(true, window, reqs, n).allowed then before + [reqs[n].now] else before
  }

  /** That history lists every admitted request of the key. */
  lemma {:induction false} AdmittedAreListed(window: Time, reqs: seq<Request>, key: string, i: nat)
    requires i < |reqs| && reqs[i].key == key && RedisAnswer(true, window, reqs, i).allowed
    ensures reqs[i].now in RedisAccepted(window, reqs, key)
    ensures |RedisAccepted(window, reqs[..i + 1], key)| == |RedisAccepted(window, reqs[..i], key)| + 1
  {
    var n := |reqs| - 1;
    if i < n {
      assert reqs[..n][..i] == reqs[..i] && reqs[..n][..i + 1] == reqs[..i + 1];
      AdmittedAreListed(window, reqs[..n], key, i);
    } else {
      assert reqs[..i + 1] == reqs;
    }
  }

  lemma WithinAppend(times: seq<Time>, t: Time, start: Time, end: Time)
    ensures Within(Open, times + [t], start, end)
         == Within(Open, times, start, end) + if start < t <= end then [t] else []
  {
    assert (times + [t])[..|times|] == times;
    assert Within(Open, times, start, end) + [] == Within(Open, times, start, end);
  }

  /** The admitted instants of a window are among the arrivals since its start. */
  lemma {:induction false} AdmittedInstantsAmong(
      window: Time, reqs: seq<Request>, key: string, start: Time, end: Time, from: Time)
    requires from <= start
    ensures Instants(Within(Open, RedisAccepted(window, reqs, key), start, end))
         <= Instants(Since(Open, Arrivals(reqs, key), from))
  {
    if reqs != [] {
      var n := |reqs| - 1;
      var front, t := reqs[..n], reqs[n].now;
      AdmittedInstantsAmong(window, front, key, start, end, from);
      var accepted, arrivals := RedisAccepted(window, front, key), Arrivals(front, key);
      WithinAppend(accepted, t, start, end);
      SinceAppend(Open, arrivals, t, from);
      InstantsAppend(Within(Open, accepted, start, end), t);
      InstantsAppend(Since(Open, arrivals, from), t);
    }
  }

  /** One more admission keeps the window within the limit. */
  lemma AdmissionFits(window: Time, reqs: seq<Request>, key: string, limit: nat, end: Time)
    requires Clocked(reqs) && TtlCovers(window, reqs) && LimitedBy(reqs, key, limit) && reqs != []
    requires var r := reqs[|reqs| - 1]; r.key == key && end - window < r.now <= end
    requires RedisAnswer(true, window, reqs, |reqs| - 1).allowed
    ensures var before := RedisAccepted(window, reqs[..|reqs| - 1], key);
      |Instants(Within(Open, before, end - window, end))| < limit
  {
    var n := |reqs| - 1;
    var front, from := reqs[..n], reqs[n].now - window;
    RedisAllowsIff(window, reqs, n);
    AdmittedInstantsAmong(window, front, key, end - window, end, from);
    SubsetSize(Instants(Within(Open, RedisAccepted(window, front, key), end - window, end)),
               Instants(Since(Open, Arrivals(front, key), from)));
  }

  lemma InstantStep(window: Time, reqs: seq<Request>, key: string, limit: nat, end: Time)
    requires Clocked(reqs) && TtlCovers(window, reqs) && LimitedBy(reqs, key, limit) && reqs != []
    requires |Instants(Within(Open, RedisAccepted(window, reqs[..|reqs| - 1], key), end - window, end))| <= limit
    ensures |Instants(Within(Open, RedisAccepted(window, reqs, key), end - window, end))| <= limit
  {
    var n := |reqs| - 1;
    var r := reqs[n];
    if r.key == key && RedisAnswer(true, window, reqs, n).allowed {
      if end - window < r.now <= end {
        AdmissionFits(window, reqs, key, limit, end);
      }
      OneMoreInstant(RedisAccepted(window, reqs[..n], key), r.now, end - window, end, limit);
    }
  }

  /** The Redis limiter's own bound, on every run: no window holds more than
      `limit` distinct instants at which it admitted a request. */
  lemma {:induction false} RedisInstantBound(window: Time, reqs: seq<Request>, key: string, limit: nat, end: Time)
    requires Clocked(reqs) && TtlCovers(window, reqs) && LimitedBy(reqs, key, limit)
    ensures |Instants(Within(Open, RedisAccepted(window, reqs, key), end - window, end))| <= limit
  {
    if reqs != [] {
      ClockedPrefix(reqs);
      RedisInstantBound(window, reqs[..|reqs| - 1], key, limit, end);
      InstantStep(window, reqs, key, limit, end);
    }
  }

  lemma OneMoreInstant(times: seq<Time>, t: Time, start: Time, end: Time, limit: nat)
    requires |Instants(Within(Open, times, start, end))| <= limit
    requires start < t <= end ==> |Instants(Within(Open, times, start, end))| < limit
    ensures |Instants(Within(Open, times + [t], start, end))| <= limit
  {
    var before := Within(Open, times, start, end);
    WithinAppend(times, t, start, end);
    InstantsAppend(before, t);
    assert before + [] == before;
  }

  /** So a window can exceed the limit only by requests admitted at equal
      instants: it holds at most `limit` where none are. */
  lemma RedisWindowBound(window: Time, reqs: seq<Request>, key: string, limit: nat, end: Time)
    requires Clocked(reqs) && TtlCovers(window, reqs) && LimitedBy(reqs, key, limit)
    requires PairwiseDifferent(Within(Open, RedisAccepted(window, reqs, key), end - window, end))
    ensures |Within(Open, RedisAccepted(window, reqs, key), end - window, end)| <= limit
  {
    RedisInstantBound(window, reqs, key, limit, end);
    DistinctIff(Within(Open, RedisAccepted(window, reqs, key), end - window, end));
  }

  /** The instants matter: a ZSET merges requests of the same instant, so three
      at once pass a Redis limit of two while the memory limiter refuses one. */
  lemma SameInstantSeparates(window: Time, now: Time) returns (reqs: seq<Request>)
    requires 0.0 < window && 0.0 <= now
    ensures Clocked(reqs) && |reqs| == 3 && forall i :: 0 <= i < 3 ==> reqs[i] == Request("k", 2, now, now)
    ensures RedisAnswer(true, window, reqs, 2).allowed && !MemoryAnswer(window, reqs, 2).allowed
  {
    var r := Request("k", 2, now, now);
    reqs := [r, r, r];
    SameInstantRedis(window, reqs, r);
    SameInstantMemory(window, reqs, r);
  }

  lemma SameInstantRedis(window: Time, reqs: seq<Request>, r: Request)
    requires 0.0 < window && 0.0 <= r.now && r.limit == 2
    requires |reqs| == 3 && forall i :: 0 <= i < 3 ==> reqs[i] == r
    ensures RedisAnswer(true, window, reqs, 2).allowed
  {
    ConstantLatencyCovers(window, reqs, r.server - r.now);
    RedisAllowsIff(window, reqs, 2);
    SingleInstant(reqs[..2], r.key, r.now - window, r.now);
    SubsetSize(Instants(Since(Open, Arrivals(reqs[..2], r.key), r.now - window)), {r.now});
  }

  lemma {:induction false} SingleInstant(reqs: seq<Request>, key: string, start: Time, now: Time)
    requires forall i :: 0 <= i < |reqs| ==> reqs[i].now == now
    ensures Instants(Since(Open, Arrivals(reqs, key), start)) <= {now}
  {
    if reqs != [] {
      var n := |reqs| - 1;
      SingleInstant(reqs[..n], key, start, now);
      SinceAppend(Open, Arrivals(reqs[..n], key), reqs[n].now, start);
      InstantsAppend(Since(Open, Arrivals(reqs[..n], key), start), reqs[n].now);
    }
  }

  lemma SubsetSize<T>(small: set<T>, big: set<T>)
    requires small <= big
    ensures |small| <= |big|
  {
    assert big == small + (big - small);
  }

  lemma SameInstantMemory(window: Time, reqs: seq<Request>, r: Request)
    requires 0.0 < window && r.limit == 2 && reqs == [r, r, r]
    ensures !MemoryAnswer(window, reqs, 2).allowed
  {
    Admit(window, [], r, []);
    Admit(window, [] + [r], r, [r.now]);
    assert ([r.now] + [r.now])[..1] == [r.now];
    assert reqs[..2] == [] + [r] + [r];
    assert Since(Open, [r.now] + [r.now], r.now - window) == [r.now] + [r.now];
  }

  /** A Redis answer says how many more the limit leaves, never below zero. */
  lemma RedisAnswerSays(window: Time, reqs: seq<Request>, i: nat)
    requires Clocked(reqs) && TtlCovers(window, reqs) && i < |reqs|
    ensures RedisAnswer(true, window, reqs, i).remaining
      == Max(0, reqs[i].limit - |Instants(ArrivedIn(reqs[..i], reqs[i].key, reqs[i].now - window))| - 1)
  {
    ExpireUnobservable(window, reqs, i);
    RedisAnswerIsArrivalCount(window, reqs, i);
  }

  /** Every answer says when the window after it is over, in whole seconds. */
  lemma ResetsAfterWindow(window: Time, memory: Store, buckets: Buckets, r: Request)
    requires 0.0 <= r.now + window
    ensures var reset := MemoryStep(window, memory, r).1.resetTime;
      reset == RedisStep(true, window, buckets, r).1.resetTime && reset as real <= r.now + window < reset as real + 1.0
  {
  }

  /** An answer in memory says how many more the limit leaves. */
  lemma MemoryAnswerSays(window: Time, reqs: seq<Request>, i: nat)
    requires Clocked(reqs) && i < |reqs|
    ensures MemoryAnswer(window, reqs, i).remaining
      == Max(0, reqs[i].limit - |InWindow(window, reqs[..i], reqs[i].key, reqs[i].now - window)| - 1)
  {
    AnswerIsWindowCount(window, reqs, i);
  }

  // -------------------------------------------------------------- middleware

  /** The store key `f"ratelimit:{client_ip}:{path}"`. */
  function RateKey(ip: string, path: string): string {
    "ratelimit:" + ip + ":" + path
  }

  /** The path of an HTTP request target. */
  predicate IsPath(path: string) {
    path != "" && path[0] == '/'
  }

  /** If a shorter address yields the same key, the longer one continues with ":/". */
  lemma LongerAddressHasSlash(ip: string, path: string, ip': string, path': string)
    requires IsPath(path') && |ip'| < |ip|
    requires RateKey(ip, path) == RateKey(ip', path')
    ensures Occurs(":/", ip)
  {
    var p := "ratelimit:";
    var key, n := RateKey(ip, path), |p| + |ip'|;
    assert key == p + (ip + ":" + path) == p + (ip' + ":" + path');
    assert key[n] == (ip' + ":" + path')[|ip'|] == ':' && key[n + 1] == (ip' + ":" + path')[|ip'| + 1] == '/';
    assert key[n] == (ip + ":" + path)[|ip'|] && key[n + 1] == (ip + ":" + path)[|ip'| + 1];
    assert OccursAt(":/", ip, |ip'|);
  }

  /** Addresses free of ":/" never share a key across addresses or paths. */
  lemma KeyInjective(ip: string, path: string, ip': string, path': string)
    requires IsPath(path) && IsPath(path')
    requires !Occurs(":/", ip) && !Occurs(":/", ip')
    requires RateKey(ip, path) == RateKey(ip', path')
    ensures ip == ip' && path == path'
  {
    if |ip'| < |ip| {
      LongerAddressHasSlash(ip, path, ip', path');
    } else if |ip| < |ip'| {
      LongerAddressHasSlash(ip', path', ip, path);
    }
    var p := "ratelimit:";
    var key := RateKey(ip, path);
    assert ip == key[|p|..|p| + |ip|] == ip';
    assert path == key[|p| + |ip| + 1..] == path';
  }

  /** The client chooses X-Forwarded-For. Its value lets a request count under
      another address's key exactly when it contains ":/". */
  lemma KeyCollidesIff(ip: string, path: string)
    requires IsPath(path)
    ensures (exists ip', path' :: |ip'| < |ip| && IsPath(path') && RateKey(ip', path') == RateKey(ip, path))
      <==> Occurs(":/", ip)
  {
    if Occurs(":/", ip) {
      var i: nat :| i <= |ip| && OccursAt(":/", ip, i);
      var ip', path' := ip[..i], ip[i + 1..] + ":" + path;
      assert ip == ip' + ":" + ip[i + 1..];
      assert RateKey(ip', path') == RateKey(ip, path);
      assert ip[i + 1] == ip[i..i + 2][1] == '/';
    }
    forall ip', path' | |ip'| < |ip| && IsPath(path') && RateKey(ip', path') == RateKey(ip, path)
      ensures Occurs(":/", ip)
    {
      LongerAddressHasSlash(ip, path, ip', path');
    }
  }

  datatype Hit = Hit(ip: string, path: string, now: Time)

  datatype Config = Config(endpointLimits: map<string, int>, defaultLimit: int) {
    /** `_get_limit_for_path` */
    function LimitForPath(path: string): int {
      if path in endpointLimits then endpointLimits[path] else defaultLimit
    }

    function ToRequest(h: Hit): Request {
      Request(RateKey(h.ip, h.path), LimitForPath(h.path), h.now, h.now)
    }

    function ToRequests(hits: seq<Hit>): (reqs: seq<Request>)
      ensures |reqs| == |hits| && forall i :: 0 <= i < |hits| ==> reqs[i] == ToRequest(hits[i])
    {
      seq(|hits|, i requires 0 <= i < |hits| => ToRequest(hits[i]))
    }
  }

  /** The middleware constructed without Redis. */
  class RateLimitMiddleware {
    const config: Config
    const memory: MemoryLimiter

    constructor (config: Config, memory: MemoryLimiter)
      ensures this.config == config && this.memory == memory
    {
      this.config := config;
      this.memory := memory;
    }

    /** `_check_rate_limit` */
    method CheckRateLimit(ip: string, path: string, now: Time) returns (d: Decision)
      modifies memory`store
      ensures (memory.store, d) == MemoryStep(memory.window, old(memory.store), config.ToRequest(Hit(ip, path, now)))
    {
      var limit := config.LimitForPath(path);
      var key := RateKey(ip, path);
      d := memory.Check(key, limit, now);
    }
  }

  /** The limits the middleware is constructed with. */
  function Configured(defaultLimit: int, loginLimit: int): Config {
    Config(map[
      "/api/v1/auth/login" := loginLimit, "/api/v1/auth/refresh" := 30, "/api/v1/auth/logout" := 30,
      "/api/v1/mfa/verify" := 5, "/api/v1/mfa/enable" := 5, "/api/v1/mfa/disable" := 5,
      "/api/v1/mfa/recovery/verify" := 3, "/api/v1/mfa/recovery/regenerate" := 3], defaultLimit)
  }

  /** Addresses and paths as the endpoint theorems take them. */
  ghost predicate WellFormed(hits: seq<Hit>) {
    && (forall i, j :: 0 <= i < j < |hits| ==> hits[i].now <= hits[j].now)
    && (forall i :: 0 <= i < |hits| ==> IsPath(hits[i].path) && !Occurs(":/", hits[i].ip))
  }

  lemma HitsOfKey(config: Config, hits: seq<Hit>, ip: string, path: string, limit: int)
    requires WellFormed(hits) && IsPath(path) && !Occurs(":/", ip)
    requires limit == if path in config.endpointLimits then config.endpointLimits[path] else config.defaultLimit
    ensures forall i :: 0 <= i < |hits| && config.ToRequests(hits)[i].key == RateKey(ip, path) ==>
              config.ToRequests(hits)[i].limit == limit
  {
    var reqs, key := config.ToRequests(hits), RateKey(ip, path);
    forall i | 0 <= i < |reqs| && reqs[i].key == key ensures reqs[i].limit == limit {
      KeyInjective(hits[i].ip, hits[i].path, ip, path);
    }
  }

  /** The promise of the middleware: in no window does an address get more
      answers from an endpoint than the limit configured for the path, or the
      default when there is none. */
  lemma EndpointBound(config: Config, window: Time, hits: seq<Hit>, ip: string, path: string, end: Time)
    requires WellFormed(hits) && IsPath(path) && !Occurs(":/", ip)
    ensures |Within(Open, Accepted(window, config.ToRequests(hits), RateKey(ip, path)), end - window, end)|
      <= Max(0, if path in config.endpointLimits then config.endpointLimits[path] else config.defaultLimit)
  {
    var limit := if path in config.endpointLimits then config.endpointLimits[path] else config.defaultLimit;
    HitsOfKey(config, hits, ip, path, limit);
    MemoryWindowBound(window, config.ToRequests(hits), RateKey(ip, path), Max(0, limit), end);
  }

  /** And the limit is granted in full: a hit is refused exactly when that many
      answers are in its window. */
  lemma EndpointRefusesIff(config: Config, window: Time, hits: seq<Hit>, i: nat, limit: nat)
    requires WellFormed(hits) && i < |hits|
    requires limit == if hits[i].path in config.endpointLimits then config.endpointLimits[hits[i].path]
                      else config.defaultLimit
    ensures !MemoryAnswer(window, config.ToRequests(hits), i).allowed
      <==> |InWindow(window, config.ToRequests(hits)[..i], RateKey(hits[i].ip, hits[i].path),
                  hits[i].now - window)| == limit
  {
    HitsOfKey(config, hits, hits[i].ip, hits[i].path, limit);
    RefusedOnlyWhenFull(window, config.ToRequests(hits), i, limit);
  }

  /** With the limits the application sets, in no minute does an address get more
      than these answers from a path. */
  lemma ApplicationBounds(hits: seq<Hit>, ip: string, path: string, end: Time)
    requires WellFormed(hits) && IsPath(path) && !Occurs(":/", ip)
    ensures |Within(Open, Accepted(60.0, Configured(60, 5).ToRequests(hits), RateKey(ip, path)), end - 60.0, end)| <=
      if path in {"/api/v1/mfa/recovery/verify", "/api/v1/mfa/recovery/regenerate"} then 3
      else if path in {"/api/v1/auth/login", "/api/v1/mfa/verify", "/api/v1/mfa/enable", "/api/v1/mfa/disable"} then 5
      else if path in {"/api/v1/auth/refresh", "/api/v1/auth/logout"} then 30
      else 60
  {
    EndpointBound(Configured(60, 5), 60.0, hits, ip, path, end);
  }
}
