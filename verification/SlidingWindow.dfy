/** Lists of instants and the windows the limiters count in. Shared by the rate
    limiter, the login lockout and the password-reset quota. */
module SlidingWindow {

  /** An instant, in seconds. */
  type Time = real

  /** An open window starts just after `start`, a closed one at `start`. */
  datatype Edge = Open | Closed

  predicate Starts(edge: Edge, start: Time, t: Time) {
    if edge.Open? then t > start else t >= start
  }

  /** The instants of `times` inside the window beginning at `start`, in order. */
  function Since(edge: Edge, times: seq<Time>, start: Time): (r: seq<Time>)
    ensures |r| <= |times|
  {
    if times == [] then [] else
      var last := times[|times| - 1];
      var r := Since(edge, times[..|times| - 1], start);
      if Starts(edge, start, last) then r + [last] else r
  }

  /** The instants of `times` inside the window that ends, inclusively, at `end`. */
  function Within(edge: Edge, times: seq<Time>, start: Time, end: Time): (r: seq<Time>) {
    if times == [] then [] else
      var last := times[|times| - 1];
      var r := Within(edge, times[..|times| - 1], start, end);
      if Starts(edge, start, last) && last <= end then r + [last] else r
  }

  /** Every instant, when it was added, found fewer than `limit` in its window. */
  ghost predicate Admitted(edge: Edge, times: seq<Time>, window: Time, limit: int) {
    times == [] ||
    var n := |times| - 1;
    && Admitted(edge, times[..n], window, limit)
    && |Since(edge, times[..n], times[n] - window)| < limit
  }

  /** Filtering by an early cut first changes nothing at a later cut. */
  lemma {:induction false} SinceSince(edge: Edge, times: seq<Time>, early: Time, late: Time)
    requires early <= late
    ensures Since(edge, Since(edge, times, early), late) == Since(edge, times, late)
  {
    if times != [] {
      var n := |times| - 1;
      SinceSince(edge, times[..n], early, late);
      var r := Since(edge, times[..n], early);
      if Starts(edge, early, times[n]) {
        assert (r + [times[n]])[..|r|] == r;
      }
    }
  }

  lemma SinceAppend(edge: Edge, times: seq<Time>, t: Time, start: Time)
    ensures Since(edge, times + [t], start)
         == if Starts(edge, start, t) then Since(edge, times, start) + [t] else Since(edge, times, start)
  {
    assert (times + [t])[..|times|] == times;
  }

  lemma {:induction false} WithinLeSince(edge: Edge, times: seq<Time>, start: Time, end: Time, start': Time)
    requires start' <= start
    ensures |Within(edge, times, start, end)| <= |Since(edge, times, start')|
  {
    if times != [] {
      WithinLeSince(edge, times[..|times| - 1], start, end, start');
    }
  }

  /** The window theorem: if every instant was admitted by looking back from
      itself, then no window anywhere, wherever it ends, holds more than `limit`. */
  lemma {:induction false} WindowBound(edge: Edge, times: seq<Time>, window: Time, limit: nat, end: Time)
    requires Admitted(edge, times, window, limit)
    ensures |Within(edge, times, end - window, end)| <= limit
  {
    if times != [] {
      var n := |times| - 1;
      WindowBound(edge, times[..n], window, limit, end);
      if Starts(edge, end - window, times[n]) && times[n] <= end {
        WithinLeSince(edge, times[..n], end - window, end, times[n] - window);
      }
    }
  }

  lemma AdmittedAppend(edge: Edge, times: seq<Time>, t: Time, window: Time, limit: int)
    requires Admitted(edge, times, window, limit)
    requires |Since(edge, times, t - window)| < limit
    ensures Admitted(edge, times + [t], window, limit)
  {
    assert (times + [t])[..|times|] == times;
  }

  ghost predicate NotLater(times: seq<Time>, now: Time) {
    forall i :: 0 <= i < |times| ==> times[i] <= now
  }

  lemma {:induction false} SinceIsWithin(edge: Edge, times: seq<Time>, start: Time, end: Time)
    requires NotLater(times, end)
    ensures Since(edge, times, start) == Within(edge, times, start, end)
  {
    if times != [] {
      SinceIsWithin(edge, times[..|times| - 1], start, end);
    }
  }


  /** The filters keep, in order, the instants after the start, or from it on if
      the window is closed there, and up to the end. */
  lemma {:induction false} WindowInOrder(edge: Edge, a: seq<Time>, b: seq<Time>, t: Time, start: Time, end: Time)
    ensures Since(edge, a + b, start) == Since(edge, a, start) + Since(edge, b, start)
    ensures Within(edge, a + b, start, end) == Within(edge, a, start, end) + Within(edge, b, start, end)
    ensures Since(edge, [t], start) == if start < t || (edge == Closed && start == t) then [t] else []
    ensures Within(edge, [t], start, end)
         == if (start < t || (edge == Closed && start == t)) && t <= end then [t] else []
  {
    assert [t][..0] == [];
    if b == [] {
      assert a + b == a;
    } else {
      var n := |b| - 1;
      assert (a + b)[..|a + b| - 1] == a + b[..n];
      WindowInOrder(edge, a, b[..n], t, start, end);
    }
  }
}
