/** The bound on failed authentications: a fixed window over one counter. */
module Throttle {

  const MAX_FAILURES: nat := 60
  const WINDOW_SECONDS := 60.0

  datatype Window = Window(started: real, failures: nat)

  /** What one failure at `now` makes of the window. */
  function Recorded(w: Window, now: real, window: real): Window {
    if now - w.started >= window then Window(now, 1) else Window(w.started, w.failures + 1)
  }

  class FailureThrottle {
    const maxFailures: nat
    const window: real
    var started: real
    var failures: nat

    constructor (now: real, maxFailures: nat := MAX_FAILURES, window: real := WINDOW_SECONDS)
      ensures this.maxFailures == maxFailures && this.window == window
      ensures State() == Window(now, 0)
    {
      this.maxFailures, this.window := maxFailures, window;
      started, failures := now, 0;
    }

    function State(): Window
      reads this
    {
      Window(started, failures)
    }

    /** Counts one failure; true when the process is over budget and the answer becomes a 429. */
    method RecordFailure(now: real) returns (over: bool)
      modifies this
      ensures State() == Recorded(old(State()), now, window)
      ensures over <==> State().failures > maxFailures
    {
      if now - started >= window {
        started := now;
        failures := 0;
      }
      failures := failures + 1;
      return failures > maxFailures;
    }

    method Reset(now: real)
      modifies this
      ensures State() == Window(now, 0)
    {
      started := now;
      failures := 0;
    }
  }

  // ---- Counting ----

  function AllRecorded(w: Window, times: seq<real>, window: real): Window
    decreases |times|
  {
    if times == [] then w else AllRecorded(Recorded(w, times[0], window), times[1..], window)
  }

  /** A window counts every failure until it is over, and a failure after that begins one of its own: so of
      the failures within a window the first `max` are answered, and none after them. */
  lemma {:induction false} CountedUntilOver(w: Window, times: seq<real>, next: real, window: real)
    requires forall t | t in times :: t < w.started + window
    requires next >= w.started + window
    ensures AllRecorded(w, times, window) == Window(w.started, w.failures + |times|)
    ensures AllRecorded(w, times + [next], window) == Window(next, 1)
    decreases |times|
  {
    if times == [] {
      assert [next][1..] == [];
    } else {
      assert times[0] in times && (times + [next])[1..] == times[1..] + [next];
      assert forall t | t in times[1..] :: t in times;
      CountedUntilOver(Window(w.started, w.failures + 1), times[1..], next, window);
    }
  }

  // ---- Runs ----

  /** Clock readings that never go back, none before `since`. */
  predicate Monotone(times: seq<real>, since: real)
    decreases |times|
  {
    times == [] || (since <= times[0] && Monotone(times[1..], times[0]))
  }

  /** How many of the failures at `times` fall in [from, to) and are answered without throttling. */
  function Answered(w: Window, times: seq<real>, max: nat, window: real, from: real, to: real): nat
    decreases |times|
  {
    if times == [] then 0
    else
      var next := Recorded(w, times[0], window);
      (if from <= times[0] < to && next.failures <= max then 1 else 0)
      + Answered(next, times[1..], max, window, from, to)
  }

  lemma {:induction false} NoneAfter(w: Window, times: seq<real>, max: nat, window: real, from: real, to: real)
    requires Monotone(times, to)
    ensures Answered(w, times, max, window, from, to) == 0
    decreases |times|
  {
    if times != [] {
      MonotoneSince(times[1..], times[0], to);
      NoneAfter(Recorded(w, times[0], window), times[1..], max, window, from, to);
    }
  }

  lemma MonotoneSince(times: seq<real>, since: real, earlier: real)
    requires Monotone(times, since) && earlier <= since
    ensures Monotone(times, earlier)
  {
  }

  /** What is left of a budget. */
  function Left(w: Window, max: nat): nat { if w.failures >= max then 0 else max - w.failures }

  /** Once the clock is past `from`: a window begun since has its own budget left, and no other can
      follow it inside the interval; one begun earlier can be followed by one whole budget. */
  lemma {:induction false} AnsweredSince(w: Window, times: seq<real>, max: nat, window: real, from: real)
    requires window > 0.0 && Monotone(times, w.started) && Monotone(times, from)
    ensures Answered(w, times, max, window, from, from + window)
         <= Left(w, max) + if w.started >= from then 0 else max
    decreases |times|
  {
    if times != [] {
      var now, rest := times[0], times[1..];
      if now >= from + window {
        NoneAfter(w, times, max, window, from, from + window);
      } else {
        var next := Recorded(w, now, window);
        MonotoneSince(rest, now, next.started);
        MonotoneSince(rest, now, from);
        AnsweredSince(next, rest, max, window, from);
      }
    }
  }

  lemma {:induction false} AnsweredBound(w: Window, times: seq<real>, max: nat, window: real, from: real)
    requires window > 0.0 && Monotone(times, w.started)
    ensures Answered(w, times, max, window, from, from + window) <= 2 * max
    decreases |times|
  {
    if times != [] {
      if times[0] >= from {
        AnsweredSince(w, times, max, window, from);
      } else {
        var next := Recorded(w, times[0], window);
        MonotoneSince(times[1..], times[0], next.started);
        AnsweredBound(next, times[1..], max, window, from);
      }
    }
  }

  /** The ceiling: whatever the clock readings, at most twice the budget of failures is answered without
      throttling in any half-open interval of one window's length. */
  lemma Ceiling(times: seq<real>, max: nat, window: real, created: real, from: real)
    requires window > 0.0 && Monotone(times, created)
    ensures Answered(Window(created, 0), times, max, window, from, from + window) <= 2 * max
  {
    AnsweredBound(Window(created, 0), times, max, window, from);
  }

  function Repeated(t: real, n: nat): (times: seq<real>)
    ensures |times| == n && forall k | 0 <= k < n :: times[k] == t
  {
    seq(n, _ => t)
  }

  lemma {:induction false} MonotoneBurst(t: real, n: nat, rest: seq<real>)
    requires Monotone(rest, t)
    ensures Monotone(Repeated(t, n) + rest, t)
  {
    if n > 0 {
      MonotoneBurst(t, n - 1, rest);
      assert (Repeated(t, n) + rest)[1..] == Repeated(t, n - 1) + rest;
    } else {
      assert Repeated(t, 0) + rest == rest;
    }
  }

  /** A burst at one instant inside a window is answered until the budget is gone. */
  lemma {:induction false} BurstAnswered(w: Window, t: real, n: nat, rest: seq<real>, max: nat, window: real,
                                         from: real, to: real)
    requires t - w.started < window && w.failures + n <= max && from <= t < to
    ensures Answered(w, Repeated(t, n) + rest, max, window, from, to)
         == n + Answered(Window(w.started, w.failures + n), rest, max, window, from, to)
    decreases n
  {
    if n > 0 {
      assert (Repeated(t, n) + rest)[1..] == Repeated(t, n - 1) + rest;
      BurstAnswered(Window(w.started, w.failures + 1), t, n - 1, rest, max, window, from, to);
    } else {
      assert Repeated(t, 0) + rest == rest;
    }
  }

  /** The factor two is attained: a full budget just before a window ends and another as it does. */
  lemma CeilingIsAttained(max: nat, window: real, created: real)
    requires window > 0.0 && max > 0
    ensures var late, next := created + window / 2.0, created + window;
            var times := Repeated(late, max) + Repeated(next, max);
            && Monotone(times, created)
            && Answered(Window(created, 0), times, max, window, late, late + window) == 2 * max
  {
    var late, next := created + window / 2.0, created + window;
    var second := Repeated(next, max);
    assert second + [] == second;
    MonotoneBurst(next, max, []);
    MonotoneSince(second, next, late);
    MonotoneBurst(late, max, second);
    MonotoneSince(Repeated(late, max) + second, late, created);
    BurstAnswered(Window(created, 0), late, max, second, max, window, late, late + window);
    assert second[1..] == Repeated(next, max - 1);
    assert Repeated(next, max - 1) + [] == Repeated(next, max - 1);
    BurstAnswered(Window(next, 1), next, max - 1, [], max, window, late, late + window);
  }

  /** Readings each at least a window after the one before, the first after `since`. */
  predicate Spaced(times: seq<real>, since: real, window: real)
    decreases |times|
  {
    times == [] || (since + window <= times[0] && Spaced(times[1..], times[0], window))
  }

  /** Failures a window or more apart never accumulate: every one of them is answered. */
  lemma {:induction false} SpacedNeverThrottled(w: Window, times: seq<real>, max: nat, window: real,
                                                from: real, to: real)
    requires window > 0.0 && max >= 1
    requires times != [] ==> (w.failures < max || w.started + window <= times[0])
                             && w.started <= times[0] && from <= times[0] && Spaced(times[1..], times[0], window)
    requires forall t | t in times :: t < to
    ensures Answered(w, times, max, window, from, to) == |times|
    decreases |times|
  {
    if times != [] {
      var next := Recorded(w, times[0], window);
      assert times[0] in times && forall t | t in times[1..] :: t in times;
      SpacedNeverThrottled(next, times[1..], max, window, from, to);
    }
  }
}
