/** The global window limiter (processor/ratelimit.go). */
module RateLimiter {

  datatype State = State(started: bool, windowStart: int, count: nat, dropped: nat)

  datatype Verdict = Verdict(state: State, muted: bool, report: nat)

  const FRESH := State(false, 0, 0, 0)

  /** One message at time `now`. A window that is not positive never rolls over. */
  function Run(s: State, max: nat, window: int, now: int): Verdict {
    var start := if s.started then s.windowStart else now;
    var rolls := window > 0 && now - start >= window;
    var count := (if rolls then 0 else s.count) + 1;
    var kept := if rolls then 0 else s.dropped;
    Verdict(State(true, if rolls then now else start, count, if count > max then kept + 1 else kept),
            count > max,
            if rolls then s.dropped else 0)
  }

  class Limiter {
    const maxPerWindow: nat
    const window: int
    var started: bool
    var windowStart: int
    var count: nat
    var dropped: nat

    ghost function View(): State
      reads this
    {
      State(started, windowStart, count, dropped)
    }

    constructor (maxPerWindow: nat, window: int)
      ensures this.maxPerWindow == maxPerWindow && this.window == window && View() == FRESH
    {
      this.maxPerWindow := maxPerWindow;
      this.window := window;
      started, windowStart, count, dropped := false, 0, 0, 0;
    }

    /** rateLimiter.run: `report` is what the callback gets when it is positive. */
    method Process(now: int) returns (muted: bool, report: nat)
      modifies this
      ensures Verdict(View(), muted, report) == Run(old(View()), maxPerWindow, window, now)
    {
      if !started {
        windowStart := now;
        started := true;
      }
      report := 0;
      if window > 0 && now - windowStart >= window {
        report := dropped;
        count := 0;
        dropped := 0;
        windowStart := now;
      }
      count := count + 1;
      muted := count > maxPerWindow;
      if muted {
        dropped := dropped + 1;
      }
    }
  }

  // ---------------------------------------------------------------- traces

  predicate Monotone(times: seq<int>) {
    forall i, j :: 0 <= i <= j < |times| ==> times[i] <= times[j]
  }

  function After(max: nat, window: int, times: seq<int>): State {
    if times == [] then FRESH
    else
      var n := |times| - 1;
      Run(After(max, window, times[..n]), max, window, times[n]).state
  }

  function Last(max: nat, window: int, times: seq<int>): Verdict
    requires times != []
  {
    var n := |times| - 1;
    Run(After(max, window, times[..n]), max, window, times[n])
  }

  /** The number of the last message in its window, and when the window began: a window begins
      with the first message, and with one that comes at least the window's length, if that is
      positive, after the previous one began. */
  function Position(window: int, times: seq<int>): (nat, int) {
    if times == [] then (0, 0)
    else
      var n := |times| - 1;
      var (count, start) := Position(window, times[..n]);
      if n == 0 || (window > 0 && times[n] - start >= window) then (1, times[n]) else (count + 1, start)
  }

  lemma {:induction false} StateIsPosition(max: nat, window: int, times: seq<int>)
    ensures var s := After(max, window, times);
            && s.started == (times != []) && Position(window, times) == (s.count, s.windowStart)
            && s.dropped == if s.count > max then s.count - max else 0
  {
    if times != [] {
      StateIsPosition(max, window, times[..|times| - 1]);
    }
  }

  /** A message passes exactly when its number in the window is within the limit. The one that
      begins the next window reports how far the closed one went beyond it. */
  lemma PassesIff(max: nat, window: int, times: seq<int>)
    requires times != []
    ensures var (count, _) := Position(window, times);
            var (closed, _) := Position(window, times[..|times| - 1]);
            && (!Last(max, window, times).muted <==> count <= max)
            && Last(max, window, times).report == if count == 1 && closed > max then closed - max else 0
  {
    StateIsPosition(max, window, times[..|times| - 1]);
  }

  /** Messages that pass at a time t with x <= t < x + window. */
  function PassedIn(max: nat, window: int, times: seq<int>, x: int): nat {
    if times == [] then 0
    else
      var n := |times| - 1;
      PassedIn(max, window, times[..n], x) +
      (if x <= times[n] < x + window && !Last(max, window, times).muted then 1 else 0)
  }

  function Min(a: nat, b: nat): nat {
    if a < b then a else b
  }

  // What is known about every interval while a window that began at `windowStart` is open
  // and its first `count` messages have been seen.
  ghost predicate IntervalInv(max: nat, window: int, times: seq<int>) {
    var s := After(max, window, times);
    var passed := Min(s.count, max);
    && times != [] && s.started && s.count > 0
    && s.windowStart <= times[|times| - 1] < s.windowStart + window
    && (forall x :: times[|times| - 1] < x ==> PassedIn(max, window, times, x) == 0)
    && (forall x :: PassedIn(max, window, times, x) <= SlidingMax(max, window))
    && (forall x :: s.windowStart <= x ==> PassedIn(max, window, times, x) <= passed)
    && (forall x :: s.windowStart < x ==> PassedIn(max, window, times, x) <= (if max > 0 then passed - 1 else 0))
    && (forall x :: s.windowStart - window < x < s.windowStart ==>
          PassedIn(max, window, times, x) <= passed + (if max > 0 then max - 1 else 0))
  }

  /** The most messages that can pass in an interval as long as the window: nearly two
      windows' worth, one less because the first message of a window opens it. An interval
      of one tick is an instant, and never straddles two windows. */
  function SlidingMax(max: nat, window: int): nat {
    if max == 0 || window <= 1 then max else 2 * max - 1
  }

  lemma IntervalsBeforeAnything(max: nat, window: int)
    ensures forall x :: PassedIn(max, window, [], x) == 0
  {
  }

  lemma {:induction false} IntervalsBounded(max: nat, window: int, times: seq<int>)
    requires window > 0 && Monotone(times) && times != []
    ensures IntervalInv(max, window, times)
  {
    var n := |times| - 1;
    var before := times[..n];
    if before == [] {
      IntervalsBeforeAnything(max, window);
    } else {
      IntervalsBounded(max, window, before);
    }
    IntervalStep(max, window, times);
  }

  lemma IntervalStep(max: nat, window: int, times: seq<int>)
    requires window > 0 && Monotone(times) && times != []
    requires |times| == 1 || IntervalInv(max, window, times[..|times| - 1])
    ensures IntervalInv(max, window, times)
  {
    var n := |times| - 1;
    var before := times[..n];
    var s, s' := After(max, window, before), After(max, window, times);
    var passes := !Last(max, window, times).muted;
    assert forall x :: PassedIn(max, window, times, x)
                    == PassedIn(max, window, before, x) + (if x <= times[n] < x + window && passes then 1 else 0);
    if n > 0 {
      assert before[n - 1] <= times[n];
    }
  }

  /** No interval of the window's length ever sees more than SlidingMax messages pass. */
  lemma SlidingBound(max: nat, window: int, times: seq<int>, x: int)
    requires window > 0 && Monotone(times)
    ensures PassedIn(max, window, times, x) <= SlidingMax(max, window)
  {
    if times != [] {
      IntervalsBounded(max, window, times);
    }
  }

  // ---------------------------------------------------------------- the bound is attained

  function Repeat(t: int, k: nat): (r: seq<int>)
    ensures |r| == k && forall i :: 0 <= i < k ==> r[i] == t
  {
    seq(k, _ => t)
  }

  lemma OneMore(max: nat, window: int, times: seq<int>, t: int, x: int)
    ensures var v := Run(After(max, window, times), max, window, t);
            && After(max, window, times + [t]) == v.state
            && PassedIn(max, window, times + [t], x) ==
                 PassedIn(max, window, times, x) + (if x <= t < x + window && !v.muted then 1 else 0)
  {
    assert (times + [t])[..|times|] == times;
  }

  // The window opened at `start` is open at t, and has seen `count` messages.
  predicate Open(s: State, window: int, start: int, count: nat, t: int) {
    s.started && s.windowStart == start && s.count == count && start <= t < start + window
  }

  lemma OneMoreOpen(max: nat, window: int, times: seq<int>, start: int, count: nat, t: int, x: int)
    requires Open(After(max, window, times), window, start, count, t) && x <= t < x + window
    ensures Open(After(max, window, times + [t]), window, start, count + 1, t)
    ensures PassedIn(max, window, times + [t], x) == PassedIn(max, window, times, x) + (if count < max then 1 else 0)
  {
    OneMore(max, window, times, t, x);
  }

  // A burst inside an open window is let through until the window's count reaches max.
  lemma {:induction false} Burst(max: nat, window: int, times: seq<int>, start: int, count: nat, t: int, k: nat, x: int)
    requires Open(After(max, window, times), window, start, count, t) && x <= t < x + window && count + k <= max
    ensures Open(After(max, window, times + Repeat(t, k)), window, start, count + k, t)
    ensures PassedIn(max, window, times + Repeat(t, k), x) == PassedIn(max, window, times, x) + k
  {
    if k == 0 {
      assert times + Repeat(t, 0) == times;
    } else {
      Burst(max, window, times, start, count, t, k - 1, x);
      assert times + Repeat(t, k) == times + Repeat(t, k - 1) + [t];
      OneMoreOpen(max, window, times + Repeat(t, k - 1), start, count + k - 1, t, x);
    }
  }

  // The first message of a fresh limiter, and the first past an open window's end.
  lemma FirstMessage(max: nat, window: int, t: int, x: int)
    requires max > 0 && window > 0 && t == 0
    ensures Open(After(max, window, [t]), window, t, 1, t)
    ensures PassedIn(max, window, [t], x) == if x <= t < x + window then 1 else 0
  {
    var none: seq<int> := [];
    OneMore(max, window, none, t, x);
    assert none + [t] == [t];
  }

  lemma Rollover(max: nat, window: int, times: seq<int>, t: int, x: int)
    requires max > 0 && window > 0 && x <= t < x + window
    requires var s := After(max, window, times); s.started && t == s.windowStart + window
    ensures Open(After(max, window, times + [t]), window, t, 1, t)
    ensures PassedIn(max, window, times + [t], x) == PassedIn(max, window, times, x) + 1
  {
    OneMore(max, window, times, t, x);
  }

  // A message opens a window at 0; the rest of its quota comes in the window's last tick,
  // and a whole quota in the first tick of the next one.
  function Straddle(max: nat, window: int): seq<int>
    requires max > 0
  {
    [0] + Repeat(window - 1, max - 1) + [window] + Repeat(window, max - 1)
  }

  lemma StraddleMonotone(max: nat, window: int)
    requires max > 0 && window >= 1
    ensures Monotone(Straddle(max, window))
  {
  }

  lemma StraddlePasses(max: nat, window: int)
    requires max > 0 && window >= 2
    ensures PassedIn(max, window, Straddle(max, window), 1) == 2 * max - 1
  {
    var t1 := [0] + Repeat(window - 1, max - 1);
    FirstMessage(max, window, 0, 1);
    Burst(max, window, [0], 0, 1, window - 1, max - 1, 1);
    Rollover(max, window, t1, window, 1);
    Burst(max, window, t1 + [window], window, 1, window, max - 1, 1);
  }

  lemma InstantPasses(max: nat, window: int)
    requires max > 0 && window == 1
    ensures PassedIn(max, window, [0] + Repeat(0, max - 1), 0) == max
  {
    FirstMessage(max, window, 0, 0);
    Burst(max, window, [0], 0, 1, 0, max - 1, 0);
  }

  /** SlidingMax is the least bound: for every limit and window some trace attains it. */
  lemma SlidingBoundAttained(max: nat, window: int)
    requires window > 0
    ensures exists times, x :: Monotone(times) && PassedIn(max, window, times, x) == SlidingMax(max, window)
  {
    if max == 0 {
      assert Monotone([]) && PassedIn(max, window, [], 0) == 0;
    } else if window == 1 {
      InstantPasses(max, window);
      assert Monotone([0] + Repeat(0, max - 1));
    } else {
      StraddlePasses(max, window);
      StraddleMonotone(max, window);
    }
  }

  // ---------------------------------------------------------------- accounting

  function Passes(max: nat, window: int, times: seq<int>): nat {
    if times == [] then 0
    else Passes(max, window, times[..|times| - 1]) + (if Last(max, window, times).muted then 0 else 1)
  }

  function Reported(max: nat, window: int, times: seq<int>): nat {
    if times == [] then 0
    else Reported(max, window, times[..|times| - 1]) + Last(max, window, times).report
  }

  /** Every message passes, or is reported at a rollover, or is still in the dropped
      counter, whatever the clock does. */
  lemma {:induction false} DropsAccounted(max: nat, window: int, times: seq<int>)
    ensures |times| == Passes(max, window, times) + Reported(max, window, times) + After(max, window, times).dropped
  {
    if times != [] {
      DropsAccounted(max, window, times[..|times| - 1]);
    }
  }

  /** An infinite window lets the first `max` messages through, ever, and reports nothing. */
  lemma {:induction false} InfiniteWindow(max: nat, window: int, times: seq<int>)
    requires window <= 0
    ensures Passes(max, window, times) == Min(|times|, max) && Reported(max, window, times) == 0
    ensures After(max, window, times).count == |times|
  {
    if times != [] {
      InfiniteWindow(max, window, times[..|times| - 1]);
    }
  }
}
