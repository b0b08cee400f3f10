/** The adapter's fixed-window limiter for tool calls. */
module McpLimiter {

  type Time = nat                            // nanoseconds of a monotonic clock

  const WINDOW: nat := 60_000_000_000

  datatype Window = Window(started: Time, calls: nat)

  /** One consultation: the elapsed time is measured at `now`; a new window starts at
      a second reading of the clock, `later`. Steps that do not ask leave the limiter
      alone. */
  datatype Call = Call(asks: bool, now: Time, later: Time)

  predicate Expired(w: Window, call: Call) {
    call.now >= w.started + WINDOW
  }

  function Current(w: Window, call: Call): Window {
    if Expired(w, call) then Window(call.later, 0) else w
  }

  predicate Granted(w: Window, call: Call, limit: nat) {
    call.asks && Current(w, call).calls < limit
  }

  function After(w: Window, call: Call, limit: nat): Window {
    if !call.asks then w
    else if Granted(w, call, limit) then Window(Current(w, call).started, Current(w, call).calls + 1)
    else Current(w, call)
  }

  class RateLimiter {
    var windowStarted: Time
    var calls: nat
    const limit: nat

    ghost function State(): Window
      reads this
    {
      Window(windowStarted, calls)
    }

    constructor (limit: nat, now: Time)
      ensures State() == Window(now, 0) && this.limit == limit
    {
      windowStarted, calls := now, 0;
      this.limit := limit;
    }

    method Allow(now: Time, later: Time) returns (granted: bool)
      modifies this
      ensures granted <==> if now - old(windowStarted) >= 60_000_000_000 then limit > 0 else old(calls) < limit
      ensures windowStarted == if now - old(windowStarted) >= 60_000_000_000 then later else old(windowStarted)
      ensures calls == (if now - old(windowStarted) >= 60_000_000_000 then 0 else old(calls)) + if granted then 1 else 0
      ensures granted == Granted(old(State()), Call(true, now, later), limit)
      ensures State() == After(old(State()), Call(true, now, later), limit)
    {
      if now - windowStarted >= WINDOW {
        windowStarted := later;
        calls := 0;
      }
      if calls >= limit {
        return false;
      }
      calls := calls + 1;
      return true;
    }
  }

  /* Runs. */

  /** The clock never goes back, within a call or between calls. */
  predicate Monotonic(start: Time, calls: seq<Call>) {
    && (forall i :: 0 <= i < |calls| ==> start <= calls[i].now <= calls[i].later)
    && (forall i, j :: 0 <= i < j < |calls| ==> calls[i].later <= calls[j].now)
  }

  function WindowAt(start: Time, calls: seq<Call>, limit: nat, n: nat): Window
    requires n <= |calls|
  {
    if n == 0 then Window(start, 0) else After(WindowAt(start, calls, limit, n - 1), calls[n - 1], limit)
  }

  predicate GrantedAt(start: Time, calls: seq<Call>, limit: nat, n: nat)
    requires n < |calls|
  {
    Granted(WindowAt(start, calls, limit, n), calls[n], limit)
  }

  predicate GrantedDuring(start: Time, calls: seq<Call>, limit: nat, from: Time, n: nat)
    requires n < |calls|
  {
    GrantedAt(start, calls, limit, n) && from <= calls[n].now < from + 60_000_000_000
  }

  /** How many of the first `n` calls were granted at a time in `[from, from + WINDOW)`. */
  function GrantsWithin(start: Time, calls: seq<Call>, limit: nat, from: Time, n: nat): nat
    requires n <= |calls|
  {
    if n == 0 then 0
    else
      GrantsWithin(start, calls, limit, from, n - 1) +
      if GrantedDuring(start, calls, limit, from, n - 1) then 1 else 0
  }

  /** What a prefix of a run can have granted within the span that begins at `from`:
      nothing if the window ended before; at most the window's own calls if it began by
      then; one more full window otherwise; and nothing is added once the span is over. */
  predicate Bounded(w: Window, limit: nat, from: Time, granted: nat, over: bool) {
    && w.calls <= limit
    && granted <= 2 * limit
    && (w.started + WINDOW <= from ==> granted == 0)
    && (w.started <= from ==> granted <= w.calls)
    && (!over ==> granted <= limit + w.calls)
  }

  lemma {:induction false} GrantsStayBounded(start: Time, calls: seq<Call>, limit: nat, from: Time, n: nat)
    requires n <= |calls| && Monotonic(start, calls)
    ensures Bounded(WindowAt(start, calls, limit, n), limit, from, GrantsWithin(start, calls, limit, from, n),
                    n > 0 && calls[n - 1].later >= from + WINDOW)
    ensures WindowAt(start, calls, limit, n).started <= if n == 0 then start else calls[n - 1].later
  {
    if n > 0 {
      GrantsStayBounded(start, calls, limit, from, n - 1);
    }
  }

  /** Every half-open span of 60 seconds holds at most twice the limit. */
  lemma FixedWindowBound(start: Time, calls: seq<Call>, limit: nat, from: Time)
    requires Monotonic(start, calls)
    ensures GrantsWithin(start, calls, limit, from, |calls|) <= 2 * limit
  {
    GrantsStayBounded(start, calls, limit, from, |calls|);
  }

  /* The bound is met: a burst at the end of one window and another at the start of the next. */

  function TwoBursts(limit: nat): seq<Call> {
    seq(2 * limit, i => if i < limit then Call(true, WINDOW - 1, WINDOW - 1) else Call(true, WINDOW, WINDOW))
  }

  lemma {:induction false} BurstsAreGranted(limit: nat, n: nat)
    requires n <= 2 * limit
    ensures GrantsWithin(0, TwoBursts(limit), limit, WINDOW - 1, n) == n
    ensures WindowAt(0, TwoBursts(limit), limit, n) == if n <= limit then Window(0, n) else Window(WINDOW, n - limit)
  {
    if n > 0 {
      BurstsAreGranted(limit, n - 1);
    }
  }

  lemma BoundIsMet(limit: nat)
    ensures Monotonic(0, TwoBursts(limit))
    ensures GrantsWithin(0, TwoBursts(limit), limit, WINDOW - 1, 2 * limit) == 2 * limit
  {
    BurstsAreGranted(limit, 2 * limit);
  }

  /* Nobody is refused after a quiet minute. */

  /** A window with calls in it has seen a granted one since it began. */
  lemma {:induction false} CallsWereGranted(start: Time, calls: seq<Call>, limit: nat, n: nat) returns (j: nat)
    requires Monotonic(start, calls) && n <= |calls| && WindowAt(start, calls, limit, n).calls > 0
    ensures j < n && GrantedAt(start, calls, limit, j) && calls[j].later >= WindowAt(start, calls, limit, n).started
  {
    var before := WindowAt(start, calls, limit, n - 1);
    if GrantedAt(start, calls, limit, n - 1) {
      j := n - 1;
      WindowIsPast(start, calls, limit, n - 1);
    } else {
      j := CallsWereGranted(start, calls, limit, n - 1);
    }
  }

  lemma {:induction false} WindowIsPast(start: Time, calls: seq<Call>, limit: nat, n: nat)
    requires Monotonic(start, calls) && n < |calls|
    ensures WindowAt(start, calls, limit, n).started <= calls[n].now
  {
    if n > 0 {
      WindowIsPast(start, calls, limit, n - 1);
    }
  }

  /** With a limit above zero, a call is granted if no earlier one was granted in the 60
      seconds before it. */
  lemma QuietMinuteGrants(start: Time, calls: seq<Call>, limit: nat, n: nat)
    requires Monotonic(start, calls) && n < |calls| && calls[n].asks && limit > 0
    requires forall j :: 0 <= j < n && GrantedAt(start, calls, limit, j) ==> calls[j].later + 60_000_000_000 <= calls[n].now
    ensures GrantedAt(start, calls, limit, n)
  {
    if WindowAt(start, calls, limit, n).calls > 0 {
      var j := CallsWereGranted(start, calls, limit, n);
    }
  }
}
