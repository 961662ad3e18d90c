/**
 Fixed-window rate limiting in one process.

 A call reads the clock up to three times: to see whether the window is still open, to open a
 new one, and to report when it resets. The readings are arguments here; they never decrease.
 */
module RateLimit {
  import opened Common

  datatype Window = Window(count: nat, resetAt: real)

  datatype Decision = Decision(allowed: bool, count: nat, retryAfter: nat)

  /** The clock readings of one call, in the order they are taken. */
  datatype Readings = Readings(check: real, open: real, report: real)

  predicate Ordered(from: real, r: Readings) {
    from <= r.check <= r.open <= r.report
  }

  // ---------------------------------------------------------------------------
  // One key
  // ---------------------------------------------------------------------------

  /** The open window, if any: an entry at or past its reset is dropped. */
  function Live(entry: Option<Window>, now: real): Option<Window> {
    if entry.Some? && entry.value.resetAt <= now then None else entry
  }

  /** Round to the nearest integer, halves to the even one. */
  function Round(x: real): int {
    var down := x.Floor;
    var rest := x - down as real;
    if rest < 0.5 || (rest == 0.5 && down % 2 == 0) then down else down + 1
  }

  /** The nearest integer, and of two equally near ones the even one. */
  lemma RoundsToNearestEven(x: real)
    ensures -0.5 <= Round(x) as real - x <= 0.5
    ensures x - x.Floor as real == 0.5 ==> Round(x) % 2 == 0
  {
  }

  function RetryAfter(resetAt: real, now: real): nat {
    Max(1, Round(resetAt - now))
  }

  lemma RetryAfterIsWholeSecondsLeft(resetAt: real, now: real)
    ensures RetryAfter(resetAt, now) >= 1
    ensures resetAt - now >= 0.5 ==>
      -0.5 <= RetryAfter(resetAt, now) as real - (resetAt - now) <= 0.5
  {
  }

  /** The entry after a hit. */
  function HitEntry(entry: Option<Window>, window: int, r: Readings): Window {
    match Live(entry, r.check)
    case None => Window(1, r.open + window as real)
    case Some(w) => Window(w.count + 1, w.resetAt)
  }

  function HitDecision(entry: Option<Window>, limit: int, window: int, r: Readings): Decision {
    var w := HitEntry(entry, window, r);
    Decision(w.count <= limit, w.count, RetryAfter(w.resetAt, r.report))
  }

  function PeekDecision(entry: Option<Window>, limit: int, r: Readings): Decision {
    match Live(entry, r.check)
    case None => Decision(true, 0, 0)
    case Some(w) => Decision(w.count < limit, w.count, RetryAfter(w.resetAt, r.report))
  }

  /** How many hits the window open at `now` has counted; none when there is no open window. */
  function HitsSoFar(entry: Option<Window>, now: real): nat {
    if entry.Some? && now < entry.value.resetAt then entry.value.count else 0
  }

  /** A hint of at least a second, and within half a second of the reset when that much is left. */
  predicate HintsAt(retryAfter: nat, resetAt: real, now: real) {
    && retryAfter >= 1
    && (resetAt - now >= 0.5 ==> -0.5 <= retryAfter as real - (resetAt - now) <= 0.5)
  }

  /** A hit is allowed exactly while the open window, this hit included, has counted no more than the limit. */
  lemma HitDecides(entry: Option<Window>, limit: int, window: int, r: Readings)
    ensures var d := HitDecision(entry, limit, window, r);
      && d.count == HitsSoFar(entry, r.check) + 1
      && (d.allowed <==> HitsSoFar(entry, r.check) < limit)
      && HintsAt(d.retryAfter,
           if entry.Some? && r.check < entry.value.resetAt then entry.value.resetAt else r.open + window as real,
           r.report)
  {
    var reset := HitEntry(entry, window, r).resetAt;
    RetryAfterIsWholeSecondsLeft(reset, r.report);
  }

  /** A peek at a positive limit is refused exactly when the open window has counted as many as the limit. */
  lemma PeekDecides(entry: Option<Window>, limit: int, r: Readings)
    requires limit > 0
    ensures var d := PeekDecision(entry, limit, r);
      && d.count == HitsSoFar(entry, r.check)
      && (d.allowed <==> HitsSoFar(entry, r.check) < limit)
      && (!d.allowed ==> entry.Some? && HintsAt(d.retryAfter, entry.value.resetAt, r.report))
  {
    if entry.Some? { RetryAfterIsWholeSecondsLeft(entry.value.resetAt, r.report); }
  }

  // ---------------------------------------------------------------------------
  // The limiter
  // ---------------------------------------------------------------------------

  function Lookup(windows: map<string, Window>, key: string): Option<Window> {
    if key in windows then Some(windows[key]) else None
  }

  class MemoryLimiter {
    var windows: map<string, Window>

    constructor ()
      ensures windows == map[]
    {
      windows := map[];
    }

    /** `_current`: the open window, dropping the entry once it has reset. */
    method Current(key: string, now: real) returns (entry: Option<Window>)
      modifies this
      ensures entry == Live(old(Lookup(windows, key)), now)
      ensures windows == if entry.None? then old(windows) - {key} else old(windows)
    {
      entry := Lookup(windows, key);
      if entry.Some? && entry.value.resetAt <= now {
        windows := windows - {key};
        return None;
      }
    }

    method Hit(key: string, limit: int, window: int, r: Readings) returns (d: Decision)
      modifies this
      ensures windows == After(old(windows), Call(key, Kind.Hit, limit, window, r))
      ensures d == HitDecision(old(Lookup(windows, key)), limit, window, r)
    {
      var entry := Current(key, r.check);
      if entry.None? {
        entry := Some(Window(0, r.open + window as real));
      }
      var count, resetAt := entry.value.count + 1, entry.value.resetAt;
      windows := windows[key := Window(count, resetAt)];
      d := Decision(count <= limit, count, RetryAfter(resetAt, r.report));
    }

    method Peek(key: string, limit: int, window: int, r: Readings) returns (d: Decision)
      modifies this
      ensures windows == After(old(windows), Call(key, Kind.Peek, limit, window, r))
      ensures d == PeekDecision(old(Lookup(windows, key)), limit, r)
    {
      var entry := Current(key, r.check);
      if entry.None? {
        return Decision(true, 0, 0);
      }
      d := Decision(entry.value.count < limit, entry.value.count, RetryAfter(entry.value.resetAt, r.report));
    }
  }

  // ---------------------------------------------------------------------------
  // Logs of calls
  // ---------------------------------------------------------------------------

  datatype Kind = Hit | Peek

  datatype Call = Call(key: string, kind: Kind, limit: int, window: int, readings: Readings)

  /** The clock never goes back, within a call or between calls. */
  predicate Monotone(from: real, calls: seq<Call>)
    decreases |calls|
  {
    calls != [] ==>
      Ordered(from, calls[0].readings) && Monotone(calls[0].readings.report, calls[1..])
  }

  /** The limiter's table after one call, as `MemoryLimiter` updates it. */
  function After(windows: map<string, Window>, c: Call): map<string, Window> {
    var entry := Lookup(windows, c.key);
    if c.kind.Hit? then windows[c.key := HitEntry(entry, c.window, c.readings)]
    else if Live(entry, c.readings.check).None? then windows - {c.key}
    else windows
  }

  /** An allowed hit on `key` stamped inside [a, a + window). */
  predicate Counts(windows: map<string, Window>, c: Call, key: string, window: int, a: real) {
    && c.key == key && c.kind.Hit?
    && HitDecision(Lookup(windows, key), c.limit, c.window, c.readings).allowed
    && a <= c.readings.check < a + window as real
  }

  /** How many hits on `key` a log allows inside [a, a + window). */
  function AllowedIn(windows: map<string, Window>, calls: seq<Call>, key: string, window: int, a: real): nat
    decreases |calls|
  {
    if calls == [] then 0
    else (if Counts(windows, calls[0], key, window, a) then 1 else 0)
         + AllowedIn(After(windows, calls[0]), calls[1..], key, window, a)
  }

  /** Every call on `key` uses this limit and window. */
  predicate Fixed(calls: seq<Call>, key: string, limit: int, window: int) {
    forall i :: 0 <= i < |calls| && calls[i].key == key ==>
      calls[i].limit == limit && calls[i].window == window
  }

  // ---------------------------------------------------------------------------
  // The bound
  // ---------------------------------------------------------------------------

  /**
   What is still to come inside [a, a + window), given the open entry and the last reading. A
   window that resets inside the interval was opened before it, so its first hit fell outside.
   */
  function Budget(entry: Option<Window>, limit: nat, window: int, a: real, last: real): nat
    requires limit >= 1
  {
    var end := a + window as real;
    if last >= end then 0
    else if entry.None? || entry.value.resetAt < a then (if last >= a then limit else 2 * limit - 1)
    else
      var left := Max(limit - entry.value.count, 0);
      if entry.value.resetAt >= end then left else left + limit
  }

  predicate Counted(entry: Option<Window>) {
    entry.Some? ==> entry.value.count >= 1
  }

  lemma HitWithinBudget(entry: Option<Window>, limit: nat, window: int, a: real, last: real, r: Readings)
    requires limit >= 1 && window >= 1 && Counted(entry) && Ordered(last, r)
    ensures var hit := HitDecision(entry, limit, window, r).allowed && a <= r.check < a + window as real;
      (if hit then 1 else 0) + Budget(Some(HitEntry(entry, window, r)), limit, window, a, r.report)
      <= Budget(entry, limit, window, a, last)
  {
  }

  lemma PeekWithinBudget(entry: Option<Window>, limit: nat, window: int, a: real, last: real, r: Readings)
    requires limit >= 1 && window >= 1 && Counted(entry) && Ordered(last, r)
    ensures Budget(Live(entry, r.check), limit, window, a, r.report) <= Budget(entry, limit, window, a, last)
  {
  }

  lemma {:induction false} BudgetSuffices(
    windows: map<string, Window>, calls: seq<Call>, key: string, limit: nat, window: int, a: real, last: real)
    requires limit >= 1 && window >= 1 && Counted(Lookup(windows, key))
    requires Monotone(last, calls) && Fixed(calls, key, limit, window)
    ensures AllowedIn(windows, calls, key, window, a) <= Budget(Lookup(windows, key), limit, window, a, last)
    decreases |calls|
  {
    if calls != [] {
      var c := calls[0];
      var entry := Lookup(windows, key);
      if c.key == key {
        if c.kind.Hit? {
          HitWithinBudget(entry, limit, window, a, last, c.readings);
        } else {
          PeekWithinBudget(entry, limit, window, a, last, c.readings);
        }
      }
      BudgetSuffices(After(windows, c), calls[1..], key, limit, window, a, c.readings.report);
    }
  }

  lemma {:induction false} NothingAllowed(
    windows: map<string, Window>, calls: seq<Call>, key: string, limit: int, window: int, a: real)
    requires limit <= 0 || window <= 0
    requires Fixed(calls, key, limit, window)
    ensures AllowedIn(windows, calls, key, window, a) == 0
    decreases |calls|
  {
    if calls != [] {
      NothingAllowed(After(windows, calls[0]), calls[1..], key, limit, window, a);
    }
  }

  /**
   Any half-open interval as long as the window holds at most 2 * limit - 1 allowed hits of a
   key, whatever else the limiter is asked meanwhile.
   */
  lemma AtMostTwiceTheLimit(calls: seq<Call>, key: string, limit: int, window: int, a: real, start: real)
    requires Monotone(start, calls) && Fixed(calls, key, limit, window)
    ensures AllowedIn(map[], calls, key, window, a) <= Max(2 * limit - 1, 0)
  {
    if limit <= 0 || window <= 0 {
      NothingAllowed(map[], calls, key, limit, window, a);
    } else {
      BudgetSuffices(map[], calls, key, limit, window, a, start);
    }
  }

  // ---------------------------------------------------------------------------
  // The bound is reached
  // ---------------------------------------------------------------------------

  function HitAt(key: string, limit: int, window: int, t: real): Call {
    Call(key, Hit, limit, window, Readings(t, t, t))
  }

  function Burst(n: nat, key: string, limit: int, window: int, t: real): seq<Call> {
    if n == 0 then [] else [HitAt(key, limit, window, t)] + Burst(n - 1, key, limit, window, t)
  }

  /** A burst at one instant inside an open window is allowed while the count lasts. */
  lemma {:induction false} BurstAllowed(
    w: Window, n: nat, key: string, limit: nat, window: int, t: real, a: real, rest: seq<Call>)
    requires w.resetAt > t && w.count + n <= limit && a <= t < a + window as real
    ensures AllowedIn(map[key := w], Burst(n, key, limit, window, t) + rest, key, window, a)
      == n + AllowedIn(map[key := Window(w.count + n, w.resetAt)], rest, key, window, a)
    decreases n
  {
    var calls := Burst(n, key, limit, window, t) + rest;
    if n == 0 {
      assert calls == rest;
    } else {
      assert calls[1..] == Burst(n - 1, key, limit, window, t) + rest;
      var w' := Window(w.count + 1, w.resetAt);
      assert After(map[key := w], calls[0]) == map[key := w'];
      BurstAllowed(w', n - 1, key, limit, window, t, a, rest);
    }
  }

  lemma {:induction false} BurstMonotone(n: nat, key: string, limit: int, window: int, t: real, from: real, rest: seq<Call>)
    requires from <= t && Monotone(t, rest)
    ensures Monotone(from, Burst(n, key, limit, window, t) + rest)
    decreases n
  {
    var calls := Burst(n, key, limit, window, t) + rest;
    if n == 0 {
      assert calls == rest;
      assert rest != [] ==> Ordered(from, rest[0].readings);
    } else {
      assert calls[1..] == Burst(n - 1, key, limit, window, t) + rest;
      BurstMonotone(n - 1, key, limit, window, t, t, rest);
    }
  }

  lemma {:induction false} BurstFixed(n: nat, key: string, limit: int, window: int, t: real)
    ensures Fixed(Burst(n, key, limit, window, t), key, limit, window)
    decreases n
  {
    if n != 0 {
      BurstFixed(n - 1, key, limit, window, t);
    }
  }

  /** The second window: opened at `w` by one hit, then filled. */
  function SecondBurst(key: string, limit: nat, window: nat): seq<Call>
    requires limit >= 1
  {
    var w := window as real;
    [HitAt(key, limit, window, w)] + (Burst(limit - 1, key, limit, window, w) + [])
  }

  lemma SecondBurstAllowed(key: string, limit: nat, window: nat, first: Window)
    requires limit >= 1 && window >= 1 && first.resetAt == window as real
    ensures AllowedIn(map[key := first], SecondBurst(key, limit, window), key, window, window as real / 2.0) == limit
  {
    var w := window as real;
    var calls := SecondBurst(key, limit, window);
    assert calls[1..] == Burst(limit - 1, key, limit, window, w) + [];
    assert After(map[key := first], calls[0]) == map[key := Window(1, w + w)];
    BurstAllowed(Window(1, w + w), limit - 1, key, limit, window, w, w / 2.0, []);
  }

  /** One hit at 0, the rest of the limit at half time, a full limit when the window resets. */
  function BoundaryBurst(key: string, limit: nat, window: nat): seq<Call>
    requires limit >= 1
  {
    [HitAt(key, limit, window, 0.0)]
    + (Burst(limit - 1, key, limit, window, window as real / 2.0) + SecondBurst(key, limit, window))
  }

  lemma SecondBurstMonotone(key: string, limit: nat, window: nat, from: real)
    requires limit >= 1 && from <= window as real
    ensures Monotone(from, SecondBurst(key, limit, window))
  {
    var w := window as real;
    assert SecondBurst(key, limit, window)[1..] == Burst(limit - 1, key, limit, window, w) + [];
    BurstMonotone(limit - 1, key, limit, window, w, w, []);
  }

  /** The burst's clock never goes back. */
  lemma BoundaryBurstMonotone(key: string, limit: nat, window: nat)
    requires limit >= 1
    ensures Monotone(0.0, BoundaryBurst(key, limit, window))
  {
    var half := window as real / 2.0;
    var second := SecondBurst(key, limit, window);
    SecondBurstMonotone(key, limit, window, half);
    BurstMonotone(limit - 1, key, limit, window, half, 0.0, second);
    assert BoundaryBurst(key, limit, window)[1..] == Burst(limit - 1, key, limit, window, half) + second;
  }

  lemma FixedConcat(a: seq<Call>, b: seq<Call>, key: string, limit: int, window: int)
    requires Fixed(a, key, limit, window) && Fixed(b, key, limit, window)
    ensures Fixed(a + b, key, limit, window)
  {
  }

  /** The burst uses one limit and window throughout. */
  lemma BoundaryBurstFixed(key: string, limit: nat, window: nat)
    requires limit >= 1
    ensures Fixed(BoundaryBurst(key, limit, window), key, limit, window)
  {
    var w := window as real;
    var first, half, full := [HitAt(key, limit, window, 0.0)], Burst(limit - 1, key, limit, window, w / 2.0), [HitAt(key, limit, window, w)];
    BurstFixed(limit - 1, key, limit, window, w);
    BurstFixed(limit - 1, key, limit, window, w / 2.0);
    FixedConcat(Burst(limit - 1, key, limit, window, w), [], key, limit, window);
    FixedConcat(full, Burst(limit - 1, key, limit, window, w) + [], key, limit, window);
    FixedConcat(half, SecondBurst(key, limit, window), key, limit, window);
    FixedConcat(first, half + SecondBurst(key, limit, window), key, limit, window);
  }

  /** For every limit and window some log allows 2 * limit - 1 hits in one interval. */
  lemma TwiceTheLimitIsReached(key: string, limit: nat, window: nat)
    requires limit >= 1 && window >= 1
    ensures AllowedIn(map[], BoundaryBurst(key, limit, window), key, window, window as real / 2.0)
      == 2 * limit - 1
  {
    var w := window as real;
    var calls := BoundaryBurst(key, limit, window);
    assert calls[1..] == Burst(limit - 1, key, limit, window, w / 2.0) + SecondBurst(key, limit, window);
    assert After(map[], calls[0]) == map[key := Window(1, w)];
    BurstAllowed(Window(1, w), limit - 1, key, limit, window, w / 2.0, w / 2.0, SecondBurst(key, limit, window));
    SecondBurstAllowed(key, limit, window, Window(limit, w));
  }
}
