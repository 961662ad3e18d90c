/**
 The two per-address buckets in front of the enrollment endpoint, under concurrent requests.

 A request first peeks at the failure bucket, then hits the request bucket, then runs the
 handler, and on a 401 or 422 hits the failure bucket. Each limiter call is atomic; between them
 any number of other requests from the same address may run. Keys are independent, so one
 address and its two buckets are enough.
 */
module EnrollLimits {
  import opened Common
  import opened RateLimit

  datatype Settings = Settings(
    failureLimit: int, failureWindow: int, requestLimit: int, requestWindow: int)

  datatype Bucket = Failures | Requests

  /** One `enroll.rate_limited` line; `window` numbers the bucket's windows in order. */
  datatype Line = Line(bucket: Bucket, window: nat)

  datatype Stage =
    | Arrived
    | Cleared
    | InHandler
    | Responding(status: nat)
    | Answered(status: nat)

  /** A bucket's entry and how many windows it has opened so far. */
  datatype Counter = Counter(entry: Option<Window>, windows: nat)

  datatype State = State(
    settings: Settings,
    now: real,
    failures: Counter,
    requests: Counter,
    stages: map<nat, Stage>,
    handled: set<nat>,
    lines: seq<Line>)

  datatype Action =
    | Arrive(q: nat)
    | PeekFailures(q: nat, r: Readings)
    | HitRequests(q: nat, r: Readings)
    | Handle(q: nat, status: nat)
    | HitFailures(q: nat, r: Readings)
    | Wait(to: real)

  const TOO_MANY_REQUESTS: nat := 429
  const FAILURE_STATUSES: set<nat> := {401, 422}

  predicate Init(s: State) {
    && s.failures == Counter(None, 0) && s.requests == Counter(None, 0)
    && s.stages == map[] && s.handled == {} && s.lines == []
  }

  predicate At(s: State, q: nat, stage: Stage) {
    q in s.stages && s.stages[q] == stage
  }

  predicate Enabled(s: State, a: Action) {
    match a
    case Arrive(q) => q !in s.stages
    case PeekFailures(q, r) => At(s, q, Arrived) && Ordered(s.now, r)
    case HitRequests(q, r) => At(s, q, Cleared) && Ordered(s.now, r)
    case Handle(q, _) => At(s, q, InHandler)
    case HitFailures(q, r) => q in s.stages && s.stages[q].Responding? && Ordered(s.now, r)
    case Wait(to) => s.now <= to
  }

  function AfterHit(c: Counter, window: int, r: Readings): Counter {
    Counter(Some(HitEntry(c.entry, window, r)),
            if Live(c.entry, r.check).None? then c.windows + 1 else c.windows)
  }

  function Goes(s: State, q: nat, stage: Stage): State {
    s.(stages := s.stages[q := stage])
  }

  function Next(s: State, a: Action): State
    requires Enabled(s, a)
  {
    var conf := s.settings;
    match a
    case Arrive(q) => Goes(s, q, Arrived)
    case PeekFailures(q, r) =>
      if conf.failureLimit <= 0 then Goes(s, q, Cleared)
      else
        var d := PeekDecision(s.failures.entry, conf.failureLimit, r);
        Goes(s, q, if d.allowed then Cleared else Answered(TOO_MANY_REQUESTS))
          .(now := r.report, failures := s.failures.(entry := Live(s.failures.entry, r.check)))
    case HitRequests(q, r) =>
      if conf.requestLimit <= 0 then Goes(s, q, InHandler).(handled := s.handled + {q})
      else
        var requests := AfterHit(s.requests, conf.requestWindow, r);
        var d := HitDecision(s.requests.entry, conf.requestLimit, conf.requestWindow, r);
        var s' := s.(now := r.report, requests := requests);
        if d.allowed then Goes(s', q, InHandler).(handled := s.handled + {q})
        else
          Goes(s', q, Answered(TOO_MANY_REQUESTS))
            .(lines := if d.count == conf.requestLimit + 1
                       then s.lines + [Line(Requests, requests.windows)] else s.lines)
    case Handle(q, status) => Goes(s, q, Responding(status))
    case HitFailures(q, r) =>
      var status := s.stages[q].status;
      if status !in FAILURE_STATUSES || conf.failureLimit <= 0 then Goes(s, q, Answered(status))
      else
        var failures := AfterHit(s.failures, conf.failureWindow, r);
        var d := HitDecision(s.failures.entry, conf.failureLimit, conf.failureWindow, r);
        Goes(s, q, Answered(status))
          .(now := r.report, failures := failures,
            lines := if d.count == conf.failureLimit
                     then s.lines + [Line(Failures, failures.windows)] else s.lines)
    case Wait(to) => s.(now := to)
  }

  predicate ValidRun(s: State, run: seq<Action>)
    decreases |run|
  {
    run == [] || (Enabled(s, run[0]) && ValidRun(Next(s, run[0]), run[1..]))
  }

  function Final(s: State, run: seq<Action>): State
    requires ValidRun(s, run)
    decreases |run|
  {
    if run == [] then s else Final(Next(s, run[0]), run[1..])
  }

  // ---------------------------------------------------------------------------
  // The lockout
  // ---------------------------------------------------------------------------

  /** The failure bucket has reached its limit and its window resets at `resetAt`. */
  predicate LockedOut(s: State, resetAt: real) {
    && s.settings.failureLimit > 0
    && s.failures.entry.Some?
    && s.failures.entry.value.count >= s.settings.failureLimit
    && s.failures.entry.value.resetAt == resetAt
  }

  lemma LockoutStep(s: State, a: Action, resetAt: real)
    requires LockedOut(s, resetAt) && Enabled(s, a) && Next(s, a).now < resetAt
    ensures LockedOut(Next(s, a), resetAt)
  {
  }

  lemma TimeStep(s: State, a: Action)
    requires Enabled(s, a)
    ensures s.now <= Next(s, a).now
  {
  }

  lemma {:induction false} TimeRun(s: State, run: seq<Action>)
    requires ValidRun(s, run)
    ensures s.now <= Final(s, run).now
    decreases |run|
  {
    if run != [] {
      TimeStep(s, run[0]);
      TimeRun(Next(s, run[0]), run[1..]);
    }
  }

  /** Nothing that happens before the window resets lifts a lockout or moves its end. */
  lemma {:induction false} LockoutLasts(s: State, run: seq<Action>, resetAt: real)
    requires LockedOut(s, resetAt) && ValidRun(s, run) && Final(s, run).now < resetAt
    ensures LockedOut(Final(s, run), resetAt)
    decreases |run|
  {
    if run != [] {
      TimeRun(Next(s, run[0]), run[1..]);
      LockoutStep(s, run[0], resetAt);
      LockoutLasts(Next(s, run[0]), run[1..], resetAt);
    }
  }

  /** An answered request stays answered and is not handled any more. */
  lemma {:induction false} AnsweredForGood(s: State, run: seq<Action>, q: nat, status: nat)
    requires ValidRun(s, run) && At(s, q, Answered(status)) && q !in s.handled
    ensures At(Final(s, run), q, Answered(status)) && q !in Final(s, run).handled
    decreases |run|
  {
    if run != [] {
      AnsweredForGood(Next(s, run[0]), run[1..], q, status);
    }
  }

  /** Only requests past both buckets have been handled. */
  predicate HandledInv(s: State) {
    forall q :: q in s.handled ==> q in s.stages && !s.stages[q].Arrived? && !s.stages[q].Cleared?
  }

  lemma {:induction false} HandledRun(s: State, run: seq<Action>)
    requires HandledInv(s) && ValidRun(s, run)
    ensures HandledInv(Final(s, run))
    decreases |run|
  {
    if run != [] {
      HandledRun(Next(s, run[0]), run[1..]);
    }
  }

  /**
   Once the failure limit is reached, whatever other requests do, a request that peeks before
   the window resets is answered 429, changes neither counter, and never reaches the handler.
   */
  lemma LockedOutRequestIsBlocked(
    s: State, run: seq<Action>, q: nat, r: Readings, resetAt: real, later: seq<Action>)
    requires HandledInv(s) && LockedOut(s, resetAt) && ValidRun(s, run)
    requires Enabled(Final(s, run), PeekFailures(q, r)) && r.check < resetAt
    requires ValidRun(Next(Final(s, run), PeekFailures(q, r)), later)
    ensures var m := Final(s, run); var m' := Next(m, PeekFailures(q, r));
      && At(m', q, Answered(TOO_MANY_REQUESTS))
      && m'.failures == m.failures && m'.requests == m.requests && m'.lines == m.lines
      && q !in Final(m', later).handled
  {
    LockoutLasts(s, run, resetAt);
    HandledRun(s, run);
    AnsweredForGood(Next(Final(s, run), PeekFailures(q, r)), later, q, TOO_MANY_REQUESTS);
  }

  // ---------------------------------------------------------------------------
  // What a peek decides, and when a lockout arises
  // ---------------------------------------------------------------------------

  /** A request that peeks goes on exactly while fewer failures than the limit are counted in the open window. */
  lemma PeekClearsExactly(s: State, q: nat, r: Readings)
    requires Enabled(s, PeekFailures(q, r)) && s.settings.failureLimit > 0
    ensures var s' := Next(s, PeekFailures(q, r));
      if HitsSoFar(s.failures.entry, r.check) < s.settings.failureLimit then At(s', q, Cleared)
      else At(s', q, Answered(429))
    ensures Next(s, PeekFailures(q, r)).now == r.report
  {
    PeekDecides(s.failures.entry, s.settings.failureLimit, r);
  }

  /** A response of 401 or 422 is being recorded. */
  predicate RecordsFailure(s: State, a: Action) {
    a.HitFailures? && (At(s, a.q, Responding(401)) || At(s, a.q, Responding(422)))
  }

  function Failed(s: State, run: seq<Action>): nat
    requires ValidRun(s, run)
    decreases |run|
  {
    if run == [] then 0 else (if RecordsFailure(s, run[0]) then 1 else 0) + Failed(Next(s, run[0]), run[1..])
  }

  lemma FailureStep(s: State, a: Action, w: Window)
    requires Enabled(s, a) && s.settings.failureLimit > 0 && s.failures.entry == Some(w) && Next(s, a).now < w.resetAt
    ensures Next(s, a).settings == s.settings
    ensures Next(s, a).failures.entry ==
      Some(if RecordsFailure(s, a) then Window(w.count + 1, w.resetAt) else w)
  {
  }

  /** While a failure window is open it counts every response of 401 or 422, and nothing else. */
  lemma {:induction false} FailuresAreCounted(s: State, run: seq<Action>, w: Window)
    requires ValidRun(s, run) && s.settings.failureLimit > 0
    requires s.failures.entry == Some(w) && Final(s, run).now < w.resetAt
    ensures Final(s, run).settings == s.settings
    ensures Final(s, run).failures.entry == Some(Window(w.count + Failed(s, run), w.resetAt))
    decreases |run|
  {
    if run != [] {
      var s' := Next(s, run[0]);
      TimeRun(s', run[1..]);
      FailureStep(s, run[0], w);
      FailuresAreCounted(s', run[1..], s'.failures.entry.value);
    }
  }

  /**
   Lockouts arise: the first failure with no window open starts one, and from then to its end the
   address is locked out exactly when the limit has been reached, that first failure included.
   */
  lemma LockedOutExactly(s: State, q: nat, r: Readings, run: seq<Action>)
    requires Enabled(s, HitFailures(q, r)) && RecordsFailure(s, HitFailures(q, r)) && s.settings.failureLimit > 0
    requires s.failures.entry.Some? ==> s.failures.entry.value.resetAt <= r.check
    requires ValidRun(Next(s, HitFailures(q, r)), run)
    ensures var first := Next(s, HitFailures(q, r));
      var resetAt := r.open + s.settings.failureWindow as real;
      && first.now == r.report
      && (Final(first, run).now < resetAt ==>
        (LockedOut(Final(first, run), resetAt) <==> 1 + Failed(first, run) >= s.settings.failureLimit))
  {
    var first := Next(s, HitFailures(q, r));
    var resetAt := r.open + s.settings.failureWindow as real;
    assert first.failures.entry == Some(Window(1, resetAt)) && first.settings == s.settings;
    if Final(first, run).now < resetAt {
      FailuresAreCounted(first, run, Window(1, resetAt));
    }
  }

  // ---------------------------------------------------------------------------
  // The request limit
  // ---------------------------------------------------------------------------

  /** A request is handed on exactly while the open window has counted fewer requests than the limit. */
  lemma RequestLimitDecides(s: State, q: nat, r: Readings)
    requires Enabled(s, HitRequests(q, r)) && s.settings.requestLimit > 0 && q !in s.handled
    ensures var s' := Next(s, HitRequests(q, r));
      if HitsSoFar(s.requests.entry, r.check) < s.settings.requestLimit
      then At(s', q, InHandler) && s'.handled == s.handled + {q}
      else At(s', q, Answered(429)) && s'.handled == s.handled
    ensures Next(s, HitRequests(q, r)).now == r.report
  {
    HitDecides(s.requests.entry, s.settings.requestLimit, s.settings.requestWindow, r);
  }

  /** A request past the limit is answered 429 and reaches the handler in no later run. */
  lemma OverLimitIsRefused(s: State, q: nat, r: Readings, later: seq<Action>)
    requires HandledInv(s) && Enabled(s, HitRequests(q, r)) && s.settings.requestLimit > 0
    requires HitsSoFar(s.requests.entry, r.check) >= s.settings.requestLimit
    requires ValidRun(Next(s, HitRequests(q, r)), later)
    ensures var f := Final(Next(s, HitRequests(q, r)), later);
      At(f, q, Answered(429)) && q !in f.handled
  {
    RequestLimitDecides(s, q, r);
    AnsweredForGood(Next(s, HitRequests(q, r)), later, q, 429);
  }

  /** The step hands a request to the handler, in request window `w`. */
  predicate Enters(s: State, a: Action, w: nat)
    requires Enabled(s, a)
  {
    Next(s, a).handled != s.handled && Next(s, a).requests.windows == w
  }

  function Entered(s: State, run: seq<Action>, w: nat): nat
    requires ValidRun(s, run)
    decreases |run|
  {
    if run == [] then 0 else (if Enters(s, run[0], w) then 1 else 0) + Entered(Next(s, run[0]), run[1..], w)
  }

  /** How many more requests window `w` can hand on. */
  function Room(s: State, w: nat): nat {
    var limit := s.settings.requestLimit;
    if limit <= 0 || w < s.requests.windows then 0
    else if w > s.requests.windows || s.requests.entry.None? then limit
    else Max(0, limit - s.requests.entry.value.count)
  }

  lemma RoomStep(s: State, a: Action, w: nat)
    requires Enabled(s, a) && s.settings.requestLimit > 0
    ensures Next(s, a).settings == s.settings
    ensures (if Enters(s, a, w) then 1 else 0) + Room(Next(s, a), w) <= Room(s, w)
  {
  }

  lemma {:induction false} EnteredFitsTheRoom(s: State, run: seq<Action>, w: nat)
    requires ValidRun(s, run) && s.settings.requestLimit > 0
    ensures Entered(s, run, w) <= Room(s, w)
    decreases |run|
  {
    if run != [] {
      RoomStep(s, run[0], w);
      EnteredFitsTheRoom(Next(s, run[0]), run[1..], w);
    }
  }

  /** However requests interleave, no window hands more than the limit to the handler. */
  lemma AtMostLimitPerWindow(s: State, run: seq<Action>, w: nat)
    requires Init(s) && ValidRun(s, run) && s.settings.requestLimit > 0
    ensures Entered(s, run, w) <= s.settings.requestLimit
  {
    EnteredFitsTheRoom(s, run, w);
  }

  /** Window numbers are windows in time: a hit opens the next one exactly when none is open. */
  lemma WindowsFollowTheClock(s: State, q: nat, r: Readings)
    requires Enabled(s, HitRequests(q, r)) && s.settings.requestLimit > 0
    ensures var c, c' := s.requests, Next(s, HitRequests(q, r)).requests;
      if c.entry.Some? && r.check < c.entry.value.resetAt
      then c' == Counter(Some(Window(c.entry.value.count + 1, c.entry.value.resetAt)), c.windows)
      else c' == Counter(Some(Window(1, r.open + s.settings.requestWindow as real)), c.windows + 1)
  {
  }

  // ---------------------------------------------------------------------------
  // Answers
  // ---------------------------------------------------------------------------

  /** The run has a peek of `q`, and after it a hit of `q` on the request bucket. */
  ghost predicate PassedBoth(run: seq<Action>, q: nat) {
    exists i, j :: 0 <= i < j < |run| && run[i].PeekFailures? && run[i].q == q && run[j].HitRequests? && run[j].q == q
  }

  ghost predicate HitInRun(run: seq<Action>, q: nat) {
    exists j :: 0 <= j < |run| && run[j].HitRequests? && run[j].q == q
  }

  lemma {:induction false} HandledWasHit(s: State, run: seq<Action>, q: nat)
    requires ValidRun(s, run) && q !in s.handled && q in Final(s, run).handled
    ensures HitInRun(run, q)
    decreases |run|
  {
    if run[0].HitRequests? && run[0].q == q {
    } else {
      HandledWasHit(Next(s, run[0]), run[1..], q);
      var j :| 0 <= j < |run[1..]| && run[1..][j].HitRequests? && run[1..][j].q == q;
      assert run[j + 1] == run[1..][j];
    }
  }

  /** Nobody reaches the handler without having passed the failure bucket and then the request bucket. */
  lemma {:induction false} HandledPassedBoth(s: State, run: seq<Action>, q: nat)
    requires ValidRun(s, run) && q !in s.handled && q in Final(s, run).handled
    requires q in s.stages ==> s.stages[q] == Arrived
    ensures PassedBoth(run, q)
    decreases |run|
  {
    var s' := Next(s, run[0]);
    if run[0].PeekFailures? && run[0].q == q {
      HandledWasHit(s', run[1..], q);
      var j :| 0 <= j < |run[1..]| && run[1..][j].HitRequests? && run[1..][j].q == q;
      assert run[j + 1] == run[1..][j];
    } else {
      HandledPassedBoth(s', run[1..], q);
      var i, j :| 0 <= i < j < |run[1..]| && run[1..][i].PeekFailures? && run[1..][i].q == q
        && run[1..][j].HitRequests? && run[1..][j].q == q;
      assert run[i + 1] == run[1..][i] && run[j + 1] == run[1..][j];
    }
  }

  ghost predicate Recorded(run: seq<Action>, q: nat) {
    exists i :: 0 <= i < |run| && run[i].HitFailures? && run[i].q == q
  }

  lemma RecordedLater(run: seq<Action>, q: nat)
    requires run != [] && !(run[0].HitFailures? && run[0].q == q)
    ensures Recorded(run, q) <==> Recorded(run[1..], q)
  {
    if Recorded(run, q) {
      var i :| 0 <= i < |run| && run[i].HitFailures? && run[i].q == q;
      assert run[1..][i - 1] == run[i];
    }
    if Recorded(run[1..], q) {
      var i :| 0 <= i < |run[1..]| && run[1..][i].HitFailures? && run[1..][i].q == q;
      assert run[i + 1] == run[1..][i];
    }
  }

  lemma {:induction false} RespondingUntilRecorded(s: State, run: seq<Action>, q: nat, status: nat)
    requires ValidRun(s, run) && At(s, q, Responding(status))
    ensures if Recorded(run, q) then At(Final(s, run), q, Answered(status)) else At(Final(s, run), q, Responding(status))
    decreases |run|
  {
    if run != [] {
      var s' := Next(s, run[0]);
      if run[0].HitFailures? && run[0].q == q {
        assert Recorded(run, q);
        AnsweredStands(s', run[1..], q, status);
      } else {
        RecordedLater(run, q);
        RespondingUntilRecorded(s', run[1..], q, status);
      }
    }
  }

  lemma {:induction false} AnsweredStands(s: State, run: seq<Action>, q: nat, status: nat)
    requires ValidRun(s, run) && At(s, q, Answered(status))
    ensures At(Final(s, run), q, Answered(status))
    decreases |run|
  {
    if run != [] {
      AnsweredStands(Next(s, run[0]), run[1..], q, status);
    }
  }

  /** What the handler answers goes out exactly once the failure bucket has been told of it. */
  lemma AnswerFollowsRecording(s: State, q: nat, status: nat, run: seq<Action>)
    requires Enabled(s, Handle(q, status)) && ValidRun(Next(s, Handle(q, status)), run)
    ensures var f := Final(Next(s, Handle(q, status)), run);
      if Recorded(run, q) then At(f, q, Answered(status)) else At(f, q, Responding(status))
  {
    RespondingUntilRecorded(Next(s, Handle(q, status)), run, q, status);
  }

  /** With both buckets switched off every request is handled. */
  lemma SwitchedOff(s: State, q: nat, r: Readings)
    requires s.settings.failureLimit <= 0 && s.settings.requestLimit <= 0
    ensures Enabled(s, PeekFailures(q, r)) ==> At(Next(s, PeekFailures(q, r)), q, Cleared)
    ensures Enabled(s, HitRequests(q, r)) ==>
      At(Next(s, HitRequests(q, r)), q, InHandler) && q in Next(s, HitRequests(q, r)).handled
  {
  }

  /** A bucket that is switched off counts nothing and writes nothing, in any run. */
  lemma {:induction false} SwitchedOffIsSilent(s: State, run: seq<Action>)
    requires ValidRun(s, run)
    ensures s.settings.failureLimit <= 0 ==>
      Final(s, run).failures == s.failures && forall l :: l in Final(s, run).lines && l.bucket == Failures ==> l in s.lines
    ensures s.settings.requestLimit <= 0 ==>
      Final(s, run).requests == s.requests && forall l :: l in Final(s, run).lines && l.bucket == Requests ==> l in s.lines
    decreases |run|
  {
    if run != [] {
      SwitchedOffIsSilent(Next(s, run[0]), run[1..]);
    }
  }

  // ---------------------------------------------------------------------------
  // One line per window
  // ---------------------------------------------------------------------------

  /** The count at which a bucket writes its line. */
  function Threshold(s: State, b: Bucket): int {
    if b.Failures? then s.settings.failureLimit else s.settings.requestLimit + 1
  }

  function CounterOf(s: State, b: Bucket): Counter {
    if b.Failures? then s.failures else s.requests
  }

  predicate LineOk(s: State, l: Line) {
    var c := CounterOf(s, l.bucket);
    && l.window <= c.windows
    && (l.window == c.windows && c.entry.Some? ==> c.entry.value.count >= Threshold(s, l.bucket))
  }

  /** A bucket that is switched on and past its threshold has written the window's line. */
  predicate TripIsLogged(s: State, b: Bucket) {
    var c := CounterOf(s, b);
    (if b.Failures? then s.settings.failureLimit > 0 else s.settings.requestLimit > 0)
    && c.entry.Some? && c.entry.value.count >= Threshold(s, b)
    ==> Line(b, c.windows) in s.lines
  }

  ghost predicate LinesInv(s: State) {
    && (forall i, j :: 0 <= i < j < |s.lines| ==> s.lines[i] != s.lines[j])
    && (forall i :: 0 <= i < |s.lines| ==> LineOk(s, s.lines[i]))
    && TripIsLogged(s, Failures) && TripIsLogged(s, Requests)
  }

  lemma LineOkStep(s: State, a: Action, l: Line)
    requires Enabled(s, a) && LineOk(s, l)
    ensures LineOk(Next(s, a), l)
  {
  }

  /** A step adds at most one line, of a window that has none yet. */
  lemma NewLine(s: State, a: Action)
    requires Enabled(s, a)
    ensures var s' := Next(s, a);
      || s'.lines == s.lines
      || (exists l :: s'.lines == s.lines + [l] && LineOk(s', l) && !LineOk(s, l))
  {
    var s' := Next(s, a);
    if s'.lines != s.lines {
      var l := s'.lines[|s'.lines| - 1];
      assert s'.lines == s.lines + [l];
      var c, c' := CounterOf(s, l.bucket), CounterOf(s', l.bucket);
      assert l.window == c'.windows && c'.entry.value.count == Threshold(s, l.bucket);
    }
  }

  lemma TripStep(s: State, a: Action, b: Bucket)
    requires Enabled(s, a) && TripIsLogged(s, b)
    ensures TripIsLogged(Next(s, a), b)
  {
  }

  lemma LinesStep(s: State, a: Action)
    requires LinesInv(s) && Enabled(s, a)
    ensures LinesInv(Next(s, a))
  {
    var s' := Next(s, a);
    NewLine(s, a);
    TripStep(s, a, Failures);
    TripStep(s, a, Requests);
    forall i | 0 <= i < |s.lines| ensures LineOk(s', s.lines[i]) { LineOkStep(s, a, s.lines[i]); }
  }

  lemma {:induction false} LinesRun(s: State, run: seq<Action>)
    requires LinesInv(s) && ValidRun(s, run)
    ensures LinesInv(Final(s, run))
    decreases |run|
  {
    if run != [] {
      LinesStep(s, run[0]);
      LinesRun(Next(s, run[0]), run[1..]);
    }
  }

  /**
   However requests interleave, a bucket writes at most one line per window, and a window that
   trips its bucket has its line.
   */
  lemma OneLinePerTrippedWindow(s: State, run: seq<Action>)
    requires Init(s) && ValidRun(s, run)
    ensures forall i, j :: 0 <= i < j < |Final(s, run).lines| ==>
      Final(s, run).lines[i] != Final(s, run).lines[j]
    ensures TripIsLogged(Final(s, run), Failures) && TripIsLogged(Final(s, run), Requests)
  {
    LinesRun(s, run);
  }
}
