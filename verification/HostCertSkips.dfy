/**
 Host-certificate rotation when a rotation that finds the row lock taken is skipped for good: the
 exact settings under which no certificate lapses.
 */
module HostCertSkips {
  import opened Common
  import opened HostCerts

  /** Room for one rotation to be skipped late and the one that caused it to finish. */
  predicate RoomForSkips(c: Settings, latency: int) {
    && c.interval + 2 * latency <= c.renewBefore
    && c.interval + 3 * latency < c.ttl
  }

  ghost predicate NeverLapses(c: Settings, latency: int) {
    forall s, run :: Init(s) && s.settings == c && s.latency == latency && ValidRun(s, run) ==>
      Final(s, run).now < Expiry(Final(s, run))
  }

  // ---------------------------------------------------------------------------
  // Enough room
  // ---------------------------------------------------------------------------

  /** The next sweep, or a rotation already dispatched, leaves time for two rotations. */
  ghost predicate InTime(s: State, expiry: real) {
    || s.lastSweep + (s.settings.interval + 2 * s.latency) as real <= expiry
    || exists t :: t in s.pending && s.pending[t] + (2 * s.latency) as real <= expiry
  }

  ghost predicate SkipInv(s: State) {
    && s.settings.interval >= 0 && s.latency >= 1 && RoomForSkips(s.settings, s.latency)
    && s.lastSweep <= s.now && OnSchedule(s, s.now)
    && (forall t :: t in s.pending ==> s.pending[t] <= s.lastSweep)
    && match s.signing
       case None => InTime(s, Expiry(s))
       case Some(signing) =>
         && signing.task in s.pending && s.pending[signing.task] <= signing.at <= s.now
         && s.pending[signing.task] + s.latency as real <= Expiry(s)
  }

  lemma InTimeFrame(s: State, s': State, expiry: real)
    requires InTime(s, expiry) && s'.settings == s.settings && s'.latency == s.latency
    requires s'.lastSweep == s.lastSweep && s'.pending == s.pending
    ensures InTime(s', expiry)
  {
    if s.lastSweep + (s.settings.interval + 2 * s.latency) as real > expiry {
      var t :| t in s.pending && s.pending[t] + (2 * s.latency) as real <= expiry;
      assert t in s'.pending;
    }
  }

  lemma SweepInTime(s: State, task: nat)
    requires SkipInv(s) && Enabled(s, Sweep(task)) && s.signing == None
    ensures InTime(Next(s, Sweep(task)), Expiry(s))
  {
    var s' := Next(s, Sweep(task));
    if s.lastSweep + (s.settings.interval + 2 * s.latency) as real > Expiry(s) {
      var t :| t in s.pending && s.pending[t] + (2 * s.latency) as real <= Expiry(s);
      assert t in s'.pending && s'.pending[t] == s.pending[t];
    } else if Selected(Expiry(s), s.now, s.settings.renewBefore) {
      assert task in s'.pending && s'.pending[task] == s.now;
    }
  }

  lemma SignInTime(s: State, task: nat)
    requires SkipInv(s) && Enabled(s, Sign(task))
    ensures s.pending[task] + s.latency as real <= Expiry(s)
  {
    if s.lastSweep + (s.settings.interval + 2 * s.latency) as real > Expiry(s) {
      var t :| t in s.pending && s.pending[t] + (2 * s.latency) as real <= Expiry(s);
    }
  }

  lemma SkipStep(s: State, a: Action)
    requires SkipInv(s) && Enabled(s, a)
    ensures SkipInv(Next(s, a))
  {
    match a
    case Sweep(task) => if s.signing == None { SweepInTime(s, task); }
    case Sign(task) => SignInTime(s, task);
    case Skip(task) =>
    case Commit => assert s.signing.value.at < (s.signing.value.at.Floor + 1) as real;
    case Pass(to) => if s.signing == None { InTimeFrame(s, Next(s, a), Expiry(s)); }
  }

  lemma {:induction false} SkipRun(s: State, run: seq<Action>)
    requires SkipInv(s) && ValidRun(s, run)
    ensures SkipInv(Final(s, run))
    decreases |run|
  {
    if run != [] {
      SkipStep(s, run[0]);
      SkipRun(Next(s, run[0]), run[1..]);
    }
  }

  lemma RoomSuffices(s: State, run: seq<Action>)
    requires Init(s) && s.settings.interval >= 0 && s.latency >= 1 && RoomForSkips(s.settings, s.latency)
    requires ValidRun(s, run)
    ensures Final(s, run).now < Expiry(Final(s, run))
  {
    assert s.now < (s.now.Floor + 1) as real;
    SkipRun(s, run);
  }

  // ---------------------------------------------------------------------------
  // Not enough room
  // ---------------------------------------------------------------------------

  ghost predicate From(s0: State, s: State) {
    exists run :: ValidRun(s0, run) && Final(s0, run) == s
  }

  lemma FromNext(s0: State, s: State, a: Action)
    requires From(s0, s) && Enabled(s, a)
    ensures From(s0, Next(s, a))
  {
    var run :| ValidRun(s0, run) && Final(s0, run) == s;
    Append(s0, run, a);
  }

  /** The clock and the schedule moved; the certificate and the settings did not. */
  predicate Waited(s: State, s': State, until: real) {
    && s' == s.(now := until, lastSweep := s'.lastSweep, pending := s'.pending)
    && s'.lastSweep <= until <= s'.lastSweep + s.settings.interval as real
  }

  /** Rotations numbered below `next` are pending, none due before `until`. */
  predicate AllPending(s: State, next: nat, until: real) {
    forall t :: t in s.pending ==> t < next && until < s.pending[t] + s.latency as real
  }

  /** Nothing gets the lock: rotations pile up until just before the first is due. */
  lemma {:induction false} PileUp(s0: State, s: State, next: nat, until: real) returns (s': State, next': nat)
    requires From(s0, s) && s.settings.interval >= 1 && s.lastSweep <= s.now <= until < s.now + s.latency as real
    requires s.now <= s.lastSweep + s.settings.interval as real && AllPending(s, next, until)
    ensures From(s0, s') && Waited(s, s', until) && AllPending(s', next', until)
    decreases (until - s.lastSweep).Floor
  {
    var turn := s.lastSweep + s.settings.interval as real;
    if until <= turn {
      FromNext(s0, s, Pass(until));
      s', next' := Next(s, Pass(until)), next;
    } else {
      FromNext(s0, s, Pass(turn));
      var mid := Next(s, Pass(turn));
      FromNext(s0, mid, Sweep(next));
      s', next' := PileUp(s0, Next(mid, Sweep(next)), next + 1, until);
    }
  }

  /** While one rotation signs, every other one is skipped. */
  lemma {:induction false} HoldOn(s0: State, s: State, until: real) returns (s': State)
    requires From(s0, s) && s.settings.interval >= 1 && s.signing.Some?
    requires s.lastSweep <= s.now <= until && s.now <= s.lastSweep + s.settings.interval as real
    requires s.signing.value.task in s.pending && s.pending == map[s.signing.value.task := s.pending[s.signing.value.task]]
    requires until < s.pending[s.signing.value.task] + s.latency as real
    ensures From(s0, s') && Waited(s, s', until) && s'.pending == s.pending
    decreases (until - s.lastSweep).Floor
  {
    var turn := s.lastSweep + s.settings.interval as real;
    if until <= turn {
      FromNext(s0, s, Pass(until));
      s' := Next(s, Pass(until));
    } else {
      FromNext(s0, s, Pass(turn));
      var mid := SweepAndSkip(s0, Next(s, Pass(turn)));
      s' := HoldOn(s0, mid, until);
    }
  }

  lemma SweepAndSkip(s0: State, s: State) returns (s': State)
    requires From(s0, s) && s.signing.Some? && s.signing.value.task in s.pending
    requires s.pending == map[s.signing.value.task := s.pending[s.signing.value.task]]
    ensures From(s0, s') && s' == s.(lastSweep := s.now)
  {
    var task := s.signing.value.task + 1;
    FromNext(s0, s, Sweep(task));
    s' := Next(s, Sweep(task));
    if task in s'.pending {
      FromNext(s0, s', Skip(task));
      s' := Next(s', Skip(task));
      assert s'.pending == s.pending;
    }
  }

  lemma {:induction false} SkipAll(s0: State, s: State) returns (s': State)
    requires From(s0, s) && s.signing.Some? && s.signing.value.task in s.pending
    ensures From(s0, s')
    ensures s' == s.(pending := map[s.signing.value.task := s.pending[s.signing.value.task]])
    decreases |s.pending|
  {
    var task := s.signing.value.task;
    if t :| t in s.pending && t != task {
      FromNext(s0, s, Skip(t));
      var mid := Next(s, Skip(t));
      assert mid.pending.Keys == s.pending.Keys - {t};
      s' := SkipAll(s0, mid);
    } else {
      s' := s;
    }
  }

  /** Nothing is in flight, a sweep is possible, and less than two rotations fit before the expiry. */
  predicate Tight(s: State) {
    && s.signing == None && s.pending == map[] && s.settings.interval >= 1 && s.latency >= 1
    && s.lastSweep <= s.now <= s.lastSweep + s.settings.interval as real
    && Expiry(s) - s.now < (2 * s.latency) as real
    && Expiry(s) < s.now + s.settings.renewBefore as real
  }

  /** One rotation waits for almost all its time, then a second takes the lock and it is skipped. */
  lemma TightLapses(s0: State, s: State) returns (s': State)
    requires From(s0, s) && Tight(s)
    ensures From(s0, s') && s'.now >= Expiry(s')
  {
    var left := Expiry(s) - s.now;
    if left <= 0.0 {
      s' := s;
    } else {
      FromNext(s0, s, Sweep(0));
      var swept := Next(s, Sweep(0));
      if left < s.latency as real {
        var next;
        s', next := PileUp(s0, swept, 1, Expiry(s));
      } else {
        var late := s.now + s.latency as real - ((2 * s.latency) as real - left) / 2.0;
        var mid, next := PileUp(s0, swept, 1, late);
        s' := SecondTakesOver(s0, mid, next);
      }
    }
  }

  lemma SecondTakesOver(s0: State, s: State, next: nat) returns (s': State)
    requires From(s0, s) && s.signing == None && s.settings.interval >= 1 && next !in s.pending
    requires s.now <= Expiry(s) < s.now + s.latency as real
    requires Expiry(s) < s.now + s.settings.renewBefore as real
    ensures From(s0, s') && s'.now >= Expiry(s')
  {
    FromNext(s0, s, Sweep(next));
    s' := Next(s, Sweep(next));
    FromNext(s0, s', Sign(next));
    s' := Next(s', Sign(next));
    s' := SkipAll(s0, s');
    s' := HoldOn(s0, s', Expiry(s));
  }

  /** A schedule that has just swept at the edge of the renew window. */
  lemma AtTheEdge(c: Settings, latency: int) returns (s0: State, s: State)
    requires ValidateWindows(c).Ok? && c.interval >= 1
    ensures Init(s0) && s0.settings == c && s0.latency == latency && From(s0, s)
    ensures s == s0.(now := s.now, lastSweep := s.now) && s.now == (c.ttl - c.renewBefore) as real
    ensures Expiry(s) == c.ttl as real && s.pending == map[] && s.signing == None
  {
    s0 := State(c, latency, 0.0, 0.0, 0.0, map[], None);
    var run := IdleSweeps(s0, (c.ttl - c.renewBefore) as real, c.ttl - c.renewBefore);
    s := Final(s0, run);
  }

  lemma ShortWindowLapses(c: Settings, latency: int) returns (s0: State, s: State)
    requires ValidateWindows(c).Ok? && c.interval >= 1 && latency >= 1
    requires c.renewBefore < c.interval + 2 * latency
    ensures Init(s0) && s0.settings == c && s0.latency == latency && From(s0, s) && s.now >= Expiry(s)
  {
    s0, s := AtTheEdge(c, latency);
    var late := s.now + c.interval as real;
    FromNext(s0, s, Pass(late));
    s := TightLapses(s0, Next(s, Pass(late)));
  }

  /** A rotation that signs at the end of a second and holds the lock for almost all its time. */
  lemma SlowRotation(c: Settings, latency: int) returns (s0: State, s: State)
    requires ValidateWindows(c).Ok? && c.interval >= 1 && latency >= 1
    ensures Init(s0) && s0.settings == c && s0.latency == latency && From(s0, s)
    ensures s == s0.(now := s.now, lastSweep := s.now, signedAt := s.signedAt)
    ensures s.pending == map[] && s.signing == None
    ensures s.signedAt == (c.ttl - c.renewBefore) as real + 0.75 && s.now == s.signedAt + latency as real - 0.25
  {
    s0, s := AtTheEdge(c, latency);
    var at := s.now + 0.75;
    FromNext(s0, s, Pass(at));
    s := Next(s, Pass(at));
    FromNext(s0, s, Sweep(0));
    s := Next(s, Sweep(0));
    FromNext(s0, s, Sign(0));
    s := Next(s, Sign(0));
    s := HoldOn(s0, s, at + latency as real - 0.25);
    s := SweepAndSkip(s0, s);
    FromNext(s0, s, Commit);
    s := Next(s, Commit);
    assert s.pending == map[];
  }

  lemma ShortTtlLapses(c: Settings, latency: int) returns (s0: State, s: State)
    requires ValidateWindows(c).Ok? && c.interval >= 1 && latency >= 1
    requires c.interval + 2 * latency <= c.renewBefore && c.ttl <= c.interval + 3 * latency
    ensures Init(s0) && s0.settings == c && s0.latency == latency && From(s0, s) && s.now >= Expiry(s)
  {
    s0, s := SlowRotation(c, latency);
    assert s.signedAt.Floor == c.ttl - c.renewBefore;
    var late := s.now + c.interval as real;
    FromNext(s0, s, Pass(late));
    s := TightLapses(s0, Next(s, Pass(late)));
  }

  // ---------------------------------------------------------------------------
  // The exact condition
  // ---------------------------------------------------------------------------

  /**
   With skips, accepted settings keep every certificate valid in every run if and only if the renew
   window has room for a sweep interval and two rotations, and the ttl for a third.
   */
  lemma NeverLapsesIff(c: Settings, latency: int)
    requires ValidateWindows(c).Ok? && c.interval >= 1 && latency >= 1
    ensures NeverLapses(c, latency) <==> RoomForSkips(c, latency)
  {
    if RoomForSkips(c, latency) {
      forall s, run | Init(s) && s.settings == c && s.latency == latency && ValidRun(s, run)
        ensures Final(s, run).now < Expiry(Final(s, run))
      {
        RoomSuffices(s, run);
      }
    } else if c.renewBefore < c.interval + 2 * latency {
      var s0, s := ShortWindowLapses(c, latency);
      var run :| ValidRun(s0, run) && Final(s0, run) == s;
    } else {
      var s0, s := ShortTtlLapses(c, latency);
      var run :| ValidRun(s0, run) && Final(s0, run) == s;
    }
  }

  /** A latency that is enough without skips is never enough with them. */
  lemma ValidatedSettingsAreNotEnough(c: Settings)
    requires ValidateWindows(c).Ok? && c.interval >= 1
    ensures !NeverLapses(c, c.renewBefore - c.interval)
  {
    NeverLapsesIff(c, c.renewBefore - c.interval);
  }
}
