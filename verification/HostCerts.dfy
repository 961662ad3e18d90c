/**
 Automatic renewal of SSH host certificates.

 A periodic sweep dispatches a rotation for every ready host whose certificate lapses within the
 renew window. A rotation signs a new certificate under the host's row lock and then commits it.
 Clock times are reals; a certificate's validity starts at the whole second it was signed in.
 */
module HostCerts {
  import opened Common

  /** The three settings, in whole seconds. */
  datatype Settings = Settings(ttl: int, renewBefore: int, interval: int)

  datatype SettingsError = RenewWindowNotShorterThanTtl | IntervalNotShorterThanRenewWindow

  /** `_validate_host_cert_rotation_windows`. */
  function ValidateWindows(c: Settings): Result<Settings, SettingsError> {
    if c.renewBefore >= c.ttl then Err(RenewWindowNotShorterThanTtl)
    else if c.interval >= c.renewBefore then Err(IntervalNotShorterThanRenewWindow)
    else Ok(c)
  }

  function ValidBefore(signedAt: real, ttl: int): real {
    (signedAt.Floor + ttl) as real
  }

  /** The sweep's query: the certificate lapses within the renew window. */
  predicate Selected(validBefore: real, now: real, renewBefore: int) {
    validBefore < now + renewBefore as real
  }

  // ---------------------------------------------------------------------------
  // The sweep over the tables
  // ---------------------------------------------------------------------------

  datatype Status = Pending | Ready | Errored

  /** A server or client row; only clients can be manual. */
  datatype Row = Row(id: nat, status: Status, manual: bool, validBefore: Option<real>)

  datatype Kind = Server | Client

  predicate Due(kind: Kind, r: Row, now: real, renewBefore: int) {
    && r.status == Ready
    && (kind.Client? ==> !r.manual)
    && (r.validBefore.None? || Selected(r.validBefore.value, now, renewBefore))
  }

  /** Ids of the due rows, in table order. */
  function DueIds(kind: Kind, rows: seq<Row>, now: real, renewBefore: int): seq<nat> {
    if rows == [] then []
    else
      var front := DueIds(kind, rows[..|rows| - 1], now, renewBefore);
      var r := rows[|rows| - 1];
      if Due(kind, r, now, renewBefore) then front + [r.id] else front
  }

  function Keep(ids: seq<nat>, kind: Kind, accepts: (Kind, nat) -> bool, wanted: bool): seq<nat> {
    if ids == [] then []
    else
      var front := Keep(ids[..|ids| - 1], kind, accepts, wanted);
      var id := ids[|ids| - 1];
      if accepts(kind, id) == wanted then front + [id] else front
  }

  /** Dispatch one task per id; a refused dispatch is recorded and does not stop the rest. */
  method DispatchAll(ids: seq<nat>, kind: Kind, accepts: (Kind, nat) -> bool)
    returns (dispatched: seq<nat>, failed: seq<nat>)
    ensures dispatched == Keep(ids, kind, accepts, true)
    ensures failed == Keep(ids, kind, accepts, false)
  {
    dispatched, failed := [], [];
    for i := 0 to |ids|
      invariant dispatched == Keep(ids[..i], kind, accepts, true)
      invariant failed == Keep(ids[..i], kind, accepts, false)
    {
      assert ids[..i + 1][..i] == ids[..i];
      if accepts(kind, ids[i]) {
        dispatched := dispatched + [ids[i]];
      } else {
        failed := failed + [ids[i]];
      }
    }
    assert ids[..|ids|] == ids;
  }

  lemma {:induction false} KeepSplits(ids: seq<nat>, kind: Kind, accepts: (Kind, nat) -> bool)
    ensures multiset(Keep(ids, kind, accepts, true)) + multiset(Keep(ids, kind, accepts, false)) == multiset(ids)
    decreases |ids|
  {
    if ids != [] {
      KeepSplits(ids[..|ids| - 1], kind, accepts);
      assert ids == ids[..|ids| - 1] + [ids[|ids| - 1]];
    }
  }

  lemma {:induction false} KeepAccepts(ids: seq<nat>, kind: Kind, accepts: (Kind, nat) -> bool, wanted: bool)
    ensures forall id :: id in Keep(ids, kind, accepts, wanted) ==> accepts(kind, id) == wanted
    decreases |ids|
  {
    if ids != [] {
      KeepAccepts(ids[..|ids| - 1], kind, accepts, wanted);
    }
  }

  lemma {:induction false} DueIdsExactly(kind: Kind, rows: seq<Row>, now: real, renewBefore: int, id: nat)
    ensures id in DueIds(kind, rows, now, renewBefore) <==>
      exists i :: 0 <= i < |rows| && rows[i].id == id && Due(kind, rows[i], now, renewBefore)
    decreases |rows|
  {
    if rows != [] {
      var last := |rows| - 1;
      DueIdsExactly(kind, rows[..last], now, renewBefore, id);
      forall i | 0 <= i < last ensures rows[..last][i] == rows[i] {}
      if id in DueIds(kind, rows[..last], now, renewBefore) {
        var i :| 0 <= i < last && rows[..last][i].id == id && Due(kind, rows[..last][i], now, renewBefore);
        assert rows[i].id == id && Due(kind, rows[i], now, renewBefore);
      } else if Due(kind, rows[last], now, renewBefore) && rows[last].id == id {
        assert id in DueIds(kind, rows, now, renewBefore);
      }
    }
  }

  /** A row with this id is ready, not a manual client, and has no recorded expiry or one before the cutoff. */
  ghost predicate NeedsRotation(kind: Kind, rows: seq<Row>, now: real, renewBefore: int, id: nat) {
    exists i :: 0 <= i < |rows| && rows[i].id == id && rows[i].status == Ready
      && (kind == Client ==> !rows[i].manual)
      && (rows[i].validBefore.Some? ==> rows[i].validBefore.value < now + renewBefore as real)
  }

  lemma DueIdsNeedRotation(kind: Kind, rows: seq<Row>, now: real, renewBefore: int, id: nat)
    ensures id in DueIds(kind, rows, now, renewBefore) <==> NeedsRotation(kind, rows, now, renewBefore, id)
  {
    DueIdsExactly(kind, rows, now, renewBefore, id);
    if NeedsRotation(kind, rows, now, renewBefore, id) {
      var i :| 0 <= i < |rows| && rows[i].id == id && rows[i].status == Ready
        && (kind == Client ==> !rows[i].manual)
        && (rows[i].validBefore.Some? ==> rows[i].validBefore.value < now + renewBefore as real);
      assert Due(kind, rows[i], now, renewBefore);
    }
  }

  method SelectDue(kind: Kind, rows: seq<Row>, now: real, renewBefore: int) returns (ids: seq<nat>)
    ensures ids == DueIds(kind, rows, now, renewBefore)
    ensures forall id :: id in ids <==> NeedsRotation(kind, rows, now, renewBefore, id)
  {
    ids := [];
    for i := 0 to |rows|
      invariant ids == DueIds(kind, rows[..i], now, renewBefore)
    {
      assert rows[..i + 1][..i] == rows[..i];
      if Due(kind, rows[i], now, renewBefore) {
        ids := ids + [rows[i].id];
      }
    }
    assert rows[..|rows|] == rows;
    forall id ensures id in ids <==> NeedsRotation(kind, rows, now, renewBefore, id) {
      DueIdsNeedRotation(kind, rows, now, renewBefore, id);
    }
  }

  /** Dispatched and failed ids are all of the ids, each told apart by what the broker did. */
  lemma SweepSplits(ids: seq<nat>, kind: Kind, accepts: (Kind, nat) -> bool)
    ensures var dispatched, failed := Keep(ids, kind, accepts, true), Keep(ids, kind, accepts, false);
      && multiset(dispatched) + multiset(failed) == multiset(ids)
      && (forall id :: id in dispatched ==> accepts(kind, id))
      && (forall id :: id in failed ==> !accepts(kind, id))
      && forall id :: id in ids <==> id in dispatched || id in failed
  {
    KeepSplits(ids, kind, accepts);
    KeepAccepts(ids, kind, accepts, true);
    KeepAccepts(ids, kind, accepts, false);
    SplitMembers(ids, Keep(ids, kind, accepts, true), Keep(ids, kind, accepts, false));
  }

  lemma SplitMembers(ids: seq<nat>, dispatched: seq<nat>, failed: seq<nat>)
    requires multiset(dispatched) + multiset(failed) == multiset(ids)
    ensures forall id :: id in ids <==> id in dispatched || id in failed
  {
    forall id ensures id in ids <==> id in dispatched || id in failed {
      assert id in ids <==> id in multiset(ids);
      assert id in multiset(dispatched) + multiset(failed) <==> id in multiset(dispatched) || id in multiset(failed);
    }
  }

  /**
   Every host that is ready, not manual and unknown or due gets its rotation dispatched or
   reported failed, once per row, whatever the broker refuses.
   */
  method RotateExpiring(servers: seq<Row>, clients: seq<Row>, now: real, renewBefore: int,
                        accepts: (Kind, nat) -> bool)
    returns (serverIds: seq<nat>, clientIds: seq<nat>, failedServers: seq<nat>, failedClients: seq<nat>)
    ensures multiset(serverIds) + multiset(failedServers) == multiset(DueIds(Server, servers, now, renewBefore))
    ensures multiset(clientIds) + multiset(failedClients) == multiset(DueIds(Client, clients, now, renewBefore))
    ensures forall id :: id in serverIds ==> accepts(Server, id)
    ensures forall id :: id in clientIds ==> accepts(Client, id)
    ensures forall id :: id in failedServers ==> !accepts(Server, id)
    ensures forall id :: id in failedClients ==> !accepts(Client, id)
    ensures forall id ::
      id in serverIds || id in failedServers <==> NeedsRotation(Server, servers, now, renewBefore, id)
    ensures forall id ::
      id in clientIds || id in failedClients <==> NeedsRotation(Client, clients, now, renewBefore, id)
  {
    var dueServers := SelectDue(Server, servers, now, renewBefore);
    var dueClients := SelectDue(Client, clients, now, renewBefore);
    serverIds, failedServers := DispatchAll(dueServers, Server, accepts);
    clientIds, failedClients := DispatchAll(dueClients, Client, accepts);
    SweepSplits(dueServers, Server, accepts);
    SweepSplits(dueClients, Client, accepts);
  }

  // ---------------------------------------------------------------------------
  // One host over time
  // ---------------------------------------------------------------------------

  /** The rotation holding the row lock, and when it signed. */
  datatype Signing = Signing(task: nat, at: real)

  /**
   `pending` maps each dispatched, unfinished rotation to its dispatch time; `latency` bounds how
   long one that is not skipped takes from dispatch to commit.
   */
  datatype State = State(
    settings: Settings,
    latency: int,
    now: real,
    signedAt: real,
    lastSweep: real,
    pending: map<nat, real>,
    signing: Option<Signing>)

  datatype Action =
    | Sweep(task: nat)
    | Sign(task: nat)
    | Skip(task: nat)
    | Commit
    | Pass(to: real)

  function Expiry(s: State): real {
    ValidBefore(s.signedAt, s.settings.ttl)
  }

  /** The host's first certificate is signed at any time between two sweeps. */
  predicate Init(s: State) {
    && s.now == s.signedAt && s.lastSweep <= s.now <= s.lastSweep + s.settings.interval as real
    && s.pending == map[] && s.signing == None
  }

  /**
   Time may pass as long as the schedule is kept: sweeps at most `interval` apart, and every
   dispatched rotation finished or skipped in less than `latency`.
   */
  predicate OnSchedule(s: State, to: real) {
    && to <= s.lastSweep + s.settings.interval as real
    && forall t :: t in s.pending ==> to < s.pending[t] + s.latency as real
  }

  predicate Enabled(s: State, a: Action) {
    match a
    case Sweep(task) => task !in s.pending
    case Sign(task) => task in s.pending && s.signing == None
    case Skip(task) => task in s.pending && s.signing.Some? && s.signing.value.task != task
    case Commit => s.signing.Some?
    case Pass(to) => s.now <= to && OnSchedule(s, to)
  }

  function Next(s: State, a: Action): State
    requires Enabled(s, a)
  {
    match a
    case Sweep(task) =>
      var s' := s.(lastSweep := s.now);
      if Selected(Expiry(s), s.now, s.settings.renewBefore)
      then s'.(pending := s.pending[task := s.now]) else s'
    case Sign(task) => s.(signing := Some(Signing(task, s.now)))
    case Skip(task) => s.(pending := s.pending - {task})
    case Commit =>
      s.(signedAt := s.signing.value.at, pending := s.pending - {s.signing.value.task}, signing := None)
    case Pass(to) => s.(now := to)
  }

  predicate ValidRun(s: State, run: seq<Action>)
    decreases |run|
  {
    run == [] || (Enabled(s, run[0]) && ValidRun(Next(s, run[0]), run[1..]))
  }

  function Final(s: State, run: seq<Action>): State
    requires ValidRun(s, run)
    decreases |run|
  {
    if run == [] then s else Final(Next(s, run[0]), run[1..])
  }

  // ---------------------------------------------------------------------------
  // Certificates never lapse
  // ---------------------------------------------------------------------------

  /**
   An expiry is covered when the last sweep was too early to select it, or a rotation other than
   `busy` was dispatched early enough to finish before it.
   */
  ghost predicate Covered(s: State, expiry: real, busy: Option<nat>) {
    || s.lastSweep + s.settings.renewBefore as real <= expiry
    || exists t :: t in s.pending && busy != Some(t)
         && s.pending[t] + s.latency as real <= expiry
  }

  ghost predicate Inv(s: State) {
    && s.settings.interval >= 0
    && ValidateWindows(s.settings).Ok? && 1 <= s.latency <= s.settings.renewBefore - s.settings.interval
    && s.signedAt <= s.now && s.lastSweep <= s.now
    && OnSchedule(s, s.now)
    && Covered(s, Expiry(s), None)
    && (s.signing.Some? ==>
          var at := s.signing.value.at;
          && s.signing.value.task in s.pending
          && s.signedAt <= at <= s.now
          && Covered(s, ValidBefore(at, s.settings.ttl), Some(s.signing.value.task)))
  }

  lemma FloorMonotone(x: real, y: real)
    requires x <= y
    ensures x.Floor <= y.Floor
  {
  }

  lemma SweepStep(s: State, task: nat)
    requires Inv(s) && Enabled(s, Sweep(task))
    ensures Inv(Next(s, Sweep(task)))
  {
    var s' := Next(s, Sweep(task));
    SweepCovers(s, task, Expiry(s), None);
    if s.signing.Some? {
      FloorMonotone(s.signedAt, s.signing.value.at);
      SweepCovers(s, task, ValidBefore(s.signing.value.at, s.settings.ttl), Some(s.signing.value.task));
    }
  }

  /** A sweep either comes too early for an expiry or dispatches in time for it. */
  lemma SweepCovers(s: State, task: nat, expiry: real, busy: Option<nat>)
    requires Inv(s) && Enabled(s, Sweep(task))
    requires Expiry(s) <= expiry && Covered(s, expiry, busy) && busy != Some(task)
    ensures Covered(Next(s, Sweep(task)), expiry, busy)
  {
    var s' := Next(s, Sweep(task));
    if s.now + s.settings.renewBefore as real > expiry {
      assert task in s'.pending && s'.pending[task] == s.now;
      if s.lastSweep + s.settings.renewBefore as real > expiry {
        var t :| t in s.pending && busy != Some(t)
          && s.pending[t] + s.latency as real <= expiry;
        assert t in s'.pending && s'.pending[t] == s.pending[t];
      }
    }
  }

  lemma SignStep(s: State, task: nat)
    requires Inv(s) && Enabled(s, Sign(task))
    ensures Inv(Next(s, Sign(task)))
  {
    var s' := Next(s, Sign(task));
    assert s.now < (s.now.Floor + 1) as real;
    CoveredFrame(s, s', Expiry(s), None);
  }

  lemma CoveredFrame(s: State, s': State, expiry: real, busy: Option<nat>)
    requires Covered(s, expiry, busy) && s'.settings == s.settings && s'.latency == s.latency && s'.lastSweep == s.lastSweep
    requires forall t :: t in s.pending && busy != Some(t) ==> t in s'.pending && s'.pending[t] == s.pending[t]
    ensures Covered(s', expiry, None)
    ensures (busy.Some? ==> busy.value in s'.pending) ==> Covered(s', expiry, busy)
  {
    if s.lastSweep + s.settings.renewBefore as real > expiry {
      var t :| t in s.pending && busy != Some(t)
        && s.pending[t] + s.latency as real <= expiry;
      assert t in s'.pending && s'.pending[t] == s.pending[t];
    }
  }

  lemma CommitStep(s: State)
    requires Inv(s) && Enabled(s, Commit)
    ensures Inv(Next(s, Commit))
  {
    CoveredFrame(s, Next(s, Commit), ValidBefore(s.signing.value.at, s.settings.ttl), Some(s.signing.value.task));
  }

  lemma PassStep(s: State, to: real)
    requires Inv(s) && Enabled(s, Pass(to))
    ensures Inv(Next(s, Pass(to)))
  {
    CoveredFrame(s, Next(s, Pass(to)), Expiry(s), None);
    if s.signing.Some? {
      CoveredFrame(s, Next(s, Pass(to)), ValidBefore(s.signing.value.at, s.settings.ttl),
                   Some(s.signing.value.task));
    }
  }

  lemma CoveredIsValid(s: State)
    requires Inv(s)
    ensures s.now < Expiry(s)
  {
  }

  /** Every dispatched rotation gets the row lock. */
  predicate NoSkips(run: seq<Action>) {
    forall i :: 0 <= i < |run| ==> !run[i].Skip?
  }

  lemma {:induction false} InvRun(s: State, run: seq<Action>)
    requires Inv(s) && ValidRun(s, run) && NoSkips(run)
    ensures Inv(Final(s, run))
    decreases |run|
  {
    if run != [] {
      var a := run[0];
      if a.Sweep? { SweepStep(s, a.task); }
      if a.Sign? { SignStep(s, a.task); }
      if a.Commit? { CommitStep(s); }
      if a.Pass? { PassStep(s, a.to); }
      InvRun(Next(s, run[0]), run[1..]);
    }
  }

  /**
   With settings the validator accepts and every rotation done in less than `renewBefore - interval`,
   no run lets a certificate lapse.
   */
  lemma CertsNeverLapse(s: State, run: seq<Action>)
    requires Init(s) && s.settings.interval >= 0 && ValidateWindows(s.settings).Ok?
    requires 1 <= s.latency <= s.settings.renewBefore - s.settings.interval
    requires ValidRun(s, run) && NoSkips(run)
    ensures Final(s, run).now < Expiry(Final(s, run))
  {
    assert s.now < (s.now.Floor + 1) as real;
    InvRun(s, run);
    CoveredIsValid(Final(s, run));
  }

  // ---------------------------------------------------------------------------
  // How often, how early, and why the settings are checked
  // ---------------------------------------------------------------------------

  /** Consecutive sweeps are at most `interval` apart. */
  predicate Spaced(sweeps: seq<real>, interval: int) {
    forall i :: 0 <= i < |sweeps| - 1 ==> sweeps[i] <= sweeps[i + 1] <= sweeps[i] + interval as real
  }

  /** How many of the sweeps select a certificate that has not yet expired. */
  function SelectedInTime(sweeps: seq<real>, validBefore: real, renewBefore: int): nat {
    if sweeps == [] then 0
    else (if Selected(validBefore, sweeps[0], renewBefore) && sweeps[0] < validBefore then 1 else 0)
         + SelectedInTime(sweeps[1..], validBefore, renewBefore)
  }

  lemma {:induction false} SweepsBeforeExpiry(
    sweeps: seq<real>, validBefore: real, renewBefore: int, interval: int, left: int, n: nat)
    requires interval >= 1 && left <= renewBefore && n * interval < left
    requires sweeps != [] && Spaced(sweeps, interval) && sweeps[0] + left as real <= validBefore
    requires validBefore <= sweeps[|sweeps| - 1]
    ensures SelectedInTime(sweeps[1..], validBefore, renewBefore) >= n
    decreases |sweeps|
  {
    if n > 0 {
      assert n * interval == (n - 1) * interval + interval;
      var rest := sweeps[1..];
      assert forall i :: 0 <= i < |rest| ==> rest[i] == sweeps[i + 1];
      if Selected(validBefore, sweeps[1], renewBefore) {
        SweepsBeforeExpiry(rest, validBefore, renewBefore, interval, left - interval, n - 1);
      } else {
        SweepsBeforeExpiry(rest, validBefore, renewBefore, interval, left, n);
      }
    }
  }

  /**
   A certificate that no rotation renews is selected by at least ceil(renewBefore / interval) - 1
   sweeps while it is still valid. `(r - 1) / i` is that number for positive `r` and `i`.
   */
  lemma SelectedRepeatedlyBeforeExpiry(sweeps: seq<real>, validBefore: real, c: Settings)
    requires ValidateWindows(c).Ok? && c.interval >= 1
    requires sweeps != [] && Spaced(sweeps, c.interval)
    requires !Selected(validBefore, sweeps[0], c.renewBefore) && validBefore <= sweeps[|sweeps| - 1]
    ensures SelectedInTime(sweeps, validBefore, c.renewBefore) >= (c.renewBefore - 1) / c.interval
  {
    var n := (c.renewBefore - 1) / c.interval;
    assert n * c.interval <= c.renewBefore - 1;
    SweepsBeforeExpiry(sweeps, validBefore, c.renewBefore, c.interval, c.renewBefore, n);
  }

  /** A fresh certificate is reselected exactly when ttl - renewBefore has passed since it became valid. */
  lemma ReselectedExactlyAfter(signedAt: real, c: Settings, now: real)
    ensures Selected(ValidBefore(signedAt, c.ttl), now, c.renewBefore)
      <==> now - signedAt.Floor as real > (c.ttl - c.renewBefore) as real
  {
  }

  /** The first check: a renew window as long as the ttl makes every later sweep re-rotate. */
  lemma ShortTtlRotatesAlways(c: Settings, signedAt: real)
    ensures c.renewBefore >= c.ttl <==>
      forall now: real :: now > signedAt.Floor as real ==>
        Selected(ValidBefore(signedAt, c.ttl), now, c.renewBefore)
  {
    if c.renewBefore < c.ttl {
      var now := signedAt.Floor as real + 0.5;
      assert !Selected(ValidBefore(signedAt, c.ttl), now, c.renewBefore);
    }
  }

  lemma Cons(s: State, a: Action, rest: seq<Action>)
    requires Enabled(s, a) && ValidRun(Next(s, a), rest)
    ensures ValidRun(s, [a] + rest) && Final(s, [a] + rest) == Final(Next(s, a), rest)
  {
    assert ([a] + rest)[1..] == rest;
  }

  /** Sweeps that keep the schedule and select nothing, up to a time still outside the renew window. */
  lemma {:induction false} IdleSweeps(s: State, target: real, n: nat) returns (run: seq<Action>)
    requires s.settings.interval >= 1 && s.now == s.lastSweep && s.pending == map[]
    requires target == s.now + n as real && target + s.settings.renewBefore as real <= Expiry(s)
    ensures ValidRun(s, run) && NoSkips(run)
    ensures Final(s, run) == s.(now := target, lastSweep := target)
    decreases n
  {
    var step := Min(n, s.settings.interval);
    var stop := s.now + step as real;
    var mid := Next(s, Pass(stop));
    var s' := Next(mid, Sweep(0));
    assert s' == s.(now := stop, lastSweep := stop);
    var rest := [];
    if n > step {
      rest := IdleSweeps(s', target, n - step);
    }
    var tail := [Sweep(0)] + rest;
    run := [Pass(stop)] + tail;
    Cons(mid, Sweep(0), rest);
    Cons(s, Pass(stop), tail);
  }

  lemma {:induction false} Append(s: State, run: seq<Action>, a: Action)
    requires ValidRun(s, run) && Enabled(Final(s, run), a)
    ensures ValidRun(s, run + [a]) && Final(s, run + [a]) == Next(Final(s, run), a)
    decreases |run|
  {
    if run == [] {
      assert (run + [a])[1..] == [];
      assert ValidRun(Next(s, a), []);
    } else {
      Append(Next(s, run[0]), run[1..], a);
      assert (run + [a])[1..] == run[1..] + [a];
    }
  }

  /**
   The second check: if sweeps may be a whole renew window apart, a run that keeps the schedule
   lets the certificate lapse without any sweep having selected it.
   */
  lemma LongIntervalLetsCertLapse(c: Settings, latency: int) returns (s: State, run: seq<Action>)
    requires c.interval >= 1 && 0 <= c.renewBefore < c.ttl && c.interval >= c.renewBefore
    ensures s.settings == c && s.latency == latency && Init(s) && ValidRun(s, run) && NoSkips(run)
    ensures Final(s, run).now >= Expiry(Final(s, run)) && Final(s, run).pending == map[]
  {
    s := State(c, latency, 0.0, 0.0, 0.0, map[], None);
    run := IdleSweeps(s, (c.ttl - c.renewBefore) as real, c.ttl - c.renewBefore);
    Append(s, run, Pass(c.ttl as real));
    run := run + [Pass(c.ttl as real)];
  }
}
