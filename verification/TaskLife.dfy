/** The life of one task: taking and giving up the lock, being turned away, crashing and ending. */
module TaskLife {
  import opened Common
  import opened Reconfigure

  // ---------------------------------------------------------------------------
  // Taking and giving up the lock
  // ---------------------------------------------------------------------------

  /** Whoever holds the lock keeps it until it releases it, dies, or the lock is lost; nobody else frees it. */
  lemma LockIsTheHolders(s: State, a: Action, t: nat)
    requires Enabled(s, a) && s.lock == Some(t)
    ensures Next(s, a).lock == if a == Release(t) || a == Crash(t) || a == LoseLock then None else Some(t)
  {
  }

  /** A free lock stays free unless a task takes it, and then that task has it. */
  lemma FreeLockIsTaken(s: State, a: Action)
    requires Enabled(s, a) && s.lock == None
    ensures Next(s, a).lock == if a.Acquire? then Some(a.task) else None
  {
  }

  /** A finished task can always give its lock up, and the next one can then take it. */
  lemma LockIsHandedOn(s: State, t: nat, next: nat)
    requires t in s.tasks && s.tasks[t].phase.Finished? && s.lock == Some(t)
    requires next in s.tasks && s.tasks[next].phase.Queued?
    ensures Enabled(s, Release(t)) && Enabled(Next(s, Release(t)), Acquire(next))
    ensures Next(Next(s, Release(t)), Acquire(next)).lock == Some(next)
  {
  }

  /** How often task `t` finds the lock taken in the run. */
  function Contended(run: seq<Action>, t: nat): nat {
    if run == [] then 0 else (if run[0] == Contend(t) then 1 else 0) + Contended(run[1..], t)
  }

  /** The lock is not held by a task that is still queued. */
  predicate HolderStarted(s: State) {
    s.lock.Some? ==> s.lock.value in s.tasks && !s.tasks[s.lock.value].phase.Queued?
  }

  /** A reconfigure task that has given up: out of retries, failed, and without the lock. */
  predicate GaveUp(s: State, t: nat) {
    t in s.tasks && s.tasks[t].phase == Finished(Failed) && s.lock != Some(t)
  }

  lemma RetryStep(s: State, a: Action, t: nat)
    requires Enabled(s, a) && HolderStarted(s) && t in s.tasks && s.tasks[t].kind.Reconfiguration?
    ensures t in Next(s, a).tasks && Next(s, a).tasks[t].kind == s.tasks[t].kind
    ensures if a == Contend(t) && s.tasks[t].retries == 30 then GaveUp(Next(s, a), t) && Next(s, a).tasks[t].retries == 30
      else Next(s, a).tasks[t].retries == s.tasks[t].retries + if a == Contend(t) then 1 else 0
    ensures GaveUp(s, t) ==> a != Contend(t) && GaveUp(Next(s, a), t)
  {
  }

  /**
   A reconfigure task that finds the lock taken tries again up to 30 times and then fails for good, in every run:
   its retries are the times it was turned away, and the next time ends it.
   */
  lemma {:induction false} RetriesRunOut(s: State, run: seq<Action>, t: nat)
    requires HolderStarted(s) && ValidRun(s, run)
    requires t in s.tasks && s.tasks[t].kind.Reconfiguration? && s.tasks[t].retries <= 30
    ensures var f, turned := Final(s, run), s.tasks[t].retries + Contended(run, t);
      && t in f.tasks && f.tasks[t].retries == Min(30, turned)
      && (turned > 30 ==> f.tasks[t].phase == Finished(Failed))
    ensures GaveUp(s, t) ==> GaveUp(Final(s, run), t) && Contended(run, t) == 0
    decreases |run|
  {
    if run != [] {
      LockStep(s, run[0]);
      RetryStep(s, run[0], t);
      RetriesRunOut(Next(s, run[0]), run[1..], t);
    }
  }

  // ---------------------------------------------------------------------------
  // Endings
  // ---------------------------------------------------------------------------

  /** Task `t` has ended with this outcome and let go of the lock. */
  predicate Ended(s: State, t: nat, outcome: Outcome) {
    t in s.tasks && s.tasks[t].phase == Finished(outcome) && s.lock != Some(t)
  }

  lemma EndedStep(s: State, a: Action, t: nat, outcome: Outcome)
    requires Enabled(s, a) && Ended(s, t, outcome)
    ensures Ended(Next(s, a), t, outcome)
  {
  }

  /** An ended task stays ended, and its outcome stands. */
  lemma {:induction false} EndedForGood(s: State, run: seq<Action>, t: nat, outcome: Outcome)
    requires ValidRun(s, run) && Ended(s, t, outcome)
    ensures Ended(Final(s, run), t, outcome)
    decreases |run|
  {
    if run != [] {
      EndedStep(s, run[0], t, outcome);
      EndedForGood(Next(s, run[0]), run[1..], t, outcome);
    }
  }

  /** Provisioning that finds the lock taken is skipped for good, with nothing written. */
  lemma TurnedAwayProvisioningIsSkipped(s: State, t: nat, later: seq<Action>)
    requires HolderStarted(s) && Enabled(s, Contend(t)) && s.tasks[t].kind.Provisioning?
    requires ValidRun(Next(s, Contend(t)), later)
    ensures Next(s, Contend(t)).hub == s.hub
    ensures Ended(Final(Next(s, Contend(t)), later), t, Skipped)
  {
    EndedForGood(Next(s, Contend(t)), later, t, Skipped);
  }

  /** A failed attempt is reported as such and, once the lock is released, for good. */
  lemma FailureStands(s: State, t: nat, later: seq<Action>)
    requires Enabled(s, Fail(t)) && s.lock == Some(t)
    requires ValidRun(Next(Next(s, Fail(t)), Release(t)), later)
    ensures Ended(Final(Next(Next(s, Fail(t)), Release(t)), later), t, Failed)
  {
    EndedForGood(Next(Next(s, Fail(t)), Release(t)), later, t, Failed);
  }

  predicate NeverCoalesces(s: State, t: nat) {
    t in s.tasks && s.tasks[t].kind == Reconfiguration(None) && s.tasks[t].phase != Finished(Coalesced)
  }

  lemma LegacyStep(s: State, a: Action, t: nat)
    requires Enabled(s, a) && NeverCoalesces(s, t)
    ensures NeverCoalesces(Next(s, a), t)
  {
  }

  /** A message queued before the counters existed is never coalesced away. */
  lemma {:induction false} LegacyRun(s: State, run: seq<Action>, t: nat)
    requires ValidRun(s, run) && NeverCoalesces(s, t)
    ensures NeverCoalesces(Final(s, run), t)
    decreases |run|
  {
    if run != [] {
      LegacyStep(s, run[0], t);
      LegacyRun(Next(s, run[0]), run[1..], t);
    }
  }

  lemma LegacyAlwaysApplies(s: State, t: nat, later: seq<Action>)
    requires Enabled(s, EnqueueLegacy(t)) && ValidRun(Next(s, EnqueueLegacy(t)), later)
    ensures NeverCoalesces(Final(Next(s, EnqueueLegacy(t)), later), t)
  {
    LegacyRun(Next(s, EnqueueLegacy(t)), later, t);
  }

  // ---------------------------------------------------------------------------
  // Recovery
  // ---------------------------------------------------------------------------

  /** Some run leads from one state to the other. */
  ghost predicate Leads(s: State, s': State) {
    exists run :: ValidRun(s, run) && Final(s, run) == s'
  }

  lemma LeadsNowhere(s: State)
    ensures Leads(s, s)
  {
    assert ValidRun(s, []) && Final(s, []) == s;
  }

  lemma LeadsOn(s: State, m: State, a: Action)
    requires Leads(s, m) && Enabled(m, a)
    ensures Leads(s, Next(m, a))
  {
    var run :| ValidRun(s, run) && Final(s, run) == m;
    Snoc(s, run, a);
  }

  lemma TakesLock(s: State, t: nat) returns (s': State)
    requires s.lock == None && t in s.tasks && s.tasks[t].phase.Queued?
    ensures Leads(s, s') && s' == SetPhase(s, t, Locked).(lock := Some(t))
  {
    LeadsNowhere(s);
    LeadsOn(s, s, Acquire(t));
    s' := Next(s, Acquire(t));
  }

  /** A task that has the lock reads the server row and stops there, or reads the newest list. */
  lemma ReadsNewest(s: State, m: State, t: nat) returns (s': State)
    requires Leads(s, m) && m.history != [] && t in m.tasks && m.tasks[t].phase.Locked?
    ensures Leads(s, s') && t in s'.tasks && s'.history == m.history && s'.server == m.server
    ensures s'.tasks[t].phase == Finished(Coalesced) ||
      (&& s'.tasks[t].phase.ClientsRead? && s'.tasks[t].phase.version == |m.history| - 1
       && s'.tasks[t].phase.peers == ReadyClients(m.history[|m.history| - 1], m.server))
  {
    LeadsOn(s, m, ReadServer(t));
    s' := Next(m, ReadServer(t));
    if s'.tasks[t].phase.ServerRead? {
      LeadsOn(s, s', ReadClients(t, |m.history| - 1));
      s' := Next(s', ReadClients(t, |m.history| - 1));
    }
  }

  lemma WritesAndRecords(s: State, m: State, t: nat) returns (s': State)
    requires Leads(s, m) && t in m.tasks && m.tasks[t].phase.ClientsRead?
    ensures Leads(s, s') && t in s'.tasks && s'.tasks[t].phase == Finished(Applied)
    ensures s'.hub == m.tasks[t].phase.peers && s'.history == m.history && s'.server == m.server
  {
    LeadsOn(s, m, WriteHub(t));
    s' := Next(m, WriteHub(t));
    LeadsOn(s, s', RecordApplied(t));
    s' := Next(s', RecordApplied(t));
  }

  /** Any queued task can get through when the lock is free: it coalesces, or brings the hub up to date. */
  lemma QueuedTaskGetsThrough(s: State, t: nat) returns (f: State)
    requires s.history != [] && s.lock == None && t in s.tasks && s.tasks[t].phase.Queued?
    ensures Leads(s, f) && t in f.tasks && f.tasks[t].phase.Succeeded()
    ensures f.tasks[t].phase == Finished(Applied) ==> HubHolds(f, s.history[|s.history| - 1])
  {
    var m := TakesLock(s, t);
    f := ReadsNewest(s, m, t);
    if f.tasks[t].phase.ClientsRead? {
      f := WritesAndRecords(s, f, t);
      ReadyIsHeld(f, s.history[|s.history| - 1]);
    }
  }

  /** A crash costs no request: the task is queued again as it was and, the lock being free, can get through. */
  lemma CrashedTaskRecovers(s: State, t: nat) returns (f: State)
    requires s.history != [] && Enabled(s, Crash(t)) && (s.lock == Some(t) || s.lock == None)
    ensures var s' := Next(s, Crash(t));
      && t in s'.tasks && s'.tasks[t] == s.tasks[t].(phase := Queued) && s'.lock == None
      && Leads(s', f) && t in f.tasks && f.tasks[t].phase.Succeeded()
  {
    f := QueuedTaskGetsThrough(Next(s, Crash(t)), t);
  }
}
