/**
 Runs in which the lock may be lost: an update is lost exactly at a hub write of a list that is too
 old for what is recorded as applied, or at recording more than the hub's list covers.
 */
module LockLoss {
  import opened Common
  import opened Reconfigure

  /** Generation `g` was requested no later than `version`, and so was every earlier one. */
  predicate UpTo(s: State, version: nat, g: nat) {
    g == 0 || (g <= |s.bumps| && s.bumps[g - 1].version <= version)
  }

  /** Later generations were requested at later versions. */
  predicate Ascending(s: State) {
    forall i, j :: 0 <= i < j < |s.bumps| ==> s.bumps[i].version <= s.bumps[j].version
  }

  /** What a task can compare before it writes the hub or raises `applied`. */
  predicate Keeps(s: State, a: Action)
    requires Enabled(s, a)
  {
    match a
    case WriteHub(t) => UpTo(s, s.tasks[t].phase.version, s.applied)
    case RecordApplied(t) =>
      var target := s.tasks[t].phase.target;
      target.Some? && s.applied < target.value ==> UpTo(s, s.hubVersion, target.value)
    case _ => true
  }

  lemma CoversIff(s: State, version: nat, g: nat)
    requires Ascending(s) && g <= |s.bumps|
    ensures Covers(s, version, g) <==> UpTo(s, version, g)
  {
  }

  lemma SafeIff(s: State)
    requires LooseInv(s) && Ascending(s)
    ensures NoLostUpdate(s) <==> UpTo(s, s.hubVersion, s.applied)
  {
    CoversIff(s, s.hubVersion, s.applied);
    ReadyIsHeld(s, s.history[s.hubVersion]);
    forall c | Covers(s, s.hubVersion, s.applied) && c in s.requests && !s.requests[c].Committed?
        && s.requests[c].generation <= s.applied
      ensures s.requests[c].version <= s.hubVersion
    {
      assert RequestOk(s, c);
    }
  }

  /** What a step does to the hub and the counters. */
  lemma Effect(s: State, a: Action)
    requires Enabled(s, a)
    ensures Next(s, a).hubVersion == if a.WriteHub? then s.tasks[a.task].phase.version else s.hubVersion
    ensures Next(s, a).applied ==
      if a.RecordApplied? && s.tasks[a.task].phase.target.Some? && s.applied < s.tasks[a.task].phase.target.value
      then s.tasks[a.task].phase.target.value else s.applied
    ensures Next(s, a).bumps == if a.BumpRequested? then s.bumps + [Bump(|s.history| - 1, a.caller)] else s.bumps
  {
  }

  lemma AscendingStep(s: State, a: Action)
    requires LooseInv(s) && Ascending(s) && Enabled(s, a)
    ensures Ascending(Next(s, a))
  {
    Effect(s, a);
    forall i | 0 <= i < |s.bumps| ensures s.bumps[i].version < |s.history| { assert BumpOk(s, i); }
  }

  /** A step loses no update exactly when what it writes or records is recent enough. */
  lemma StepKeepsIff(s: State, a: Action)
    requires LooseInv(s) && Ascending(s) && NoLostUpdate(s) && Enabled(s, a)
    ensures NoLostUpdate(Next(s, a)) <==> Keeps(s, a)
  {
    LooseStep(s, a);
    AscendingStep(s, a);
    SafeIff(s);
    SafeIff(Next(s, a));
    Effect(s, a);
    RecordTarget(s, a);
  }

  lemma RecordTarget(s: State, a: Action)
    requires LooseInv(s) && Enabled(s, a)
    ensures a.RecordApplied? && s.tasks[a.task].phase.target.Some? ==> s.tasks[a.task].phase.target.value <= |s.bumps|
  {
    if a.RecordApplied? {
      assert TaskOk(s, a.task);
    }
  }

  /**
   The comparison a worker can make: if `applied`, read again just before the write, has not passed
   the target the task read before its list, writing the list loses nothing.
   */
  lemma RecheckSuffices(s: State, t: nat)
    requires LooseInv(s) && Ascending(s) && Enabled(s, WriteHub(t))
    requires s.tasks[t].phase.target.Some? && s.applied <= s.tasks[t].phase.target.value
    ensures Keeps(s, WriteHub(t))
  {
    assert TaskOk(s, t);
    CoversIff(s, s.tasks[t].phase.version, s.applied);
  }

  ghost predicate SafeThroughout(s: State, run: seq<Action>)
    requires ValidRun(s, run)
    decreases |run|
  {
    NoLostUpdate(s) && (run != [] ==> SafeThroughout(Next(s, run[0]), run[1..]))
  }

  predicate KeepsThroughout(s: State, run: seq<Action>)
    requires ValidRun(s, run)
    decreases |run|
  {
    run != [] ==> Keeps(s, run[0]) && KeepsThroughout(Next(s, run[0]), run[1..])
  }

  lemma {:induction false} SafeRunIff(s: State, run: seq<Action>)
    requires LooseInv(s) && Ascending(s) && NoLostUpdate(s) && ValidRun(s, run)
    ensures SafeThroughout(s, run) <==> KeepsThroughout(s, run)
    decreases |run|
  {
    if run != [] {
      LooseStep(s, run[0]);
      AscendingStep(s, run[0]);
      StepKeepsIff(s, run[0]);
      if Keeps(s, run[0]) {
        SafeRunIff(Next(s, run[0]), run[1..]);
      }
    }
  }

  /**
   Over every run, lock lost or not: no update is lost at any point if and only if every hub write
   and every record of `applied` passes its comparison.
   */
  lemma NoLossExactlyWhenKept(s: State, run: seq<Action>)
    requires Init(s) && ValidRun(s, run)
    ensures SafeThroughout(s, run) <==> KeepsThroughout(s, run)
  {
    InitInv(s);
    InvMeansSafe(s);
    SafeRunIff(s, run);
  }
}
