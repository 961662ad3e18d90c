/**
 The generation protocol that carries a change of a hub's client list to the hub.

 A caller commits a change to the client table, bumps `reconfig_requested_gen`, re-reads it
 in a later transaction and queues a task with what it read. A worker takes the hub's advisory
 lock, reads the server row, coalesces or reads the ready clients, writes the hub and raises
 `reconfig_applied_gen`. All of these steps interleave freely, together with provisioning
 (which writes the hub under the same lock and never touches the counters), duplicate
 delivery, failures, crashes and, in the loose protocol, a lock that is dropped while its
 holder carries on.
 */
module Reconfigure {
  import opened Common

  datatype Status = Pending | Ready | Errored

  datatype Client = Client(server: nat, status: Status, publicKey: string)

  type Table = map<nat, Client>

  /** What `_ready_clients_for` selects, and so what a hub write puts on the hub. */
  function ReadyClients(table: Table, server: nat): Table {
    map c | c in table && table[c].server == server && table[c].status == Ready :: table[c]
  }

  const MAX_RETRIES: nat := 30

  /** `generation` is None for messages queued before the counters existed. */
  datatype Kind = Reconfiguration(generation: Option<nat>) | Provisioning

  datatype Outcome = Applied | Coalesced | Failed | Skipped

  /**
   Where a task stands. `target` is `reconfig_requested_gen` as the server row showed it (None
   while provisioning); `floor` is the newest version committed when the server row was read.
   */
  datatype Phase =
    | Queued
    | Locked
    | ServerRead(target: Option<nat>, floor: nat)
    | ClientsRead(target: Option<nat>, version: nat, peers: Table)
    | Written(target: Option<nat>)
    | Finished(outcome: Outcome)
  {
    predicate Running() {
      !Queued? && !Finished?
    }

    predicate Succeeded() {
      Finished? && (outcome == Applied || outcome == Coalesced)
    }
  }

  datatype Task = Task(kind: Kind, retries: nat, phase: Phase)

  /** A caller of `request_reconfigure`: its change is `version`, its own bump `generation`. */
  datatype Request =
    | Committed(version: nat)
    | Bumped(version: nat, generation: nat)
    | Sent(version: nat, generation: nat, task: nat)

  /** One increment of the requested generation: who made it, and the newest version then. */
  datatype Bump = Bump(version: nat, caller: nat)

  datatype State = State(
    server: nat,
    history: seq<Table>,
    requested: nat,
    applied: nat,
    bumps: seq<Bump>,
    hub: Table,
    hubVersion: nat,
    lock: Option<nat>,
    requests: map<nat, Request>,
    tasks: map<nat, Task>)

  datatype Action =
    | Commit(table: Table, requester: Option<nat>)
    | BumpRequested(caller: nat)
    | Dispatch(caller: nat, task: nat)
    | EnqueueLegacy(task: nat)
    | EnqueueProvisioning(task: nat)
    | DeliverAgain(task: nat, copy: nat)
    | Acquire(task: nat)
    | Contend(task: nat)
    | ReadServer(task: nat)
    | ReadClients(task: nat, version: nat)
    | WriteHub(task: nat)
    | RecordApplied(task: nat)
    | Fail(task: nat)
    | Release(task: nat)
    | Crash(task: nat)
    | LoseLock

  /** The hub has exactly the rows of `table` that belong to it and are ready, each as it is there. */
  ghost predicate HubHolds(s: State, table: Table) {
    forall c: nat ::
      && (c in s.hub <==> c in table && table[c].server == s.server && table[c].status == Ready)
      && (c in s.hub && c in table ==> s.hub[c] == table[c])
  }

  /** The counters start in sync with the hub; nothing is in flight. */
  ghost predicate Init(s: State) {
    && |s.history| == 1
    && s.requested == s.applied == 0
    && s.bumps == []
    && HubHolds(s, s.history[0])
    && s.hubVersion == 0
    && s.lock == None
    && s.requests == map[]
    && s.tasks == map[]
  }

  predicate Enabled(s: State, a: Action) {
    match a
    case Commit(_, caller) => caller.Some? ==> caller.value !in s.requests
    case BumpRequested(caller) =>
      s.history != [] && caller in s.requests && s.requests[caller].Committed?
    case Dispatch(caller, t) =>
      caller in s.requests && s.requests[caller].Bumped? && t !in s.tasks
    case EnqueueLegacy(t) => t !in s.tasks
    case EnqueueProvisioning(t) => t !in s.tasks
    case DeliverAgain(t, copy) => t in s.tasks && copy !in s.tasks
    case Acquire(t) => t in s.tasks && s.tasks[t].phase.Queued? && s.lock == None
    case Contend(t) => t in s.tasks && s.tasks[t].phase.Queued?
    case ReadServer(t) => s.history != [] && t in s.tasks && s.tasks[t].phase.Locked?
    // The server row and the client list are two reads of one session: the second sees a
    // version no older than the first did. That admits a frozen snapshot and fresh reads alike.
    case ReadClients(t, version) =>
      t in s.tasks && s.tasks[t].phase.ServerRead?
      && s.tasks[t].phase.floor <= version < |s.history|
    case WriteHub(t) => t in s.tasks && s.tasks[t].phase.ClientsRead?
    case RecordApplied(t) => t in s.tasks && s.tasks[t].phase.Written?
    case Fail(t) => t in s.tasks && s.tasks[t].phase.Running()
    case Release(t) => t in s.tasks && s.tasks[t].phase.Finished? && s.lock == Some(t)
    case Crash(t) => t in s.tasks && (s.tasks[t].phase.Running() || s.lock == Some(t))
    case LoseLock => s.lock.Some?
  }

  function SetPhase(s: State, t: nat, p: Phase): State
    requires t in s.tasks
  {
    s.(tasks := s.tasks[t := s.tasks[t].(phase := p)])
  }

  function Enqueue(s: State, t: nat, kind: Kind): State {
    s.(tasks := s.tasks[t := Task(kind, 0, Queued)])
  }

  function Next(s: State, a: Action): State
    requires Enabled(s, a)
  {
    match a
    case Commit(table, caller) =>
      var s' := s.(history := s.history + [table]);
      if caller.None? then s'
      else s'.(requests := s.requests[caller.value := Committed(|s.history|)])
    case BumpRequested(caller) =>
      var g := s.requested + 1;
      s.(requested := g,
         bumps := s.bumps + [Bump(|s.history| - 1, caller)],
         requests := s.requests[caller := Bumped(s.requests[caller].version, g)])
    case Dispatch(caller, t) =>
      var r := s.requests[caller];
      Enqueue(s, t, Reconfiguration(Some(s.requested)))
        .(requests := s.requests[caller := Sent(r.version, r.generation, t)])
    case EnqueueLegacy(t) => Enqueue(s, t, Reconfiguration(None))
    case EnqueueProvisioning(t) => Enqueue(s, t, Provisioning)
    case DeliverAgain(t, copy) => Enqueue(s, copy, s.tasks[t].kind)
    case Acquire(t) => SetPhase(s, t, Locked).(lock := Some(t))
    case Contend(t) =>
      var task := s.tasks[t];
      if task.kind.Provisioning? then SetPhase(s, t, Finished(Skipped))
      else if task.retries == MAX_RETRIES then SetPhase(s, t, Finished(Failed))
      else s.(tasks := s.tasks[t := task.(retries := task.retries + 1)])
    case ReadServer(t) =>
      var kind := s.tasks[t].kind;
      if kind.Reconfiguration? && kind.generation.Some? && s.applied >= kind.generation.value
      then SetPhase(s, t, Finished(Coalesced))
      else
        var target := if kind.Reconfiguration? then Some(s.requested) else None;
        SetPhase(s, t, ServerRead(target, |s.history| - 1))
    case ReadClients(t, version) =>
      var peers := ReadyClients(s.history[version], s.server);
      SetPhase(s, t, ClientsRead(s.tasks[t].phase.target, version, peers))
    case WriteHub(t) =>
      var p := s.tasks[t].phase;
      SetPhase(s, t, Written(p.target)).(hub := p.peers, hubVersion := p.version)
    case RecordApplied(t) =>
      var target := s.tasks[t].phase.target;
      var s' := SetPhase(s, t, Finished(Applied));
      if target.Some? && s.applied < target.value then s'.(applied := target.value) else s'
    case Fail(t) => SetPhase(s, t, Finished(Failed))
    case Release(t) => s.(lock := None)
    case Crash(t) =>
      var s' := SetPhase(s, t, Queued);
      if s.lock == Some(t) then s'.(lock := None) else s'
    case LoseLock => s.(lock := None)
  }

  // ---------------------------------------------------------------------------
  // Runs
  // ---------------------------------------------------------------------------

  predicate ValidRun(s: State, run: seq<Action>)
    decreases |run|
  {
    run == [] || (Enabled(s, run[0]) && ValidRun(Next(s, run[0]), run[1..]))
  }

  function Final(s: State, run: seq<Action>): State
    requires ValidRun(s, run)
    decreases |run|
  {
    if run == [] then s else Final(Next(s, run[0]), run[1..])
  }

  /** The lock is only ever given up by the task that holds it. */
  predicate Exclusive(run: seq<Action>) {
    forall i :: 0 <= i < |run| ==> !run[i].LoseLock?
  }

  // ---------------------------------------------------------------------------
  // Properties
  // ---------------------------------------------------------------------------

  /** Every generation up to `g` was requested no later than `version`. */
  predicate Covers(s: State, version: nat, g: nat) {
    forall i :: 0 <= i < g && i < |s.bumps| ==> s.bumps[i].version <= version
  }

  /**
   No update is lost: the hub holds a committed client list that was read no earlier than any
   change whose request generation counts as applied.
   */
  ghost predicate NoLostUpdate(s: State) {
    && s.hubVersion < |s.history|
    && HubHolds(s, s.history[s.hubVersion])
    && Covers(s, s.hubVersion, s.applied)
    && (forall c ::
          c in s.requests && !s.requests[c].Committed? && s.requests[c].generation <= s.applied
          ==> s.requests[c].version <= s.hubVersion)
  }

  /** A caller whose task reported success has its change on the hub. */
  ghost predicate SuccessMeansCovered(s: State) {
    forall c :: c in s.requests && s.requests[c].Sent? && s.requests[c].task in s.tasks
      && s.tasks[s.requests[c].task].phase.Succeeded()
      ==> s.requests[c].version <= s.hubVersion
  }

  // ---------------------------------------------------------------------------
  // Invariants
  // ---------------------------------------------------------------------------

  ghost predicate RequestOk(s: State, c: nat)
    requires c in s.requests
  {
    match s.requests[c]
    case Committed(version) => version < |s.history|
    case Bumped(version, g) =>
      1 <= g <= |s.bumps| && s.bumps[g - 1].caller == c && version <= s.bumps[g - 1].version
    case Sent(version, g, t) =>
      && 1 <= g <= |s.bumps| && s.bumps[g - 1].caller == c && version <= s.bumps[g - 1].version
      && t in s.tasks && s.tasks[t].kind.Reconfiguration? && s.tasks[t].kind.generation.Some?
      && g <= s.tasks[t].kind.generation.value
  }

  ghost predicate BumpOk(s: State, i: nat)
    requires i < |s.bumps|
  {
    var b := s.bumps[i];
    && b.version < |s.history|
    && b.caller in s.requests
    && !s.requests[b.caller].Committed?
    && s.requests[b.caller].generation == i + 1
  }

  /** A target read for a task is a real generation and reaches the one it was queued for. */
  ghost predicate TargetOk(s: State, kind: Kind, target: Option<nat>) {
    match kind
    case Provisioning => target == None
    case Reconfiguration(generation) =>
      && target.Some? && target.value <= s.requested
      && (generation.Some? ==> generation.value <= target.value)
  }

  ghost predicate TaskOk(s: State, t: nat)
    requires t in s.tasks
  {
    var task := s.tasks[t];
    && (task.kind.Reconfiguration? && task.kind.generation.Some?
        ==> task.kind.generation.value <= s.requested)
    && match task.phase
       case ServerRead(target, floor) =>
         && TargetOk(s, task.kind, target) && floor < |s.history|
         && (target.Some? ==> Covers(s, floor, target.value))
       case ClientsRead(target, version, peers) =>
         && TargetOk(s, task.kind, target) && version < |s.history|
         && peers == ReadyClients(s.history[version], s.server)
         && (target.Some? ==> Covers(s, version, target.value))
       case Written(target) => TargetOk(s, task.kind, target)
       case Finished(outcome) =>
         task.phase.Succeeded() && task.kind.Reconfiguration? && task.kind.generation.Some?
         ==> task.kind.generation.value <= s.applied
       case _ => true
  }

  /** What every step keeps, even one that loses the lock. */
  ghost predicate LooseInv(s: State) {
    && |s.history| >= 1
    && |s.bumps| == s.requested
    && s.applied <= s.requested
    && s.hubVersion < |s.history|
    && s.hub == ReadyClients(s.history[s.hubVersion], s.server)
    && (forall i :: 0 <= i < |s.bumps| ==> BumpOk(s, i))
    && (forall c :: c in s.requests ==> RequestOk(s, c))
    && (forall t :: t in s.tasks ==> TaskOk(s, t))
  }

  /** What mutual exclusion adds for a running task: nobody writes the hub behind its back. */
  ghost predicate HolderOk(s: State, t: nat)
    requires t in s.tasks
  {
    var p := s.tasks[t].phase;
    && (p.Running() ==> s.lock == Some(t))
    && (p.ServerRead? ==> s.hubVersion <= p.floor)
    && (p.ClientsRead? ==> s.hubVersion <= p.version)
    && (p.Written? && p.target.Some? ==> Covers(s, s.hubVersion, p.target.value))
  }

  ghost predicate Inv(s: State) {
    && LooseInv(s)
    && Covers(s, s.hubVersion, s.applied)
    && (s.lock.Some? ==> s.lock.value in s.tasks && !s.tasks[s.lock.value].phase.Queued?)
    && (forall t :: t in s.tasks ==> HolderOk(s, t))
  }

  /** What the query selects is what the hub must hold. */
  lemma ReadyIsHeld(s: State, table: Table)
    ensures s.hub == ReadyClients(table, s.server) <==> HubHolds(s, table)
  {
    var ready := ReadyClients(table, s.server);
    if HubHolds(s, table) {
      assert s.hub.Keys == ready.Keys;
    }
  }

  lemma InitInv(s: State)
    requires Init(s)
    ensures Inv(s)
  {
    ReadyIsHeld(s, s.history[0]);
  }

  /** Everything a task or a request relies on only ever grows. */
  ghost predicate Extends(s: State, s': State) {
    && s'.server == s.server
    && s.history <= s'.history
    && s.bumps <= s'.bumps
    && s.applied <= s'.applied
    && |s.bumps| == s.requested <= s'.requested
  }

  /** The task an action moves, if any. */
  function Mover(a: Action): Option<nat> {
    match a
    case Commit(_, _) => None
    case BumpRequested(_) => None
    case LoseLock => None
    case DeliverAgain(_, copy) => Some(copy)
    case _ => Some(a.task)
  }

  lemma NextExtends(s: State, a: Action)
    requires LooseInv(s) && Enabled(s, a)
    ensures Extends(s, Next(s, a))
    ensures forall t :: t in Next(s, a).tasks && Mover(a) != Some(t) ==>
      t in s.tasks && Next(s, a).tasks[t] == s.tasks[t]
    ensures Next(s, a).applied <= Next(s, a).requested == |Next(s, a).bumps|
  {
    if a.RecordApplied? {
      assert TaskOk(s, a.task);
    }
  }

  lemma TaskFrame(s: State, s': State, t: nat)
    requires Extends(s, s') && t in s.tasks && t in s'.tasks && s'.tasks[t] == s.tasks[t]
    requires TaskOk(s, t)
    ensures TaskOk(s', t)
  {
  }

  /** The steps of a task that can break its own invariant. */
  lemma MoverStep(s: State, a: Action, t: nat)
    requires LooseInv(s) && Enabled(s, a) && Mover(a) == Some(t)
    ensures TaskOk(Next(s, a), t)
  {
    assert t in s.tasks ==> TaskOk(s, t);
    match a
    case DeliverAgain(original, _) => assert TaskOk(s, original);
    case ReadServer(_) =>
      forall i | 0 <= i < |s.bumps| ensures s.bumps[i].version < |s.history| {
        assert BumpOk(s, i);
      }
    case _ =>
  }

  lemma BumpStep(s: State, a: Action, i: nat)
    requires LooseInv(s) && Enabled(s, a) && i < |Next(s, a).bumps|
    ensures BumpOk(Next(s, a), i)
  {
    if i < |s.bumps| {
      assert BumpOk(s, i) && RequestOk(s, s.bumps[i].caller);
    }
  }

  /** The caller whose request an action changes, if any. */
  function Asker(a: Action): Option<nat> {
    match a
    case Commit(_, requester) => requester
    case BumpRequested(caller) => Some(caller)
    case Dispatch(caller, _) => Some(caller)
    case _ => None
  }

  lemma RequestStep(s: State, a: Action, c: nat)
    requires LooseInv(s) && Enabled(s, a) && Asker(a) == Some(c)
    ensures c in Next(s, a).requests && RequestOk(Next(s, a), c)
  {
    assert c in s.requests ==> RequestOk(s, c);
  }

  lemma OtherRequests(s: State, a: Action)
    requires Enabled(s, a)
    ensures forall c :: c in Next(s, a).requests && Asker(a) != Some(c) ==>
      c in s.requests && Next(s, a).requests[c] == s.requests[c]
    ensures forall t :: t in s.tasks ==>
      t in Next(s, a).tasks && Next(s, a).tasks[t].kind == s.tasks[t].kind
  {
  }

  lemma RequestFrame(s: State, s': State, c: nat)
    requires Extends(s, s') && c in s.requests && c in s'.requests
    requires s'.requests[c] == s.requests[c] && RequestOk(s, c)
    requires forall t :: t in s.tasks ==> t in s'.tasks && s'.tasks[t].kind == s.tasks[t].kind
    ensures RequestOk(s', c)
  {
  }

  /** Whatever happens, even without mutual exclusion, the counters stay ordered. */
  lemma LooseStep(s: State, a: Action)
    requires LooseInv(s) && Enabled(s, a)
    ensures LooseInv(Next(s, a))
    ensures s.applied <= Next(s, a).applied
    ensures s.requested <= Next(s, a).requested
  {
    var s' := Next(s, a);
    NextExtends(s, a);
    OtherRequests(s, a);
    forall i | 0 <= i < |s'.bumps| ensures BumpOk(s', i) { BumpStep(s, a, i); }
    forall c | c in s'.requests ensures RequestOk(s', c) {
      if Asker(a) == Some(c) { RequestStep(s, a, c); } else { RequestFrame(s, s', c); }
    }
    forall t | t in s'.tasks ensures TaskOk(s', t) {
      if Mover(a) == Some(t) { MoverStep(s, a, t); } else { TaskFrame(s, s', t); }
    }
    if a.WriteHub? {
      assert TaskOk(s, a.task);
    }
  }

  /** While a task runs, no other task moves the lock or the hub. */
  lemma OthersWait(s: State, a: Action, t: nat)
    requires Inv(s) && Enabled(s, a) && !a.LoseLock?
    requires t in s.tasks && Mover(a) != Some(t) && s.tasks[t].phase.Running()
    ensures Next(s, a).lock == s.lock && Next(s, a).hubVersion == s.hubVersion
  {
    assert HolderOk(s, t);
    if Mover(a).Some? && Mover(a).value in s.tasks {
      assert HolderOk(s, Mover(a).value);
    }
  }

  lemma HolderMoves(s: State, a: Action, t: nat)
    requires Inv(s) && Enabled(s, a) && Mover(a) == Some(t)
    ensures t in Next(s, a).tasks && HolderOk(Next(s, a), t)
  {
    if t in s.tasks {
      assert HolderOk(s, t) && TaskOk(s, t);
    }
  }

  lemma HolderFrame(s: State, s': State, t: nat)
    requires Extends(s, s') && t in s.tasks && t in s'.tasks && s'.tasks[t] == s.tasks[t]
    requires TaskOk(s, t) && HolderOk(s, t)
    requires s.tasks[t].phase.Running() ==> s'.lock == s.lock && s'.hubVersion == s.hubVersion
    ensures HolderOk(s', t)
  {
  }

  lemma LockStep(s: State, a: Action)
    requires Enabled(s, a)
    requires s.lock.Some? ==> s.lock.value in s.tasks && !s.tasks[s.lock.value].phase.Queued?
    ensures var s' := Next(s, a);
      s'.lock.Some? ==> s'.lock.value in s'.tasks && !s'.tasks[s'.lock.value].phase.Queued?
  {
  }

  /** The hub only moves forward, and far enough for what is recorded as applied. */
  lemma HubStep(s: State, a: Action)
    requires Inv(s) && Enabled(s, a) && !a.LoseLock?
    ensures s.hubVersion <= Next(s, a).hubVersion
    ensures Covers(Next(s, a), Next(s, a).hubVersion, Next(s, a).applied)
  {
    NextExtends(s, a);
    if a.WriteHub? || a.RecordApplied? {
      assert HolderOk(s, a.task);
    }
  }

  /** With mutual exclusion the hub never goes back and the invariant is kept. */
  lemma ExclusiveStep(s: State, a: Action)
    requires Inv(s) && Enabled(s, a) && !a.LoseLock?
    ensures Inv(Next(s, a))
    ensures s.hubVersion <= Next(s, a).hubVersion
  {
    LooseStep(s, a);
    LockStep(s, a);
    HubStep(s, a);
    NextExtends(s, a);
    var s' := Next(s, a);
    forall t | t in s'.tasks ensures HolderOk(s', t) {
      if Mover(a) == Some(t) {
        HolderMoves(s, a, t);
      } else {
        if s.tasks[t].phase.Running() { OthersWait(s, a, t); }
        HolderFrame(s, s', t);
      }
    }
  }

  // ---------------------------------------------------------------------------
  // Main results, over whole runs
  // ---------------------------------------------------------------------------

  /** The counters, over any run at all: `applied` only rises and never passes `requested`. */
  lemma {:induction false} CountersOrdered(s: State, run: seq<Action>)
    requires LooseInv(s) && ValidRun(s, run)
    ensures LooseInv(Final(s, run))
    ensures s.applied <= Final(s, run).applied <= Final(s, run).requested
    decreases |run|
  {
    if run != [] {
      LooseStep(s, run[0]);
      CountersOrdered(Next(s, run[0]), run[1..]);
    }
  }

  lemma {:induction false} ExclusiveRun(s: State, run: seq<Action>)
    requires Inv(s) && ValidRun(s, run) && Exclusive(run)
    ensures Inv(Final(s, run))
    ensures s.hubVersion <= Final(s, run).hubVersion
    decreases |run|
  {
    if run != [] {
      ExclusiveStep(s, run[0]);
      ExclusiveRun(Next(s, run[0]), run[1..]);
    }
  }

  lemma InvMeansSafe(s: State)
    requires Inv(s)
    ensures NoLostUpdate(s) && SuccessMeansCovered(s)
  {
    ReadyIsHeld(s, s.history[s.hubVersion]);
    forall c | c in s.requests && !s.requests[c].Committed? && s.requests[c].generation <= s.applied
      ensures s.requests[c].version <= s.hubVersion
    {
      assert RequestOk(s, c);
    }
    forall c | c in s.requests && s.requests[c].Sent? && s.requests[c].task in s.tasks
      && s.tasks[s.requests[c].task].phase.Succeeded()
      ensures s.requests[c].version <= s.hubVersion
    {
      assert RequestOk(s, c) && TaskOk(s, s.requests[c].task);
    }
  }

  /** In every interleaving that keeps mutual exclusion, no update is ever lost. */
  lemma NoUpdateIsEverLost(s: State, run: seq<Action>)
    requires Init(s) && ValidRun(s, run) && Exclusive(run)
    ensures NoLostUpdate(Final(s, run))
    ensures SuccessMeansCovered(Final(s, run))
  {
    InitInv(s);
    ExclusiveRun(s, run);
    InvMeansSafe(Final(s, run));
  }

  /** Task `t` is about to read the server row and will find its generation applied. */
  predicate Coalesces(s: State, t: nat) {
    && Enabled(s, ReadServer(t))
    && s.tasks[t].kind.Reconfiguration? && s.tasks[t].kind.generation.Some?
    && Next(s, ReadServer(t)).tasks[t].phase == Finished(Coalesced)
  }

  /**
   A task that coalesces, the caller's own, a redelivered copy or anyone else's, leaves covered every
   change requested no later than the generation it was queued with, at once and for good.
   */
  lemma CoalescedIsCovered(s: State, run: seq<Action>, c: nat, t: nat, later: seq<Action>)
    requires Init(s) && ValidRun(s, run) && Exclusive(run)
    requires c in Final(s, run).requests && !Final(s, run).requests[c].Committed?
    requires Coalesces(Final(s, run), t)
    requires Final(s, run).requests[c].generation <= Final(s, run).tasks[t].kind.generation.value
    requires ValidRun(Next(Final(s, run), ReadServer(t)), later) && Exclusive(later)
    ensures Next(Final(s, run), ReadServer(t)).hub == Final(s, run).hub
    ensures Final(s, run).requests[c].version
      <= Final(Next(Final(s, run), ReadServer(t)), later).hubVersion
  {
    InitInv(s);
    ExclusiveRun(s, run);
    var m := Final(s, run);
    assert RequestOk(m, c);
    InvMeansSafe(m);
    ExclusiveStep(m, ReadServer(t));
    ExclusiveRun(Next(m, ReadServer(t)), later);
  }

  /** `family` and every copy that the run makes of its members, copies of copies included. */
  function Copies(run: seq<Action>, family: set<nat>): set<nat> {
    if run == [] then family
    else Copies(run[1..], if run[0].DeliverAgain? && run[0].task in family then family + {run[0].copy} else family)
  }

  lemma KindsStay(s: State, a: Action, t: nat)
    requires Enabled(s, a) && t in s.tasks
    ensures t in Next(s, a).tasks && Next(s, a).tasks[t].kind == s.tasks[t].kind
    ensures a.DeliverAgain? && a.task == t ==> a.copy in Next(s, a).tasks && Next(s, a).tasks[a.copy].kind == s.tasks[t].kind
  {
  }

  lemma {:induction false} CopiesShareTheKind(s: State, run: seq<Action>, family: set<nat>, kind: Kind)
    requires ValidRun(s, run) && forall t :: t in family ==> t in s.tasks && s.tasks[t].kind == kind
    ensures forall t :: t in Copies(run, family) ==> t in Final(s, run).tasks && Final(s, run).tasks[t].kind == kind
    decreases |run|
  {
    if run != [] {
      var a := run[0];
      forall t | t in family ensures t in Next(s, a).tasks && Next(s, a).tasks[t].kind == kind { KindsStay(s, a, t); }
      if a.DeliverAgain? && a.task in family {
        KindsStay(s, a, a.task);
        CopiesShareTheKind(Next(s, a), run[1..], family + {a.copy}, kind);
      } else {
        CopiesShareTheKind(Next(s, a), run[1..], family, kind);
      }
    }
  }

  /**
   The task a caller dispatches and every copy of it that any later run makes carry a generation
   that reaches the caller's own bump.
   */
  lemma CopiesReachTheBump(s: State, c: nat, t: nat, later: seq<Action>, copy: nat)
    requires LooseInv(s) && Enabled(s, Dispatch(c, t)) && ValidRun(Next(s, Dispatch(c, t)), later)
    requires copy in Copies(later, {t})
    ensures var f := Final(Next(s, Dispatch(c, t)), later);
      && copy in f.tasks && f.tasks[copy].kind.Reconfiguration? && f.tasks[copy].kind.generation.Some?
      && s.requests[c].generation <= f.tasks[copy].kind.generation.value
  {
    assert RequestOk(s, c);
    CopiesShareTheKind(Next(s, Dispatch(c, t)), later, {t}, Reconfiguration(Some(s.requested)));
  }

  /** A burst costs one restart: once the newest request is applied, the rest coalesce. */
  lemma BurstCoalesces(s: State, run: seq<Action>, t: nat)
    requires Init(s) && ValidRun(s, run)
    requires Final(s, run).applied == Final(s, run).requested
    requires Enabled(Final(s, run), ReadServer(t))
    requires Final(s, run).tasks[t].kind.Reconfiguration?
    requires Final(s, run).tasks[t].kind.generation.Some?
    ensures Coalesces(Final(s, run), t)
  {
    InitInv(s);
    CountersOrdered(s, run);
    assert TaskOk(Final(s, run), t);
  }

  /** Every caller has sent its request and every such task ended applied or coalesced. */
  ghost predicate Settled(s: State) {
    forall c :: c in s.requests ==>
      && s.requests[c].Sent? && s.requests[c].task in s.tasks
      && s.tasks[s.requests[c].task].phase.Succeeded()
  }

  /** Client `c` is one of the hub's peers in `table`. */
  predicate IsPeer(table: Table, server: nat, c: nat) {
    c in table && table[c].server == server && table[c].status == Ready
  }

  /** Version `v` made a client a peer of the hub, or no longer one, or changed the row of a peer. */
  predicate ListChanged(s: State, v: nat)
    requires 1 <= v < |s.history|
  {
    var was, now := s.history[v - 1], s.history[v];
    exists c :: c in was.Keys + now.Keys &&
      (IsPeer(was, s.server, c) != IsPeer(now, s.server, c) || (IsPeer(now, s.server, c) && was[c] != now[c]))
  }

  predicate RequestedSince(s: State, v: nat) {
    exists c :: c in s.requests && s.requests[c].version >= v
  }

  /** Every change of the hub's peer list was followed by a request; other commits need none. */
  predicate EveryChangeRequested(s: State) {
    forall v :: 1 <= v < |s.history| && ListChanged(s, v) ==> RequestedSince(s, v)
  }

  lemma {:induction false} ListUnchanged(s: State, from: nat, to: nat)
    requires from <= to < |s.history| && forall v :: from < v <= to ==> !ListChanged(s, v)
    requires HubHolds(s, s.history[from])
    ensures HubHolds(s, s.history[to])
  {
    if from < to {
      ListUnchanged(s, from, to - 1);
      assert !ListChanged(s, to);
      SameList(s, to);
    }
  }

  lemma SameList(s: State, v: nat)
    requires 1 <= v < |s.history| && !ListChanged(s, v) && HubHolds(s, s.history[v - 1])
    ensures HubHolds(s, s.history[v])
  {
    var was, now := s.history[v - 1], s.history[v];
    forall c: nat ensures IsPeer(was, s.server, c) == IsPeer(now, s.server, c)
      && (IsPeer(now, s.server, c) ==> was[c] == now[c])
    {
      if c in was.Keys + now.Keys {
      }
    }
    forall c: nat ensures
      && (c in s.hub <==> c in now && now[c].server == s.server && now[c].status == Ready)
      && (c in s.hub && c in now ==> s.hub[c] == now[c])
    {
      assert IsPeer(was, s.server, c) == IsPeer(now, s.server, c);
    }
  }

  /** Convergence: once the requests have settled, the hub has caught up with the database. */
  lemma Converges(s: State, run: seq<Action>)
    requires Init(s) && ValidRun(s, run) && Exclusive(run)
    requires Settled(Final(s, run)) && EveryChangeRequested(Final(s, run))
    ensures var f := Final(s, run);
      && f.applied == f.requested
      && |f.history| >= 1
      && HubHolds(f, f.history[|f.history| - 1])
  {
    InitInv(s);
    ExclusiveRun(s, run);
    var f := Final(s, run);
    InvMeansSafe(f);
    AllApplied(f);
    forall v | f.hubVersion < v < |f.history| ensures !ListChanged(f, v) {
      assert !RequestedSince(f, v);
    }
    ListUnchanged(f, f.hubVersion, |f.history| - 1);
  }

  /**
   Row by row: whoever is on the hub is a ready client of it in the table version last written there,
   and the other way round; once the requests have settled, in the newest version.
   */
  lemma HubRows(s: State, run: seq<Action>, c: nat)
    requires Init(s) && ValidRun(s, run) && Exclusive(run)
    ensures var f := Final(s, run);
      && f.hubVersion < |f.history|
      && var table := f.history[f.hubVersion];
         && (c in f.hub <==> c in table && table[c].server == f.server && table[c].status == Ready)
         && (c in f.hub ==> f.hub[c] == table[c])
    ensures var f := Final(s, run);
      Settled(f) && EveryChangeRequested(f) ==>
        && |f.history| >= 1
        && var newest := f.history[|f.history| - 1];
           && (c in f.hub <==> c in newest && newest[c].server == f.server && newest[c].status == Ready)
           && (c in f.hub ==> f.hub[c] == newest[c])
  {
    NoUpdateIsEverLost(s, run);
    if Settled(Final(s, run)) && EveryChangeRequested(Final(s, run)) {
      Converges(s, run);
    }
  }

  lemma AllApplied(f: State)
    requires LooseInv(f) && Settled(f)
    ensures f.applied == f.requested
  {
    if f.requested > 0 {
      assert BumpOk(f, f.requested - 1);
      var c := f.bumps[f.requested - 1].caller;
      assert RequestOk(f, c) && TaskOk(f, f.requests[c].task);
    }
  }

  // ---------------------------------------------------------------------------
  // What the lock is for
  // ---------------------------------------------------------------------------

  /** Some run, exclusive or not, ends in `s`. */
  ghost predicate Reachable(s: State) {
    exists s0, run :: Init(s0) && ValidRun(s0, run) && Final(s0, run) == s
  }

  lemma {:induction false} Snoc(s: State, run: seq<Action>, a: Action)
    requires ValidRun(s, run) && Enabled(Final(s, run), a)
    ensures ValidRun(s, run + [a])
    ensures Final(s, run + [a]) == Next(Final(s, run), a)
    decreases |run|
  {
    if run == [] {
      assert ValidRun(Next(s, a), []);
      assert (run + [a])[1..] == [];
    } else {
      Snoc(Next(s, run[0]), run[1..], a);
      assert (run + [a])[1..] == run[1..] + [a];
    }
  }

  lemma ReachableNext(s: State, a: Action)
    requires Reachable(s) && Enabled(s, a)
    ensures Reachable(Next(s, a))
  {
    var s0, run :| Init(s0) && ValidRun(s0, run) && Final(s0, run) == s;
    Snoc(s0, run, a);
  }

  lemma Commits(s: State, table: Table, c: nat) returns (s': State)
    requires Reachable(s) && c !in s.requests
    ensures Reachable(s')
    ensures s' == s.(history := s.history + [table],
                     requests := s.requests[c := Committed(|s.history|)])
  {
    ReachableNext(s, Commit(table, Some(c)));
    s' := Next(s, Commit(table, Some(c)));
  }

  /** A caller bumps and dispatches, without interruption. */
  lemma Asks(s: State, c: nat, t: nat) returns (s': State)
    requires Reachable(s) && t !in s.tasks && s.history != []
    requires c in s.requests && s.requests[c].Committed?
    ensures Reachable(s')
    ensures s' == s.(requested := s.requested + 1,
                     bumps := s.bumps + [Bump(|s.history| - 1, c)],
                     requests := s.requests[c := Sent(s.requests[c].version, s.requested + 1, t)],
                     tasks := s.tasks[t := Task(Reconfiguration(Some(s.requested + 1)), 0, Queued)])
  {
    ReachableNext(s, BumpRequested(c));
    s' := Next(s, BumpRequested(c));
    ReachableNext(s', Dispatch(c, t));
    s' := Next(s', Dispatch(c, t));
  }

  /** A task takes the lock and reads the newest client list, without interruption. */
  lemma Loads(s: State, t: nat) returns (s': State)
    requires Reachable(s) && s.history != [] && s.lock == None
    requires t in s.tasks && s.tasks[t] == Task(Reconfiguration(Some(s.requested)), 0, Queued)
    requires s.applied < s.requested
    ensures Reachable(s')
    ensures var newest := |s.history| - 1;
      var peers := ReadyClients(s.history[newest], s.server);
      s' == SetPhase(s, t, ClientsRead(Some(s.requested), newest, peers)).(lock := Some(t))
  {
    ReachableNext(s, Acquire(t));
    s' := Next(s, Acquire(t));
    ReachableNext(s', ReadServer(t));
    s' := Next(s', ReadServer(t));
    ReachableNext(s', ReadClients(t, |s.history| - 1));
    s' := Next(s', ReadClients(t, |s.history| - 1));
  }

  /** A task writes the list it read and records the target it read before it. */
  lemma Writes(s: State, t: nat) returns (s': State)
    requires Reachable(s) && t in s.tasks && s.tasks[t].phase.ClientsRead?
    requires s.tasks[t].phase.target.Some? && s.applied < s.tasks[t].phase.target.value
    ensures Reachable(s')
    ensures var p := s.tasks[t].phase;
      s' == SetPhase(s, t, Finished(Applied))
            .(hub := p.peers, hubVersion := p.version, applied := p.target.value)
  {
    ReachableNext(s, WriteHub(t));
    s' := Next(s, WriteHub(t));
    ReachableNext(s', RecordApplied(t));
    s' := Next(s', RecordApplied(t));
  }

  /** A caller commits a change and asks for it, without interruption. */
  lemma Changes(s: State, table: Table, c: nat, t: nat) returns (s': State)
    requires Reachable(s) && c !in s.requests && t !in s.tasks
    ensures Reachable(s')
    ensures s' == s.(history := s.history + [table],
                     requested := s.requested + 1,
                     bumps := s.bumps + [Bump(|s.history|, c)],
                     requests := s.requests[c := Sent(|s.history|, s.requested + 1, t)],
                     tasks := s.tasks[t := Task(Reconfiguration(Some(s.requested + 1)), 0, Queued)])
  {
    s' := Commits(s, table, c);
    s' := Asks(s', c, t);
    assert s'.requests == s.requests[c := Sent(|s.history|, s.requested + 1, t)];
  }

  lemma DropsLock(s: State) returns (s': State)
    requires Reachable(s) && s.lock.Some?
    ensures Reachable(s') && s' == s.(lock := None)
  {
    ReachableNext(s, LoseLock);
    s' := Next(s, LoseLock);
  }

  lemma WritesLate(s: State, t: nat) returns (s': State)
    requires Reachable(s) && t in s.tasks && s.tasks[t].phase.ClientsRead?
    requires s.applied == |s.bumps| > 0
    requires s.bumps[s.applied - 1].version > s.tasks[t].phase.version
    ensures Reachable(s') && !NoLostUpdate(s')
  {
    ReachableNext(s, WriteHub(t));
    s' := Next(s, WriteHub(t));
  }

  /**
   If the lock is dropped while its holder carries on, an update can be lost: the first task
   writes its older list over the newer one the second task recorded as applied.
   */
  lemma LosingTheLockLosesAnUpdate() returns (s: State)
    ensures Reachable(s) && !NoLostUpdate(s)
  {
    s := ReadsThenLosesTheLock();
    s := Overtaken(s);
    s := WritesLate(s, 11);
  }

  /** Task 11 has read the list with client 1 when its lock is dropped. */
  lemma ReadsThenLosesTheLock() returns (s: State)
    ensures Reachable(s) && s.lock == None && |s.history| == 2 && s.requested == |s.bumps| == 1 && s.applied == 0
    ensures s.requests.Keys == {1} && s.tasks.Keys == {11}
    ensures s.tasks[11].phase.ClientsRead? && s.tasks[11].phase.version == 1
  {
    s := State(0, [map[]], 0, 0, [], map[], 0, None, map[], map[]);
    assert Init(s) && ValidRun(s, []) && Final(s, []) == s;
    s := Changes(s, map[1 := Client(0, Ready, "a")], 1, 11);
    s := Loads(s, 11);
    s := DropsLock(s);
  }

  /** A second change is requested, written and recorded by task 12 meanwhile. */
  lemma Overtaken(s: State) returns (s': State)
    requires Reachable(s) && s.lock == None && |s.history| == 2 && s.requested == |s.bumps| == 1 && s.applied == 0
    requires s.requests.Keys == {1} && s.tasks.Keys == {11}
    requires s.tasks[11].phase.ClientsRead? && s.tasks[11].phase.version == 1
    ensures Reachable(s') && s'.applied == |s'.bumps| == 2 && s'.bumps[1].version == 2
    ensures 11 in s'.tasks && s'.tasks[11] == s.tasks[11]
  {
    s' := Changes(s, map[], 2, 12);
    s' := Loads(s', 12);
    s' := Writes(s', 12);
  }
}
