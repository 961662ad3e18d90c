/** What holds over whole runs of concurrent redemptions. */
module EnrollmentRuns {
  import opened Common
  import opened Ipam
  import opened Tokens
  import opened Enrollment

  predicate ValidRun(s: State, run: seq<Action>)
    decreases |run|
  {
    run == [] || (Enabled(s, run[0]) && ValidRun(Next(s, run[0]), run[1..]))
  }

  function Final(s: State, run: seq<Action>): State
    requires ValidRun(s, run)
    decreases |run|
  {
    if run == [] then s else Final(Next(s, run[0]), run[1..])
  }

  /** Whoever takes a hub's lock sees every client committed on the hub by then. */
  predicate CurrentReads(s: State, run: seq<Action>)
    requires ValidRun(s, run)
    decreases |run|
  {
    run != [] ==>
      && (run[0].Acquire? ==> Current(s, run[0].x))
      && CurrentReads(Next(s, run[0]), run[1..])
  }

  // ---------------------------------------------------------------------------
  // Addresses and keys
  // ---------------------------------------------------------------------------

  lemma {:induction false} InvRun(s: State, run: seq<Action>)
    requires Inv(s) && ValidRun(s, run) && CurrentReads(s, run)
    ensures Inv(Final(s, run))
    decreases |run|
  {
    if run != [] {
      Step(s, run[0]);
      InvRun(Next(s, run[0]), run[1..]);
    }
  }

  /** At READ COMMITTED the assumption on reads holds of every run. */
  lemma {:induction false} ReadCommittedIsCurrent(s: State, run: seq<Action>)
    requires s.isolation.ReadCommitted? && ValidRun(s, run)
    ensures CurrentReads(s, run)
    decreases |run|
  {
    if run != [] {
      OthersStay(s, run[0]);
      ReadCommittedIsCurrent(Next(s, run[0]), run[1..]);
    }
  }

  /**
   Over all interleavings whose reads under the lock are current, the clients of a hub never
   share an address or a key, and every address is a usable host address of its hub.
   */
  lemma ClientsStayDistinct(s: State, run: seq<Action>)
    requires Init(s) && ValidRun(s, run) && CurrentReads(s, run)
    ensures Distinct(Final(s, run).clients)
    ensures Placed(Final(s, run).hubs, Final(s, run).log)
  {
    InitInv(s);
    InvRun(s, run);
  }

  lemma ReadCommittedKeepsClientsDistinct(s: State, run: seq<Action>)
    requires Init(s) && s.isolation.ReadCommitted? && ValidRun(s, run)
    ensures Distinct(Final(s, run).clients)
    ensures Placed(Final(s, run).hubs, Final(s, run).log)
  {
    ReadCommittedIsCurrent(s, run);
    ClientsStayDistinct(s, run);
  }

  // ---------------------------------------------------------------------------
  // Token accounts and token life, at any isolation level
  // ---------------------------------------------------------------------------

  lemma {:induction false} RowRun(s: State, run: seq<Action>)
    requires RowInv(s) && ValidRun(s, run)
    ensures RowInv(Final(s, run))
    decreases |run|
  {
    if run != [] {
      RowStep(s, run[0]);
      RowRun(Next(s, run[0]), run[1..]);
    }
  }

  /** Every use of a token is one client row committed through it, up to its cap. */
  lemma UsesAreConserved(s: State, run: seq<Action>)
    requires Quiet(s) && ValidRun(s, run)
    ensures Conserved(Final(s, run))
  {
    RowRun(s, run);
  }

  /** A step keeps a token row, consumes it, revokes it, or sweeps it once it is dead. */
  lemma TokenEvolves(s: State, a: Action, t: nat)
    requires RowInv(s) && Enabled(s, a) && t in s.minted
    ensures t in Next(s, a).minted && s.now <= Next(s, a).now
    ensures t !in s.tokens ==> t !in Next(s, a).tokens
    ensures t in s.tokens && t in Next(s, a).tokens ==> Evolves(s.tokens[t], Next(s, a).tokens[t])
    ensures t in s.tokens && t !in Next(s, a).tokens ==>
      a.Sweep? && (IsExpired(s.tokens[t], s.now) || s.tokens[t].revokedAt.Some?)
  {
    if a.Commit? {
      assert RowOk(s, a.x);
    }
  }

  /** A sweep deletes exactly the tokens that expired or were revoked more than the retention ago. */
  lemma SweepExactly(s: State, retention: nat, t: nat)
    requires Enabled(s, Sweep(retention)) && t in s.tokens
    ensures var row := s.tokens[t];
      t !in Next(s, Sweep(retention)).tokens <==>
        || row.expiresAt + retention < s.now
        || (row.revokedAt.Some? && row.revokedAt.value + retention < s.now)
    ensures t in Next(s, Sweep(retention)).tokens ==> Next(s, Sweep(retention)).tokens[t] == s.tokens[t]
  {
    DeadIsInactive(s.tokens[t], retention, s.now);
  }

  /** The token exists and can be redeemed at the state's time. */
  predicate IsActive(s: State, t: nat) {
    t in s.tokens && TokenStatus(s.tokens[t], s.now) == Active
  }

  /** Once a token is revoked, expired, exhausted or swept, it is never active again. */
  lemma {:induction false} NeverActiveAgain(s: State, run: seq<Action>, t: nat)
    requires RowInv(s) && ValidRun(s, run) && t in s.minted && !IsActive(s, t)
    ensures !IsActive(Final(s, run), t)
    decreases |run|
  {
    if run != [] {
      var s' := Next(s, run[0]);
      RowStep(s, run[0]);
      TokenEvolves(s, run[0], t);
      if t in s.tokens && t in s'.tokens {
        InactiveForGood(s.tokens[t], s'.tokens[t], s.now, s'.now);
      }
      NeverActiveAgain(s', run[1..], t);
    }
  }

  /** Revoked, used up or swept: nothing can be consumed from the token any more. */
  predicate Closed(s: State, t: nat) {
    t in s.minted && (t in s.tokens ==> Consumed(s.tokens[t]).None?)
  }

  lemma ClosedStep(s: State, a: Action, t: nat)
    requires RowInv(s) && Enabled(s, a) && Closed(s, t)
    ensures Closed(Next(s, a), t)
    ensures CountVia(Next(s, a).log, t) == CountVia(s.log, t)
  {
    TokenEvolves(s, a, t);
    if a.Commit? {
      assert RowOk(s, a.x);
      CountSnoc(s.log, s.redemptions[a.x].phase.client, t);
    }
  }

  /**
   Once a revoke has committed, or the last use, or the sweep, no redemption of the token ever
   commits, not even one that had checked the token before.
   */
  lemma {:induction false} NoClientAfterClosing(s: State, run: seq<Action>, t: nat)
    requires RowInv(s) && ValidRun(s, run) && Closed(s, t)
    ensures Closed(Final(s, run), t)
    ensures CountVia(Final(s, run).log, t) == CountVia(s.log, t)
    decreases |run|
  {
    if run != [] {
      RowStep(s, run[0]);
      ClosedStep(s, run[0], t);
      NoClientAfterClosing(Next(s, run[0]), run[1..], t);
    }
  }

  // ---------------------------------------------------------------------------
  // REPEATABLE READ
  // ---------------------------------------------------------------------------

  /** The addresses the commit log put on a hub. */
  function Logged(log: seq<Client>, server: nat): set<nat> {
    set i | 0 <= i < |log| && log[i].server == server :: log[i].address
  }

  /** No client has been committed on the redemption's hub since it looked its token up. */
  predicate NoCommitSince(s: State, x: nat)
    requires x in s.redemptions
  {
    forall j :: s.redemptions[x].seen <= j < |s.log| ==> s.log[j].server != s.redemptions[x].server
  }

  predicate NoDeletes(run: seq<Action>) {
    forall i :: 0 <= i < |run| ==> !run[i].Delete?
  }

  /** Every lock so far was taken with no commit on the hub since the token lookup. */
  predicate FreshLocks(s: State, run: seq<Action>)
    requires ValidRun(s, run)
    decreases |run|
  {
    run != [] ==>
      && (run[0].Acquire? ==> NoCommitSince(s, run[0].x))
      && FreshLocks(Next(s, run[0]), run[1..])
  }

  /** A snapshot with no later commit on its hub still shows all of the hub's clients. */
  predicate SnapshotSees(s: State, x: nat)
    requires x in s.redemptions
  {
    && s.redemptions[x].seen <= |s.log|
    && (NoCommitSince(s, x) ==>
          SeesHub(s.redemptions[x].snapshot, s.clients, s.redemptions[x].server))
  }

  lemma LogAfter(s: State, a: Action)
    requires Enabled(s, a)
    ensures Next(s, a).log == if a.Commit? then s.log + [s.redemptions[a.x].phase.client] else s.log
  {
  }

  lemma OnlyPhaseMoves(s: State, a: Action, x: nat)
    requires Enabled(s, a) && x in s.redemptions && x in Next(s, a).redemptions
    ensures Next(s, a).redemptions[x] == s.redemptions[x].(phase := Next(s, a).redemptions[x].phase)
  {
  }

  lemma SnapshotSeesStep(s: State, s': State, a: Action, x: nat)
    requires Enabled(s, a) && s' == Next(s, a) && x in s.redemptions && x in s'.redemptions
    requires SnapshotSees(s, x)
    ensures SnapshotSees(s', x)
  {
    LogAfter(s, a);
    OnlyPhaseMoves(s, a, x);
    ClientsAfter(s, a);
    if NoCommitSince(s', x) {
      assert forall j :: s.redemptions[x].seen <= j < |s.log| ==> s'.log[j] == s.log[j];
      assert a.Commit? ==> s'.log[|s.log|].server != s.redemptions[x].server;
    }
  }

  lemma NewSnapshotSees(s: State, a: Action)
    requires Enabled(s, a) && a.Check?
    ensures a.x in Next(s, a).redemptions && SnapshotSees(Next(s, a), a.x)
    ensures forall x :: x in Next(s, a).redemptions ==> x in s.redemptions || x == a.x
  {
  }

  lemma NoNewRedemption(s: State, a: Action)
    requires Enabled(s, a) && !a.Check?
    ensures Next(s, a).redemptions.Keys == s.redemptions.Keys
  {
  }

  /** A lock taken with no commit on the hub since the token lookup is taken with current reads. */
  lemma {:induction false} FreshLocksAreCurrent(s: State, run: seq<Action>)
    requires ValidRun(s, run) && FreshLocks(s, run)
    requires forall x :: x in s.redemptions ==> SnapshotSees(s, x)
    ensures CurrentReads(s, run)
    decreases |run|
  {
    if run != [] {
      var a := run[0];
      var s' := Next(s, a);
      if a.Acquire? {
        assert SnapshotSees(s, a.x);
      }
      forall x | x in s'.redemptions ensures SnapshotSees(s', x) {
        if a.Check? { NewSnapshotSees(s, a); } else { NoNewRedemption(s, a); }
        if x in s.redemptions { SnapshotSeesStep(s, s', a, x); }
      }
      FreshLocksAreCurrent(s', run[1..]);
    }
  }

  /** At any isolation level, deletions included: redemptions that lock fresh stay distinct. */
  lemma FreshLocksKeepClientsDistinct(s: State, run: seq<Action>)
    requires Init(s) && ValidRun(s, run) && FreshLocks(s, run)
    ensures Distinct(Final(s, run).clients)
    ensures Placed(Final(s, run).hubs, Final(s, run).log)
  {
    FreshLocksAreCurrent(s, run);
    ClientsStayDistinct(s, run);
  }

  /** Addresses on a hub, given what was there before the log began. */
  function Held(base: Clients, log: seq<Client>, server: nat): set<nat> {
    AddressesOf(base, server) + Logged(log, server)
  }

  /** The lowest address free on a hub after `log`. */
  function NextAddress(s: State, base: Clients, log: seq<Client>, server: nat): Option<nat> {
    if server in s.hubs && Valid(s.hubs[server].network)
    then Allocate(s.hubs[server].network, s.hubs[server].serverIp, Held(base, log, server))
    else None
  }

  /** Row `i` of the log got the lowest address free on its hub at the time. */
  predicate GreedyAt(s: State, base: Clients, i: nat)
    requires i < |s.log|
  {
    NextAddress(s, base, s.log[..i], s.log[i].server) == Some(s.log[i].address)
  }

  ghost predicate HoldsExactly(clients: Clients, base: Clients, log: seq<Client>) {
    forall h :: AddressesOf(clients, h) == Held(base, log, h)
  }

  ghost predicate SnapshotOk(s: State, base: Clients, x: nat)
    requires x in s.redemptions
  {
    var r := s.redemptions[x];
    && r.server in s.hubs
    && r.seen <= |s.log|
    && AddressesOf(r.snapshot, r.server) == Held(base, s.log[..r.seen], r.server)
    && (r.phase.HasLock() ==>
          r.server in s.locks && s.locks[r.server] == x && NoCommitSince(s, x))
    && (r.phase.Admitted? ==>
          && r.phase.client.server == r.server
          && NextAddress(s, base, s.log, r.server) == Some(r.phase.client.address))
  }

  ghost predicate SnapshotInv(s: State, base: Clients) {
    && s.isolation.RepeatableRead?
    && (forall h :: h in s.hubs ==> Valid(s.hubs[h].network))
    && HoldsExactly(s.clients, base, s.log)
    && (forall i :: 0 <= i < |s.log| ==> GreedyAt(s, base, i))
    && (forall x :: x in s.redemptions ==> SnapshotOk(s, base, x))
  }

  lemma LoggedSnoc(log: seq<Client>, c: Client, server: nat)
    ensures Logged(log + [c], server) == Logged(log, server) + (if c.server == server then {c.address} else {})
  {
    var all := log + [c];
    assert all[|log|] == c;
    forall a | a in Logged(log, server) ensures a in Logged(all, server) {
      var i :| 0 <= i < |log| && log[i].server == server && log[i].address == a;
      assert all[i] == log[i];
    }
  }

  lemma {:induction false} LoggedQuiet(log: seq<Client>, k: nat, server: nat)
    requires k <= |log| && forall j :: k <= j < |log| ==> log[j].server != server
    ensures Logged(log[..k], server) == Logged(log, server)
    decreases |log|
  {
    if k == |log| {
      assert log[..k] == log;
    } else {
      var front := log[..|log| - 1];
      assert log == front + [log[|log| - 1]] && front[..k] == log[..k];
      LoggedSnoc(front, log[|log| - 1], server);
      LoggedQuiet(front, k, server);
    }
  }

  lemma AddressesAfterInsert(clients: Clients, id: nat, c: Client, server: nat)
    requires id !in clients
    ensures AddressesOf(clients[id := c], server)
      == AddressesOf(clients, server) + (if c.server == server then {c.address} else {})
  {
    var all := clients[id := c];
    assert id in all && all[id] == c;
    forall a | a in AddressesOf(clients, server) ensures a in AddressesOf(all, server) {
      var d :| d in clients && clients[d].server == server && clients[d].address == a;
      assert d in all && all[d] == clients[d];
    }
  }

  /** Away from commits, steps leave the log and, without deletions, the clients alone. */
  lemma QuietStep(s: State, a: Action)
    requires Enabled(s, a) && !a.Commit? && !a.Delete?
    ensures Next(s, a).log == s.log && Next(s, a).clients == s.clients
  {
  }

  lemma CheckSnapshot(s: State, a: Action, base: Clients)
    requires SnapshotInv(s, base) && Enabled(s, a) && a.Check?
    ensures a.x in Next(s, a).redemptions && SnapshotOk(Next(s, a), base, a.x)
  {
    assert s.log[..|s.log|] == s.log;
  }

  /** What a redemption is given under a fresh lock is the hub's next address. */
  lemma AdmitSnapshot(s: State, x: nat, base: Clients)
    requires SnapshotInv(s, base) && Enabled(s, Admit(x))
    ensures var r := s.redemptions[x];
      NextAddress(s, base, s.log, r.server) == Some(Candidate(s, r).value.address)
  {
    assert SnapshotOk(s, base, x);
    LoggedQuiet(s.log, s.redemptions[x].seen, s.redemptions[x].server);
  }

  /** The other steps only move a redemption between phases. */
  lemma MoverSnapshot(s: State, a: Action, base: Clients, x: nat)
    requires SnapshotInv(s, base) && Enabled(s, a) && !a.Commit? && !a.Check? && Mover(a) == Some(x)
    requires a.Acquire? ==> NoCommitSince(s, x)
    ensures x in Next(s, a).redemptions && SnapshotOk(Next(s, a), base, x)
  {
    assert SnapshotOk(s, base, x);
    if a.Admit? {
      AdmitSnapshot(s, x, base);
    }
    QuietStep(s, a);
    assert Next(s, a).redemptions[x] == s.redemptions[x].(phase := Next(s, a).redemptions[x].phase);
  }

  /** A redemption that does not move stays in order while the log stands still. */
  lemma QuietFrame(s: State, s': State, base: Clients, y: nat)
    requires y in s.redemptions && y in s'.redemptions && s'.redemptions[y] == s.redemptions[y]
    requires SnapshotOk(s, base, y) && s'.log == s.log && s'.hubs == s.hubs
    requires s.redemptions[y].phase.HasLock() ==>
      s.redemptions[y].server in s'.locks && s'.locks[s.redemptions[y].server] == y
    ensures SnapshotOk(s', base, y)
  {
  }

  lemma QuietSnapshot(s: State, a: Action, base: Clients, y: nat)
    requires SnapshotInv(s, base) && Enabled(s, a) && !a.Commit? && !a.Delete?
    requires a.Acquire? ==> NoCommitSince(s, a.x)
    requires y in Next(s, a).redemptions
    ensures SnapshotOk(Next(s, a), base, y)
  {
    if a.Check? && a.x == y {
      CheckSnapshot(s, a, base);
    } else if Mover(a) == Some(y) {
      MoverSnapshot(s, a, base, y);
    } else {
      QuietStep(s, a);
      OthersStay(s, a);
      if s.redemptions[y].phase.HasLock() { LockKept(s, a, y); }
      QuietFrame(s, Next(s, a), base, y);
    }
  }

  lemma QuietInv(s: State, a: Action, base: Clients)
    requires SnapshotInv(s, base) && Enabled(s, a) && !a.Commit? && !a.Delete?
    requires a.Acquire? ==> NoCommitSince(s, a.x)
    ensures SnapshotInv(Next(s, a), base)
  {
    var s' := Next(s, a);
    forall y | y in s'.redemptions ensures SnapshotOk(s', base, y) {
      QuietSnapshot(s, a, base, y);
    }
    QuietStep(s, a);
    OthersStay(s, a);
    QuietGreedy(s, s', base);
  }

  lemma QuietGreedy(s: State, s': State, base: Clients)
    requires s'.log == s.log && s'.hubs == s.hubs && forall i :: 0 <= i < |s.log| ==> GreedyAt(s, base, i)
    ensures forall i :: 0 <= i < |s'.log| ==> GreedyAt(s', base, i)
  {
    forall i | 0 <= i < |s'.log| ensures GreedyAt(s', base, i) {
      assert GreedyAt(s, base, i);
    }
  }

  /** What a commit of `c` changes. */
  ghost predicate Inserted(s: State, s': State, id: nat, c: Client) {
    && s'.isolation == s.isolation && s'.hubs == s.hubs && s'.locks == s.locks
    && s'.log == s.log + [c] && id !in s.clients && s'.clients == s.clients[id := c]
  }

  lemma CommitInserts(s: State, x: nat, id: nat)
    requires Enabled(s, Commit(x, id))
    ensures Inserted(s, Next(s, Commit(x, id)), id, s.redemptions[x].phase.client)
  {
  }

  lemma HeldAfterInsert(s: State, s': State, base: Clients, id: nat, c: Client)
    requires Inserted(s, s', id, c) && HoldsExactly(s.clients, base, s.log)
    ensures HoldsExactly(s'.clients, base, s'.log)
  {
    forall h ensures AddressesOf(s'.clients, h) == Held(base, s'.log, h) {
      AddressesAfterInsert(s.clients, id, c, h);
      LoggedSnoc(s.log, c, h);
    }
  }

  lemma GreedyAfterInsert(s: State, s': State, base: Clients, id: nat, c: Client, i: nat)
    requires Inserted(s, s', id, c) && i < |s'.log|
    requires i < |s.log| ==> GreedyAt(s, base, i)
    requires NextAddress(s, base, s.log, c.server) == Some(c.address)
    ensures GreedyAt(s', base, i)
  {
    assert s'.log[..i] == s.log[..i];
    assert i == |s.log| ==> s.log[..i] == s.log;
  }

  lemma IdleAfterInsert(s: State, s': State, base: Clients, id: nat, c: Client, y: nat)
    requires Inserted(s, s', id, c) && y in s.redemptions && y in s'.redemptions
    requires s'.redemptions[y] == s.redemptions[y].(phase := s'.redemptions[y].phase)
    requires SnapshotOk(s, base, y) && !s'.redemptions[y].phase.HasLock()
    ensures SnapshotOk(s', base, y)
  {
    assert s'.log[..s.redemptions[y].seen] == s.log[..s.redemptions[y].seen];
  }

  lemma HolderAfterInsert(s: State, s': State, base: Clients, id: nat, c: Client, y: nat)
    requires Inserted(s, s', id, c) && y in s.redemptions && y in s'.redemptions
    requires s'.redemptions[y] == s.redemptions[y] && SnapshotOk(s, base, y)
    requires c.server != s.redemptions[y].server
    ensures SnapshotOk(s', base, y)
  {
    var r := s.redemptions[y];
    assert s'.log[..r.seen] == s.log[..r.seen];
    LoggedSnoc(s.log, c, r.server);
    assert Held(base, s'.log, r.server) == Held(base, s.log, r.server);
  }

  lemma CommitInv(s: State, base: Clients, x: nat, id: nat)
    requires SnapshotInv(s, base) && Enabled(s, Commit(x, id))
    ensures SnapshotInv(Next(s, Commit(x, id)), base)
  {
    var s' := Next(s, Commit(x, id));
    var c := s.redemptions[x].phase.client;
    CommitInserts(s, x, id);
    OthersStay(s, Commit(x, id));
    HeldAfterInsert(s, s', base, id, c);
    assert SnapshotOk(s, base, x);
    forall i | 0 <= i < |s'.log| ensures GreedyAt(s', base, i) {
      GreedyAfterInsert(s, s', base, id, c, i);
    }
    forall y | y in s'.redemptions ensures SnapshotOk(s', base, y) {
      assert SnapshotOk(s, base, y);
      if s'.redemptions[y].phase.HasLock() {
        HolderAfterInsert(s, s', base, id, c, y);
      } else {
        IdleAfterInsert(s, s', base, id, c, y);
      }
    }
  }

  lemma SnapshotStep(s: State, a: Action, base: Clients)
    requires SnapshotInv(s, base) && Enabled(s, a) && !a.Delete?
    requires a.Acquire? ==> NoCommitSince(s, a.x)
    ensures SnapshotInv(Next(s, a), base)
  {
    if a.Commit? { CommitInv(s, base, a.x, a.id); } else { QuietInv(s, a, base); }
  }

  lemma {:induction false} SnapshotRun(s: State, run: seq<Action>, base: Clients)
    requires SnapshotInv(s, base) && ValidRun(s, run) && NoDeletes(run) && FreshLocks(s, run)
    ensures SnapshotInv(Final(s, run), base)
    decreases |run|
  {
    if run != [] {
      SnapshotStep(s, run[0], base);
      SnapshotRun(Next(s, run[0]), run[1..], base);
    }
  }

  lemma FreeIffQuiet(f: State, base: Clients, x: nat)
    requires SnapshotInv(f, base) && x in f.redemptions
    ensures var r := f.redemptions[x];
      && r.server in f.hubs
      && var a := Allocate(f.hubs[r.server].network, f.hubs[r.server].serverIp,
                           AddressesOf(r.snapshot, r.server));
         a.Some? ==> (a.value !in AddressesOf(f.clients, r.server) <==> NoCommitSince(f, x))
  {
    assert SnapshotOk(f, base, x);
    var r := f.redemptions[x];
    if NoCommitSince(f, x) {
      LoggedQuiet(f.log, r.seen, r.server);
    } else {
      var j := FirstSince(f.log, r.seen, r.server);
      LoggedQuiet(f.log[..j], r.seen, r.server);
      assert f.log[..j][..r.seen] == f.log[..r.seen];
      assert GreedyAt(f, base, j);
      assert f.log[j].address in Logged(f.log, r.server);
    }
  }

  /**
   At REPEATABLE READ, with no deletions and nothing gone wrong yet, the address the next
   redemption would be given is free on its hub if and only if no client has been committed
   there since its token lookup. One that waited for the lock behind another enrollment of the
   same hub is given that one's address.
   */
  lemma FreeExactlyWhenNoCommitSince(s: State, run: seq<Action>, x: nat)
    requires Init(s) && s.log == [] && s.isolation.RepeatableRead? && ValidRun(s, run)
    requires NoDeletes(run) && FreshLocks(s, run)
    requires x in Final(s, run).redemptions
    ensures var f := Final(s, run);
      var r := f.redemptions[x];
      && r.server in f.hubs && Valid(f.hubs[r.server].network)
      && var a := Allocate(f.hubs[r.server].network, f.hubs[r.server].serverIp,
                           AddressesOf(View(f, r), r.server));
         a.Some? ==> (a.value !in AddressesOf(f.clients, r.server) <==> NoCommitSince(f, x))
  {
    StartSnapshot(s);
    SnapshotRun(s, run, s.clients);
    FreeIffQuiet(Final(s, run), s.clients, x);
  }

  lemma StartSnapshot(s: State)
    requires Init(s) && s.log == [] && s.isolation.RepeatableRead?
    ensures SnapshotInv(s, s.clients)
  {
    forall h ensures AddressesOf(s.clients, h) == Held(s.clients, s.log, h) {
      assert Logged(s.log, h) == {};
    }
  }

  /** The first row committed on the hub at or after position `k`. */
  lemma {:induction false} FirstSince(log: seq<Client>, k: nat, server: nat) returns (j: nat)
    requires exists i :: k <= i < |log| && log[i].server == server
    ensures k <= j < |log| && log[j].server == server
    ensures forall i :: k <= i < j ==> log[i].server != server
    decreases |log| - k
  {
    if log[k].server == server {
      j := k;
    } else {
      j := FirstSince(log, k + 1, server);
    }
  }

  /** Some run leads from `s0` to `s`. */
  ghost predicate From(s0: State, s: State) {
    exists run :: ValidRun(s0, run) && Final(s0, run) == s
  }

  lemma FromHere(s: State)
    ensures From(s, s)
  {
    assert ValidRun(s, []) && Final(s, []) == s;
  }

  lemma {:induction false} Snoc(s: State, run: seq<Action>, a: Action)
    requires ValidRun(s, run) && Enabled(Final(s, run), a)
    ensures ValidRun(s, run + [a])
    ensures Final(s, run + [a]) == Next(Final(s, run), a)
    decreases |run|
  {
    if run == [] {
      assert ValidRun(Next(s, a), []);
      assert (run + [a])[1..] == [];
    } else {
      Snoc(Next(s, run[0]), run[1..], a);
      assert (run + [a])[1..] == run[1..] + [a];
    }
  }

  lemma FromNext(s0: State, s: State, a: Action)
    requires From(s0, s) && Enabled(s, a)
    ensures From(s0, Next(s, a))
  {
    var run :| ValidRun(s0, run) && Final(s0, run) == s;
    Snoc(s0, run, a);
  }

  lemma Checks(s0: State, s: State, x: nat, t: nat, host: string, key: string) returns (s': State)
    requires From(s0, s) && x !in s.redemptions && t in s.tokens && s.tokens[t].server in s.hubs
    requires TokenStatus(s.tokens[t], s.now) == Active
    ensures From(s0, s')
    ensures s' == s.(redemptions := s.redemptions[x :=
      Redemption(t, s.tokens[t].server, host, key, s.clients, |s.log|, Checked)])
  {
    FromNext(s0, s, Check(x, t, host, key));
    s' := Next(s, Check(x, t, host, key));
  }

  lemma Locks(s0: State, s: State, x: nat) returns (s': State)
    requires From(s0, s) && x in s.redemptions && s.redemptions[x].phase.Checked?
    requires s.redemptions[x].server !in s.locks
    ensures From(s0, s')
    ensures s' == Move(s, x, Holding).(locks := s.locks[s.redemptions[x].server := x])
  {
    FromNext(s0, s, Acquire(x));
    s' := Next(s, Acquire(x));
  }

  lemma Consumes(s0: State, s: State, x: nat) returns (s': State)
    requires From(s0, s) && x in s.redemptions && s.redemptions[x].phase.Holding?
    requires s.redemptions[x].token in s.tokens && RowUnlocked(s, s.redemptions[x].token)
    requires Consumed(s.tokens[s.redemptions[x].token]).Some?
    ensures From(s0, s')
    ensures s' == Move(s, x, Using(Consumed(s.tokens[s.redemptions[x].token]).value))
  {
    FromNext(s0, s, Consume(x));
    s' := Next(s, Consume(x));
  }

  /** A redemption takes the lock and consumes its token, without interruption. */
  lemma LocksAndConsumes(s0: State, s: State, x: nat) returns (s': State)
    requires From(s0, s) && x in s.redemptions && s.redemptions[x].phase.Checked?
    requires s.redemptions[x].server !in s.locks
    requires s.redemptions[x].token in s.tokens && RowUnlocked(s, s.redemptions[x].token)
    requires Consumed(s.tokens[s.redemptions[x].token]).Some?
    ensures From(s0, s')
    ensures s' == Move(s, x, Using(Consumed(s.tokens[s.redemptions[x].token]).value))
      .(locks := s.locks[s.redemptions[x].server := x])
  {
    s' := Locks(s0, s, x);
    s' := Consumes(s0, s', x);
  }

  lemma Admits(s0: State, s: State, x: nat, c: Client) returns (s': State)
    requires From(s0, s) && x in s.redemptions && s.redemptions[x].phase.Using?
    requires s.redemptions[x].server in s.hubs && Valid(s.hubs[s.redemptions[x].server].network)
    requires Candidate(s, s.redemptions[x]) == Some(c) && NameIndexed(s, c.name)
    ensures From(s0, s')
    ensures s' == Move(s, x, Admitted(s.redemptions[x].phase.row, c))
  {
    FromNext(s0, s, Admit(x));
    s' := Next(s, Admit(x));
  }

  lemma Commits(s0: State, s: State, x: nat, id: nat) returns (s': State)
    requires From(s0, s) && x in s.redemptions && s.redemptions[x].phase.Admitted? && id !in s.clients
    ensures From(s0, s')
    ensures var p := s.redemptions[x].phase;
      s' == Move(s, x, Finished).(tokens := s.tokens[s.redemptions[x].token := p.row],
                                  clients := s.clients[id := p.client], log := s.log + [p.client])
  {
    FromNext(s0, s, Commit(x, id));
    s' := Next(s, Commit(x, id));
  }

  lemma Releases(s0: State, s: State, x: nat) returns (s': State)
    requires From(s0, s) && x in s.redemptions && s.redemptions[x].phase.Finished?
    requires s.redemptions[x].server in s.locks && s.locks[s.redemptions[x].server] == x
    ensures From(s0, s') && s' == s.(locks := s.locks - {s.redemptions[x].server})
  {
    FromNext(s0, s, Release(x));
    s' := Next(s, Release(x));
  }

  const EXAMPLE_HUB := Hub(Network(0, 29), 1)

  /** On an empty view of the example hub, the lowest free address is 2. */
  lemma ExampleAddress()
    ensures Valid(EXAMPLE_HUB.network) && Allocate(EXAMPLE_HUB.network, 1, {}) == Some(2)
  {
    assert Mask(0, 3) == 0 && Pow2(3) == 8;
    AllocateIsLeastFreeHost(EXAMPLE_HUB.network, 1, {});
    assert Free(EXAMPLE_HUB.network, 1, {}, 2);
  }

  predicate ExampleState(s: State) {
    && s.isolation.RepeatableRead?
    && s.hubs == map[1 := EXAMPLE_HUB]
    && 1 in s.tokens && s.tokens[1].namePrefix == "n" && s.tokens[1].revokedAt.None?
    && s.locks == map[]
    && forall y :: y in s.redemptions ==> !s.redemptions[y].phase.HasRow()
  }

  /** A redemption of token 1 that found no clients at all. */
  predicate Blank(s: State, x: nat) {
    && x in s.redemptions && s.redemptions[x].phase.Checked? && s.redemptions[x].snapshot == map[]
    && s.redemptions[x].token == s.redemptions[x].server == 1
  }

  function ExampleRow(r: Redemption): Client {
    Client(1, "n" + "-" + r.hostname, r.key, 2, 1)
  }

  lemma BlankCandidate(s: State, r: Redemption)
    requires s.isolation.RepeatableRead? && s.hubs == map[1 := EXAMPLE_HUB]
    requires r.snapshot == map[] && r.token == r.server == 1 && r.phase.Using? && r.phase.row.namePrefix == "n"
    ensures Valid(EXAMPLE_HUB.network) && Candidate(s, r) == Some(ExampleRow(r))
  {
    ExampleAddress();
    assert AddressesOf(map[], 1) == {};
  }

  /** What a blank redemption leaves when it goes through. */
  predicate Redeemed(s: State, s': State, x: nat, id: nat)
    requires x in s.redemptions && 1 in s.tokens
  {
    && 1 in s'.tokens && s'.tokens[1] == s.tokens[1].(useCount := s.tokens[1].useCount + 1)
    && s'.redemptions == s.redemptions[x := s.redemptions[x].(phase := Finished)]
    && s'.clients == s.clients[id := ExampleRow(s.redemptions[x])]
    && s'.isolation == s.isolation && s'.hubs == s.hubs && s'.locks == map[]
  }

  lemma BlankAdmits(s0: State, s: State, x: nat) returns (s': State)
    requires From(s0, s) && ExampleState(s) && Blank(s, x)
    requires s.tokens[1].useCount < s.tokens[1].maxUses
    requires NameFree(s.clients, ExampleRow(s.redemptions[x]).name)
    ensures From(s0, s')
    ensures s' == Move(s, x, Admitted(s.tokens[1].(useCount := s.tokens[1].useCount + 1), ExampleRow(s.redemptions[x])))
      .(locks := map[1 := x])
  {
    s' := LocksAndConsumes(s0, s, x);
    BlankCandidate(s', s'.redemptions[x]);
    s' := Admits(s0, s', x, ExampleRow(s.redemptions[x]));
  }

  /** A blank redemption goes through, whatever has been committed since. */
  lemma BlankRedeems(s0: State, s: State, x: nat, id: nat) returns (s': State)
    requires From(s0, s) && ExampleState(s) && Blank(s, x)
    requires s.tokens[1].useCount < s.tokens[1].maxUses && id !in s.clients
    requires NameFree(s.clients, ExampleRow(s.redemptions[x]).name)
    ensures From(s0, s') && ExampleState(s') && Redeemed(s, s', x, id)
  {
    s' := BlankAdmits(s0, s, x);
    s' := Commits(s0, s', x, id);
    s' := Releases(s0, s', x);
  }

  /**
   At REPEATABLE READ two redemptions that both looked their token up before either committed
   are given the same address.
   */
  lemma RepeatableReadSharesAnAddress() returns (s0: State, s: State)
    ensures Init(s0) && From(s0, s) && s.isolation.RepeatableRead? && !Distinct(s.clients)
  {
    s0 := ExampleStart();
    s := Checks(s0, s0, 1, 1, "a", "k");
    s := Checks(s0, s, 2, 1, "b", "l");
    s := BlankRedeems(s0, s, 1, 1);
    assert s.clients[1].name[2] == 'a';
    s := BlankRedeems(s0, s, 2, 2);
    assert s.clients[1].address == s.clients[2].address;
  }

  /** One hub, one token that expires at 9, nobody enrolled. */
  lemma ExampleStart() returns (s0: State)
    ensures Init(s0) && From(s0, s0)
    ensures s0 == State(RepeatableRead, map[1 := EXAMPLE_HUB], 0, map[1 := Token(1, "n", 2, 0, 9, None)],
                        {1}, map[], [], map[], map[])
  {
    ExampleAddress();
    s0 := State(RepeatableRead, map[1 := EXAMPLE_HUB], 0, map[1 := Token(1, "n", 2, 0, 9, None)],
                {1}, map[], [], map[], map[]);
    FromHere(s0);
  }
}
