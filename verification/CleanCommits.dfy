/**
 Exactly when clients stay distinct, at either isolation level and even if the per-hub lock is lost:
 a run keeps addresses and keys distinct if and only if no redemption commits onto a row that came
 after what it had last read.
 */
module CleanCommits {
  import opened Common
  import opened Ipam
  import opened Tokens
  import opened Enrollment
  import opened EnrollmentRuns

  /** `admittedAt` records how many rows had been committed when each redemption chose its row. */
  datatype Tracked = Tracked(core: State, admittedAt: map<nat, nat>)

  /** The lock rides on a database connection: it can be gone while its holder carries on. */
  datatype Step = Do(a: Action) | LoseLock(server: nat)

  predicate Can(t: Tracked, step: Step) {
    match step
    case Do(a) => Enabled(t.core, a)
    case LoseLock(server) => server in t.core.locks
  }

  function Lost(s: State, server: nat): State {
    s.(locks := s.locks - {server})
  }

  function After(t: Tracked, step: Step): Tracked
    requires Can(t, step)
  {
    match step
    case Do(a) =>
      Tracked(Next(t.core, a), if a.Admit? then t.admittedAt[a.x := |t.core.log|] else t.admittedAt)
    case LoseLock(server) => t.(core := Lost(t.core, server))
  }

  predicate CanRun(t: Tracked, steps: seq<Step>)
    decreases |steps|
  {
    steps == [] || (Can(t, steps[0]) && CanRun(After(t, steps[0]), steps[1..]))
  }

  /** Client `c` is still there and was committed as row `from` of the log or later. */
  predicate Newcomer(s: State, from: nat, c: nat)
    requires c in s.clients
  {
    exists j :: from <= j < |s.log| && s.log[j] == s.clients[c]
  }

  /** What the redemption had last read: the table at its choice, or at its token lookup. */
  function Read(t: Tracked, x: nat): nat
    requires x in t.core.redemptions
  {
    if t.core.isolation.RepeatableRead? then t.core.redemptions[x].seen
    else if x in t.admittedAt then t.admittedAt[x] else 0
  }

  /** No client that came after that and is still there has the row's address or key. */
  predicate CleanCommit(t: Tracked, x: nat)
    requires x in t.core.redemptions && t.core.redemptions[x].phase.Admitted?
  {
    forall c :: c in t.core.clients && Newcomer(t.core, Read(t, x), c) ==>
      !Collides(t.core.clients[c], t.core.redemptions[x].phase.client)
  }

  predicate CommitsClean(t: Tracked, steps: seq<Step>)
    requires CanRun(t, steps)
    decreases |steps|
  {
    steps != [] ==>
      && (steps[0].Do? && steps[0].a.Commit? ==> CleanCommit(t, steps[0].a.x))
      && CommitsClean(After(t, steps[0]), steps[1..])
  }

  predicate AlwaysDistinct(t: Tracked, steps: seq<Step>)
    requires CanRun(t, steps)
    decreases |steps|
  {
    Distinct(t.core.clients) && (steps != [] ==> AlwaysDistinct(After(t, steps[0]), steps[1..]))
  }

  // ---------------------------------------------------------------------------
  // What a redemption knows
  // ---------------------------------------------------------------------------

  predicate Shown(s: State, r: Redemption, c: nat)
    requires c in s.clients
  {
    c in r.snapshot && r.snapshot[c] == s.clients[c]
  }

  /** A client the snapshot does not show came after it. */
  predicate Dated(s: State, x: nat)
    requires x in s.redemptions
  {
    var r := s.redemptions[x];
    r.seen <= |s.log| && forall c :: c in s.clients ==> Shown(s, r, c) || Newcomer(s, r.seen, c)
  }

  /** A client that collides with a pending row came after what its redemption had read. */
  predicate Informed(t: Tracked, x: nat)
    requires x in t.core.redemptions
  {
    var s := t.core;
    && Dated(s, x)
    && (s.redemptions[x].phase.Admitted? ==>
          && Read(t, x) <= |s.log| && NameFree(s.clients, s.redemptions[x].phase.client.name)
          && forall c :: c in s.clients && Collides(s.clients[c], s.redemptions[x].phase.client) ==>
               Newcomer(s, Read(t, x), c))
  }

  predicate AllInformed(t: Tracked) {
    forall x :: x in t.core.redemptions ==> Informed(t, x)
  }

  /** The log only grows, and a client that is new to the table is its last row. */
  ghost predicate Grows(s: State, s': State) {
    && |s.log| <= |s'.log| && s'.log[..|s.log|] == s.log
    && forall c :: c in s'.clients ==>
         || (c in s.clients && s'.clients[c] == s.clients[c])
         || (|s.log| < |s'.log| && s'.log[|s.log|] == s'.clients[c])
  }

  lemma StepGrows(s: State, a: Action)
    requires Enabled(s, a)
    ensures Grows(s, Next(s, a))
  {
    LogAfter(s, a);
    ClientsAfter(s, a);
  }

  /** A newcomer stays one, and so is whoever joins the table. */
  lemma NewcomerStays(s: State, s': State, from: nat, c: nat)
    requires Grows(s, s') && c in s'.clients && from <= |s.log|
    requires c in s.clients && s'.clients[c] == s.clients[c] ==> Newcomer(s, from, c)
    ensures Newcomer(s', from, c)
  {
    if c in s.clients && s'.clients[c] == s.clients[c] {
      var j :| from <= j < |s.log| && s.log[j] == s.clients[c];
      assert s'.log[j] == s'.log[..|s.log|][j];
    } else {
      assert s'.log[|s.log|] == s'.clients[c];
    }
  }

  lemma DatedStep(s: State, a: Action, x: nat)
    requires Enabled(s, a) && x in s.redemptions && x in Next(s, a).redemptions && Dated(s, x)
    ensures Dated(Next(s, a), x)
  {
    var s' := Next(s, a);
    var r := s.redemptions[x];
    OnlyPhaseMoves(s, a, x);
    StepGrows(s, a);
    forall c | c in s'.clients && !Shown(s', r, c) ensures Newcomer(s', r.seen, c) {
      NewcomerStays(s, s', r.seen, c);
    }
  }

  /** A pending name stays free: the index admits no other row with it. */
  lemma NameStaysFree(s: State, a: Action, x: nat)
    requires RowInv(s) && Enabled(s, a) && x in s.redemptions && s.redemptions[x].phase.Admitted?
    requires NameFree(s.clients, s.redemptions[x].phase.client.name) && Mover(a) != Some(x)
    ensures NameFree(Next(s, a).clients, s.redemptions[x].phase.client.name)
  {
    ClientsAfter(s, a);
    if a.Commit? {
      assert Apart(s, a.x, x);
    }
  }

  /** The row chosen collides with nothing in the view it was chosen on. */
  lemma ChoiceFits(s: State, x: nat, d: nat)
    requires Enabled(s, Admit(x)) && d in View(s, s.redemptions[x])
    ensures !Collides(View(s, s.redemptions[x])[d], Candidate(s, s.redemptions[x]).value)
  {
    var r := s.redemptions[x];
    var hub := s.hubs[r.server];
    AllocateIsLeastFreeHost(hub.network, hub.serverIp, AddressesOf(View(s, r), r.server));
    if View(s, r)[d].server == r.server {
      assert View(s, r)[d].address in AddressesOf(View(s, r), r.server);
    }
  }

  lemma MoverPhase(s: State, a: Action, x: nat)
    requires Enabled(s, a) && Mover(a) == Some(x) && x in Next(s, a).redemptions
    requires Next(s, a).redemptions[x].phase.Admitted?
    ensures a == Admit(x) && Next(s, a).redemptions[x].phase.client == Candidate(s, s.redemptions[x]).value
    ensures Next(s, a).clients == s.clients && Next(s, a).log == s.log
  {
  }

  lemma AdmitInformed(t: Tracked, x: nat)
    requires Can(t, Do(Admit(x))) && Dated(t.core, x)
    ensures x in After(t, Do(Admit(x))).core.redemptions && Informed(After(t, Do(Admit(x))), x)
  {
    var s, t' := t.core, After(t, Do(Admit(x)));
    var r, row := s.redemptions[x], Candidate(s, s.redemptions[x]).value;
    assert t'.core == Move(s, x, Admitted(r.phase.row, row));
    DatedStep(s, Admit(x), x);
    forall c | c in s.clients && Collides(s.clients[c], row) ensures Newcomer(t'.core, Read(t', x), c) {
      if c in View(s, r) { ChoiceFits(s, x, c); }
      assert Newcomer(s, r.seen, c);
    }
  }

  lemma WaitingInformed(t: Tracked, a: Action, x: nat)
    requires RowInv(t.core) && Can(t, Do(a)) && x in t.core.redemptions && Informed(t, x) && Mover(a) != Some(x)
    requires x in After(t, Do(a)).core.redemptions
    ensures Informed(After(t, Do(a)), x)
  {
    var s, t' := t.core, After(t, Do(a));
    DatedStep(s, a, x);
    OthersStay(s, a);
    StepGrows(s, a);
    if s.redemptions[x].phase.Admitted? {
      NameStaysFree(s, a, x);
      assert Read(t', x) == Read(t, x);
      forall c | c in t'.core.clients && Collides(t'.core.clients[c], s.redemptions[x].phase.client)
        ensures Newcomer(t'.core, Read(t, x), c)
      {
        NewcomerStays(s, t'.core, Read(t, x), c);
      }
    }
  }

  lemma MovingInformed(t: Tracked, a: Action, x: nat)
    requires Can(t, Do(a)) && x in t.core.redemptions && Informed(t, x) && Mover(a) == Some(x)
    requires x in After(t, Do(a)).core.redemptions
    ensures Informed(After(t, Do(a)), x)
  {
    DatedStep(t.core, a, x);
    if After(t, Do(a)).core.redemptions[x].phase.Admitted? {
      MoverPhase(t.core, a, x);
      AdmitInformed(t, x);
    }
  }

  lemma NewIsInformed(t: Tracked, a: Action)
    requires Can(t, Do(a)) && a.Check?
    ensures a.x in After(t, Do(a)).core.redemptions && Informed(After(t, Do(a)), a.x)
  {
  }

  lemma OnlyChecksAdd(s: State, a: Action, x: nat)
    requires Enabled(s, a) && x in Next(s, a).redemptions && x !in s.redemptions
    ensures a.Check? && a.x == x
  {
  }

  lemma LossKeepsAll(t: Tracked, server: nat)
    requires RowInv(t.core) && AllInformed(t) && server in t.core.locks
    ensures RowInv(After(t, LoseLock(server)).core) && AllInformed(After(t, LoseLock(server)))
  {
    var t' := After(t, LoseLock(server));
    forall x | x in t'.core.redemptions ensures RowOk(t'.core, x) && Informed(t', x) {
      assert RowOk(t.core, x) && Informed(t, x);
      forall c | c in t.core.clients && Newcomer(t.core, t.core.redemptions[x].seen, c)
        ensures Newcomer(t'.core, t.core.redemptions[x].seen, c) {}
      forall c | c in t.core.clients && Newcomer(t.core, Read(t, x), c) ensures Newcomer(t'.core, Read(t', x), c) {}
    }
    forall x, y | x in t'.core.redemptions && y in t'.core.redemptions && x != y ensures Apart(t'.core, x, y) {
      assert Apart(t.core, x, y);
    }
  }

  lemma InformedStep(t: Tracked, step: Step)
    requires RowInv(t.core) && AllInformed(t) && Can(t, step)
    ensures RowInv(After(t, step).core) && AllInformed(After(t, step))
  {
    if step.LoseLock? {
      LossKeepsAll(t, step.server);
    } else {
      RowStep(t.core, step.a);
      forall x | x in After(t, step).core.redemptions ensures Informed(After(t, step), x) {
        if x !in t.core.redemptions {
          OnlyChecksAdd(t.core, step.a, x);
          NewIsInformed(t, step.a);
        } else if Mover(step.a) == Some(x) {
          MovingInformed(t, step.a, x);
        } else {
          WaitingInformed(t, step.a, x);
        }
      }
    }
  }

  // ---------------------------------------------------------------------------
  // Commits
  // ---------------------------------------------------------------------------

  lemma CleanFits(t: Tracked, x: nat, c: nat)
    requires x in t.core.redemptions && t.core.redemptions[x].phase.Admitted? && Informed(t, x)
    requires CleanCommit(t, x) && c in t.core.clients
    ensures t.core.clients[c].name != t.core.redemptions[x].phase.client.name
    ensures !Collides(t.core.clients[c], t.core.redemptions[x].phase.client)
  {
  }

  lemma CleanIsDistinct(t: Tracked, clients': Clients, x: nat, id: nat)
    requires AllInformed(t) && Distinct(t.core.clients) && x in t.core.redemptions
    requires t.core.redemptions[x].phase.Admitted? && CleanCommit(t, x)
    requires id !in t.core.clients && clients' == t.core.clients[id := t.core.redemptions[x].phase.client]
    ensures Distinct(clients')
  {
    forall c | c in t.core.clients
      ensures t.core.clients[c].name != clients'[id].name && !Collides(t.core.clients[c], clients'[id])
    {
      CleanFits(t, x, c);
    }
  }

  lemma UncleanIsNot(t: Tracked, clients': Clients, x: nat, id: nat)
    requires x in t.core.redemptions && t.core.redemptions[x].phase.Admitted? && !CleanCommit(t, x)
    requires id !in t.core.clients && clients' == t.core.clients[id := t.core.redemptions[x].phase.client]
    ensures !Distinct(clients')
  {
    var c :| c in t.core.clients && Newcomer(t.core, Read(t, x), c)
      && Collides(t.core.clients[c], t.core.redemptions[x].phase.client);
    assert c in clients' && id in clients' && c != id;
  }

  lemma CommitEffect(s: State, a: Action)
    requires Enabled(s, a) && a.Commit?
    ensures Next(s, a).clients == s.clients[a.id := s.redemptions[a.x].phase.client]
  {
  }

  /** A step keeps clients distinct exactly when it is no commit or a clean one. */
  lemma StepIsDistinctIff(t: Tracked, step: Step)
    requires AllInformed(t) && Distinct(t.core.clients) && Can(t, step)
    ensures Distinct(After(t, step).core.clients) <==> (step.Do? && step.a.Commit? ==> CleanCommit(t, step.a.x))
  {
    if step.Do? && step.a.Commit? {
      var a := step.a;
      CommitEffect(t.core, a);
      if CleanCommit(t, a.x) {
        CleanIsDistinct(t, Next(t.core, a).clients, a.x, a.id);
      } else {
        UncleanIsNot(t, Next(t.core, a).clients, a.x, a.id);
      }
    } else if step.Do? {
      ClientsAfter(t.core, step.a);
    }
  }

  lemma {:induction false} DistinctIff(t: Tracked, steps: seq<Step>)
    requires RowInv(t.core) && AllInformed(t) && Distinct(t.core.clients) && CanRun(t, steps)
    ensures AlwaysDistinct(t, steps) <==> CommitsClean(t, steps)
    decreases |steps|
  {
    if steps != [] {
      InformedStep(t, steps[0]);
      StepIsDistinctIff(t, steps[0]);
      if Distinct(After(t, steps[0]).core.clients) {
        DistinctIff(After(t, steps[0]), steps[1..]);
      }
    }
  }

  /**
   At either isolation level, with deletions and with locks lost: clients stay distinct throughout a
   run if and only if every commit is clean.
   */
  lemma DistinctExactlyWhenClean(t: Tracked, steps: seq<Step>)
    requires Init(t.core) && CanRun(t, steps)
    ensures AlwaysDistinct(t, steps) <==> CommitsClean(t, steps)
  {
    InitInv(t.core);
    DistinctIff(t, steps);
  }

  // ---------------------------------------------------------------------------
  // What the lock is for
  // ---------------------------------------------------------------------------

  /**
   Fresh reads alone do not help: if the lock is lost between the choice of an address and the
   commit, two redemptions choose the same one even at READ COMMITTED.
   */
  lemma LosingTheLockSharesAnAddress() returns (s0: State, s1: State, s2: State)
    ensures Init(s0) && s0.isolation.ReadCommitted? && From(s0, s1)
    ensures 1 in s1.locks && From(Lost(s1, 1), s2) && !Distinct(s2.clients)
  {
    s0, s1 := FirstChooses();
    s2 := SecondOvertakes(Lost(s1, 1));
  }

  function Chosen(r: Redemption): Client {
    Client(1, "n" + "-" + r.hostname, r.key, 2, r.token)
  }

  /** The second redemption is ready to take the lock, nobody is committed, and the first has chosen. */
  predicate Poised(s: State) {
    && s.isolation.ReadCommitted? && s.hubs == map[1 := EXAMPLE_HUB] && s.clients == map[]
    && s.redemptions.Keys == {1, 2} && s.redemptions[1].phase.Admitted? && s.redemptions[2].phase.Checked?
    && s.redemptions[1].phase.client == Chosen(s.redemptions[1]) && s.redemptions[1].hostname == "a"
    && s.redemptions[2].server == 1 && s.redemptions[2].hostname == "b"
    && s.redemptions[1].token == 1 && s.redemptions[2].token == 2
    && 2 in s.tokens && s.tokens[2] == Token(1, "n", 2, 0, 9, None)
  }

  lemma FirstChooses() returns (s0: State, s: State)
    ensures Init(s0) && s0.isolation.ReadCommitted? && From(s0, s) && Poised(s) && s.locks == map[1 := 1]
  {
    s0 := TwoTokens();
    s := Checks(s0, s0, 1, 1, "a", "k");
    s := Checks(s0, s, 2, 2, "b", "l");
    s := ReachesAdmit(s0, s, 1);
  }

  lemma SecondOvertakes(s: State) returns (s': State)
    requires Poised(s) && 1 !in s.locks
    ensures From(s, s') && !Distinct(s'.clients)
  {
    FromHere(s);
    assert ("n" + "-" + "a")[2] == 'a' && ("n" + "-" + "b")[2] == 'b';
    s' := ReachesAdmit(s, s, 2);
    s' := Commits(s, s', 2, 2);
    s' := Commits(s, s', 1, 1);
    assert s'.clients[1] == Chosen(s.redemptions[1]) && s'.clients[2] == Chosen(s.redemptions[2]);
    assert Collides(s'.clients[1], s'.clients[2]);
  }

  lemma TwoTokens() returns (s0: State)
    ensures Init(s0) && From(s0, s0)
    ensures s0 == State(ReadCommitted, map[1 := EXAMPLE_HUB], 0,
                        map[1 := Token(1, "n", 2, 0, 9, None), 2 := Token(1, "n", 2, 0, 9, None)],
                        {1, 2}, map[], [], map[], map[])
  {
    ExampleAddress();
    s0 := State(ReadCommitted, map[1 := EXAMPLE_HUB], 0,
                map[1 := Token(1, "n", 2, 0, 9, None), 2 := Token(1, "n", 2, 0, 9, None)],
                {1, 2}, map[], [], map[], map[]);
    FromHere(s0);
  }

  lemma EmptyCandidate(s: State, r: Redemption)
    requires s.isolation.ReadCommitted? && s.hubs == map[1 := EXAMPLE_HUB] && s.clients == map[]
    requires r.server == 1 && r.phase.Using?
    ensures Valid(EXAMPLE_HUB.network)
    ensures Candidate(s, r) == Some(Client(1, r.phase.row.namePrefix + "-" + r.hostname, r.key, 2, r.token))
  {
    ExampleAddress();
    assert AddressesOf(map[], 1) == {};
  }

  /** On the example hub with nobody committed, a checked redemption takes the lock and chooses address 2. */
  lemma ReachesAdmit(s0: State, s: State, x: nat) returns (s': State)
    requires From(s0, s) && s.isolation.ReadCommitted? && s.hubs == map[1 := EXAMPLE_HUB] && s.clients == map[]
    requires x in s.redemptions && s.redemptions[x].phase.Checked? && s.redemptions[x].server == 1 && 1 !in s.locks
    requires s.redemptions[x].token in s.tokens && RowUnlocked(s, s.redemptions[x].token)
    requires Consumed(s.tokens[s.redemptions[x].token]).Some?
    requires NameIndexed(s, s.tokens[s.redemptions[x].token].namePrefix + "-" + s.redemptions[x].hostname)
    ensures From(s0, s')
    ensures var r := s.redemptions[x];
      var row := Consumed(s.tokens[r.token]).value;
      s' == Move(s, x, Admitted(row, Client(1, row.namePrefix + "-" + r.hostname, r.key, 2, r.token)))
        .(locks := s.locks[1 := x])
  {
    var r := s.redemptions[x];
    var row := Consumed(s.tokens[r.token]).value;
    s' := LocksAndConsumes(s0, s, x);
    EmptyCandidate(s', s'.redemptions[x]);
    s' := Admits(s0, s', x, Client(1, row.namePrefix + "-" + r.hostname, r.key, 2, r.token));
  }
}
