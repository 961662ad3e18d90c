/** What a token still admits once it is inactive, and what a failed redemption costs. */
module TokenLife {
  import opened Common
  import opened Ipam
  import opened Tokens
  import opened Enrollment
  import opened EnrollmentRuns

  // ---------------------------------------------------------------------------
  // Uses are commits
  // ---------------------------------------------------------------------------

  predicate CommitsTo(s: State, a: Action, t: nat)
    requires Enabled(s, a)
  {
    a.Commit? && s.redemptions[a.x].token == t
  }

  /** How many redemptions of the token commit in the run. */
  function CommitsVia(s: State, run: seq<Action>, t: nat): nat
    requires ValidRun(s, run)
    decreases |run|
  {
    if run == [] then 0
    else (if CommitsTo(s, run[0], t) then 1 else 0) + CommitsVia(Next(s, run[0]), run[1..], t)
  }

  lemma UseStep(s: State, a: Action, t: nat)
    requires RowInv(s) && Enabled(s, a) && t in s.tokens && t in Next(s, a).tokens
    ensures Next(s, a).tokens[t].useCount == s.tokens[t].useCount + if CommitsTo(s, a, t) then 1 else 0
    ensures a != Revoke(t) && !CommitsTo(s, a, t) ==> Next(s, a).tokens[t] == s.tokens[t]
  {
    assert t in s.minted;
    if a.Commit? {
      assert RowOk(s, a.x);
    }
  }

  lemma {:induction false} GoneForGood(s: State, run: seq<Action>, t: nat)
    requires RowInv(s) && ValidRun(s, run) && t in s.minted && t !in s.tokens
    ensures t !in Final(s, run).tokens
    decreases |run|
  {
    if run != [] {
      RowStep(s, run[0]);
      TokenEvolves(s, run[0], t);
      GoneForGood(Next(s, run[0]), run[1..], t);
    }
  }

  /** Over any run a token's use count grows by exactly the redemptions of it that commit. */
  lemma {:induction false} UsesAreCommits(s: State, run: seq<Action>, t: nat)
    requires RowInv(s) && ValidRun(s, run) && t in s.tokens && t in Final(s, run).tokens
    ensures Final(s, run).tokens[t].useCount == s.tokens[t].useCount + CommitsVia(s, run, t)
    decreases |run|
  {
    if run != [] {
      var s' := Next(s, run[0]);
      RowStep(s, run[0]);
      TokenEvolves(s, run[0], t);
      if t !in s'.tokens {
        GoneForGood(s', run[1..], t);
      } else {
        UseStep(s, run[0], t);
        UsesAreCommits(s', run[1..], t);
      }
    }
  }

  /**
   However many redemptions consume the token and then fail, roll back or die: as long as none
   commits and nobody revokes it, its row, if no sweep took it, is the one it was, and so is what can
   be consumed.
   */
  lemma {:induction false} FailureGivesTheUseBack(s: State, run: seq<Action>, t: nat)
    requires RowInv(s) && ValidRun(s, run) && t in s.tokens && CommitsVia(s, run, t) == 0
    requires (forall i :: 0 <= i < |run| ==> run[i] != Revoke(t)) && t in Final(s, run).tokens
    ensures Final(s, run).tokens[t] == s.tokens[t]
    decreases |run|
  {
    if run != [] {
      var s' := Next(s, run[0]);
      RowStep(s, run[0]);
      TokenEvolves(s, run[0], t);
      if t !in s'.tokens {
        GoneForGood(s', run[1..], t);
      } else {
        UseStep(s, run[0], t);
        FailureGivesTheUseBack(s', run[1..], t);
      }
    }
  }

  /** After a committed revoke, whatever is in flight, no client comes through the token and it stays inactive. */
  lemma RevokeCloses(s: State, t: nat, run: seq<Action>)
    requires RowInv(s) && Enabled(s, Revoke(t)) && ValidRun(Next(s, Revoke(t)), run)
    ensures CountVia(Final(Next(s, Revoke(t)), run).log, t) == CountVia(s.log, t)
    ensures !IsActive(Final(Next(s, Revoke(t)), run), t)
  {
    RowStep(s, Revoke(t));
    NoClientAfterClosing(Next(s, Revoke(t)), run, t);
    NeverActiveAgain(Next(s, Revoke(t)), run, t);
  }

  // ---------------------------------------------------------------------------
  // Expiry
  // ---------------------------------------------------------------------------

  /** Redemptions of the token that looked it up and have not ended. */
  function InFlight(s: State, t: nat): set<nat> {
    set x | x in s.redemptions && s.redemptions[x].token == t && !s.redemptions[x].phase.Finished?
  }

  lemma FinishedStays(s: State, a: Action, x: nat)
    requires Enabled(s, a) && x in s.redemptions && s.redemptions[x].phase.Finished?
    ensures x in Next(s, a).redemptions && Next(s, a).redemptions[x].phase.Finished?
  {
  }

  lemma CommitFinishes(s: State, a: Action)
    requires Enabled(s, a) && a.Commit?
    ensures a.x in Next(s, a).redemptions && Next(s, a).redemptions[a.x].phase.Finished?
  {
  }

  /** Nobody starts redeeming an inactive token. */
  lemma NoNewFlight(s: State, a: Action, t: nat)
    requires Enabled(s, a) && !IsActive(s, t)
    ensures InFlight(Next(s, a), t) <= InFlight(s, t)
  {
    forall x | x in InFlight(Next(s, a), t) ensures x in InFlight(s, t) {
      if x in s.redemptions {
        OnlyPhaseMoves(s, a, x);
        if s.redemptions[x].phase.Finished? { FinishedStays(s, a, x); }
      } else {
        FreshHasOwnToken(s, a, x);
      }
    }
  }

  lemma FreshHasOwnToken(s: State, a: Action, x: nat)
    requires Enabled(s, a) && x in Next(s, a).redemptions && x !in s.redemptions
    ensures IsActive(s, Next(s, a).redemptions[x].token)
  {
  }

  /** A step through an inactive token spends a redemption in flight for every client it adds. */
  lemma FlightStep(s: State, a: Action, t: nat)
    requires RowInv(s) && Enabled(s, a) && !IsActive(s, t)
    ensures CountVia(s.log, t) <= CountVia(Next(s, a).log, t)
    ensures CountVia(Next(s, a).log, t) + |InFlight(Next(s, a), t)| <= CountVia(s.log, t) + |InFlight(s, t)|
  {
    NoNewFlight(s, a, t);
    LogAfter(s, a);
    var flight, flight' := InFlight(s, t), InFlight(Next(s, a), t);
    if a.Commit? {
      assert RowOk(s, a.x);
      CommitFinishes(s, a);
      CountSnoc(s.log, s.redemptions[a.x].phase.client, t);
      if s.redemptions[a.x].token == t {
        assert flight' <= flight - {a.x} && a.x in flight;
        SmallerSet(flight', flight - {a.x});
      } else {
        SmallerSet(flight', flight);
      }
    } else {
      SmallerSet(flight', flight);
    }
  }

  lemma SmallerSet(a: set<nat>, b: set<nat>)
    requires a <= b
    ensures |a| <= |b|
  {
    assert b == a + (b - a);
  }

  /**
   Once a token is inactive, expired included, it admits at most the redemptions that had looked it
   up before.
   */
  lemma {:induction false} OnlyFlightsLand(s: State, run: seq<Action>, t: nat)
    requires RowInv(s) && ValidRun(s, run) && t in s.minted && !IsActive(s, t)
    ensures CountVia(s.log, t) <= CountVia(Final(s, run).log, t) <= CountVia(s.log, t) + |InFlight(s, t)|
    decreases |run|
  {
    if run != [] {
      var a := run[0];
      RowStep(s, a);
      FlightStep(s, a, t);
      TokenEvolves(s, a, t);
      NeverActiveStep(s, a, t);
      OnlyFlightsLand(Next(s, a), run[1..], t);
    }
  }

  lemma NeverActiveStep(s: State, a: Action, t: nat)
    requires RowInv(s) && Enabled(s, a) && t in s.minted && !IsActive(s, t)
    ensures !IsActive(Next(s, a), t)
  {
    assert ValidRun(s, [a]) && Final(s, [a]) == Next(s, a) by {
      assert [a][1..] == [];
      assert ValidRun(Next(s, a), []);
    }
    NeverActiveAgain(s, [a], t);
  }

  /** With nothing in flight, an inactive token never admits anyone again. */
  lemma QuietTokenIsClosed(s: State, run: seq<Action>, t: nat)
    requires RowInv(s) && ValidRun(s, run) && t in s.minted && !IsActive(s, t) && InFlight(s, t) == {}
    ensures CountVia(Final(s, run).log, t) == CountVia(s.log, t)
  {
    OnlyFlightsLand(s, run, t);
  }

  /** The redemption as it is once it holds the consumed row. */
  function Consuming(s: State, x: nat): Redemption
    requires x in s.redemptions && s.redemptions[x].token in s.tokens
    requires Consumed(s.tokens[s.redemptions[x].token]).Some?
  {
    s.redemptions[x].(phase := Using(Consumed(s.tokens[s.redemptions[x].token]).value))
  }

  /**
   The converse: whatever the clock says, a redemption in flight lands in some run when its token is
   neither revoked nor used up, nobody holds what it needs, and `_admit` accepts it.
   */
  lemma FlightLands(s: State, x: nat, id: nat) returns (s': State)
    requires x in s.redemptions && s.redemptions[x].phase.Checked? && s.redemptions[x].server !in s.locks
    requires s.redemptions[x].token in s.tokens && RowUnlocked(s, s.redemptions[x].token)
    requires Consumed(s.tokens[s.redemptions[x].token]).Some?
    requires s.redemptions[x].server in s.hubs && Valid(s.hubs[s.redemptions[x].server].network)
    requires Candidate(s, Consuming(s, x)).Some? && NameIndexed(s, Candidate(s, Consuming(s, x)).value.name)
    requires id !in s.clients
    ensures From(s, s') && s'.now == s.now
    ensures CountVia(s'.log, s.redemptions[x].token) == CountVia(s.log, s.redemptions[x].token) + 1
  {
    var c := Candidate(s, Consuming(s, x)).value;
    FromHere(s);
    s' := LocksAndConsumes(s, s, x);
    assert s'.redemptions[x] == Consuming(s, x) && Candidate(s', Consuming(s, x)) == Candidate(s, Consuming(s, x));
    s' := Admits(s, s', x, c);
    s' := Commits(s, s', x, id);
    CountSnoc(s.log, c, s.redemptions[x].token);
  }

  /** A redemption in flight lands although its token has expired: the consume does not look at the clock. */
  lemma ExpiredTokenIsRedeemed() returns (s0: State, s: State, s': State)
    ensures Init(s0) && From(s0, s) && From(s, s')
    ensures 1 in s.tokens && IsExpired(s.tokens[1], s.now) && |InFlight(s, 1)| == 1
    ensures CountVia(s'.log, 1) == CountVia(s.log, 1) + 1
  {
    s0 := ExampleStart();
    s := Checks(s0, s0, 1, 1, "a", "k");
    FromNext(s0, s, Tick(9));
    s := Next(s, Tick(9));
    FromHere(s);
    assert InFlight(s, 1) == {1};
    s' := BlankAdmits(s, s, 1);
    s' := Commits(s, s', 1, 1);
    CountSnoc([], ExampleRow(s.redemptions[1]), 1);
  }

  // ---------------------------------------------------------------------------
  // Redemptions that end, and rows that go
  // ---------------------------------------------------------------------------

  /** The redemption gives up, is rolled back or dies. */
  predicate Abandons(a: Action, x: nat) {
    a == GiveUp(x) || a == Rollback(x) || a == Die(x)
  }

  lemma {:induction false} FinishedNeverCommits(s: State, run: seq<Action>, x: nat)
    requires ValidRun(s, run) && x in s.redemptions && s.redemptions[x].phase.Finished?
    ensures x in Final(s, run).redemptions && Final(s, run).redemptions[x].phase.Finished?
    ensures forall i :: 0 <= i < |run| ==> !(run[i].Commit? && run[i].x == x)
    decreases |run|
  {
    if run != [] {
      FinishedStays(s, run[0], x);
      FinishedNeverCommits(Next(s, run[0]), run[1..], x);
    }
  }

  /** A redemption that gives up, is rolled back or dies is over: in no later run does it commit. */
  lemma AbandonedForGood(s: State, a: Action, x: nat, later: seq<Action>)
    requires Enabled(s, a) && Abandons(a, x) && ValidRun(Next(s, a), later)
    ensures x in Final(Next(s, a), later).redemptions && Final(Next(s, a), later).redemptions[x].phase.Finished?
    ensures forall i :: 0 <= i < |later| ==> !(later[i].Commit? && later[i].x == x)
  {
    FinishedNeverCommits(Next(s, a), later, x);
  }

  lemma {:induction false} LockNeverTakenBy(s: State, run: seq<Action>, x: nat, server: nat)
    requires ValidRun(s, run) && x in s.redemptions && s.redemptions[x].phase.Finished?
    requires server !in s.locks || s.locks[server] != x
    ensures server !in Final(s, run).locks || Final(s, run).locks[server] != x
    decreases |run|
  {
    if run != [] {
      FinishedStays(s, run[0], x);
      LockNeverTakenBy(Next(s, run[0]), run[1..], x, server);
    }
  }

  /** A worker that dies or releases leaves its hub free for the next, and never holds it again. */
  lemma DeathFreesTheHub(s: State, a: Action, x: nat, later: seq<Action>)
    requires Enabled(s, a) && (a == Die(x) || a == Release(x)) && ValidRun(Next(s, a), later)
    ensures var server := s.redemptions[x].server;
      && (server in s.locks && s.locks[server] == x ==> server !in Next(s, a).locks)
      && (server !in Final(Next(s, a), later).locks || Final(Next(s, a), later).locks[server] != x)
  {
    LockNeverTakenBy(Next(s, a), later, x, s.redemptions[x].server);
  }

  /** The last commit or deletion of row `id` in the run. */
  function LastTouch(run: seq<Action>, id: nat): Option<Action> {
    if run == [] then None
    else
      var later := LastTouch(run[1..], id);
      if later.Some? then later
      else if (run[0].Commit? || run[0].Delete?) && run[0].id == id then Some(run[0]) else None
  }

  /** A client row is there after a run exactly when it was last committed, or was there and left alone. */
  lemma {:induction false} RowsComeAndGo(s: State, run: seq<Action>, id: nat)
    requires ValidRun(s, run)
    ensures var f := Final(s, run);
      match LastTouch(run, id)
      case None => (id in f.clients <==> id in s.clients) && (id in s.clients ==> f.clients[id] == s.clients[id])
      case Some(a) => id in f.clients <==> a.Commit?
    decreases |run|
  {
    if run != [] {
      RowTouched(s, run[0], id);
      RowsComeAndGo(Next(s, run[0]), run[1..], id);
    }
  }

  lemma RowTouched(s: State, a: Action, id: nat)
    requires Enabled(s, a)
    ensures var s' := Next(s, a);
      if (a.Commit? || a.Delete?) && a.id == id then id in s'.clients <==> a.Commit?
      else (id in s'.clients <==> id in s.clients) && (id in s.clients ==> s'.clients[id] == s.clients[id])
  {
  }
}
