/** What a host submitted is what its client row says, over every run of concurrent redemptions. */
module Submissions {
  import opened Common
  import opened Tokens
  import opened Enrollment
  import opened EnrollmentRuns

  /** What a request asks for, with the hub and the name prefix of the token it shows. */
  datatype Submission = Submission(server: nat, prefix: string, hostname: string, key: string, token: nat)

  function Submitted(s: State, a: Action): Submission
    requires a.Check? && Enabled(s, a)
  {
    Submission(s.tokens[a.token].server, s.tokens[a.token].namePrefix, a.hostname, a.key, a.token)
  }

  /** The row says what was submitted, under the token's prefix. */
  predicate Says(row: Client, sub: Submission) {
    && row.server == sub.server && row.name == sub.prefix + "-" + sub.hostname
    && row.key == sub.key && row.via == sub.token
  }

  type Asked = map<nat, Submission>

  function AskedAfter(s: State, a: Action, asked: Asked): Asked
    requires Enabled(s, a)
  {
    if a.Check? then asked[a.x := Submitted(s, a)] else asked
  }

  /** The submissions of the redemptions that commit in the run, in the order they commit. */
  function Landed(s: State, run: seq<Action>, asked: Asked): seq<Submission>
    requires ValidRun(s, run)
    decreases |run|
  {
    if run == [] then []
    else
      (if run[0].Commit? && run[0].x in asked then [asked[run[0].x]] else [])
      + Landed(Next(s, run[0]), run[1..], AskedAfter(s, run[0], asked))
  }

  // ---------------------------------------------------------------------------
  // The submission stays with the redemption
  // ---------------------------------------------------------------------------

  predicate Keeps(s: State, r: Redemption, sub: Submission) {
    && r.server == sub.server && r.hostname == sub.hostname && r.key == sub.key && r.token == sub.token
    && sub.token in s.minted
    && (sub.token in s.tokens ==> s.tokens[sub.token].namePrefix == sub.prefix)
    && (r.phase.HasRow() ==> r.phase.row.namePrefix == sub.prefix)
    && (r.phase.Admitted? ==> Says(r.phase.client, sub))
  }

  predicate AllKeep(s: State, asked: Asked) {
    asked.Keys == s.redemptions.Keys && forall x :: x in asked ==> Keeps(s, s.redemptions[x], asked[x])
  }

  /** A token keeps its prefix, and its number is never given out again. */
  lemma PrefixStays(s: State, a: Action, t: nat)
    requires RowInv(s) && Enabled(s, a) && t in s.minted
    ensures t in Next(s, a).minted
    ensures t in Next(s, a).tokens ==> t in s.tokens && Next(s, a).tokens[t].namePrefix == s.tokens[t].namePrefix
  {
    TokenEvolves(s, a, t);
  }

  lemma KeepsStep(s: State, a: Action, x: nat, sub: Submission)
    requires RowInv(s) && Enabled(s, a) && x in s.redemptions && Keeps(s, s.redemptions[x], sub)
    ensures x in Next(s, a).redemptions && Keeps(Next(s, a), Next(s, a).redemptions[x], sub)
  {
    PrefixStays(s, a, sub.token);
    RedemptionStays(s, a, x);
    if a.Admit? && a.x == x {
      CandidateExactly(s, s.redemptions[x]);
    }
  }

  /** A redemption moves on through its phases; what it asked for stays. */
  lemma RedemptionStays(s: State, a: Action, x: nat)
    requires Enabled(s, a) && x in s.redemptions
    ensures x in Next(s, a).redemptions
    ensures var r, r' := s.redemptions[x], Next(s, a).redemptions[x];
      && r' == r.(phase := r'.phase)
      && (r'.phase.HasRow() ==> RowFrom(s, r, r'.phase.row))
      && (r'.phase.Admitted? ==> ClientFrom(s, a, x, r'.phase.client))
  {
    if Mover(a) != Some(x) { OthersStay(s, a); } else { OnlyPhaseMoves(s, a, x); }
  }

  /** A locked token row was locked before or is being consumed now. */
  predicate RowFrom(s: State, r: Redemption, row: Token) {
    || (r.phase.HasRow() && row == r.phase.row)
    || (r.token in s.tokens && Consumed(s.tokens[r.token]) == Some(row))
  }

  /** A pending client was pending before or is being admitted now. */
  predicate ClientFrom(s: State, a: Action, x: nat, client: Client)
    requires Enabled(s, a) && x in s.redemptions
  {
    var r := s.redemptions[x];
    (r.phase.Admitted? && client == r.phase.client) || (a.Admit? && a.x == x && Some(client) == Candidate(s, r))
  }

  lemma AllKeepStep(s: State, a: Action, asked: Asked)
    requires RowInv(s) && Enabled(s, a) && AllKeep(s, asked)
    ensures AllKeep(Next(s, a), AskedAfter(s, a, asked))
  {
    var s', asked' := Next(s, a), AskedAfter(s, a, asked);
    forall x | x in asked' ensures x in s'.redemptions && Keeps(s', s'.redemptions[x], asked'[x]) {
      if x in asked { KeepsStep(s, a, x, asked[x]); }
    }
    if !a.Check? { NoNewRedemption(s, a); }
  }

  // ---------------------------------------------------------------------------
  // Over runs
  // ---------------------------------------------------------------------------

  predicate LogGrowsBy(log: seq<Client>, log': seq<Client>, subs: seq<Submission>) {
    && |log'| == |log| + |subs| && log <= log'
    && forall k :: 0 <= k < |subs| ==> Says(log'[|log| + k], subs[k])
  }

  lemma LandedStep(s: State, a: Action, asked: Asked)
    requires AllKeep(s, asked) && Enabled(s, a)
    ensures LogGrowsBy(s.log, Next(s, a).log, if a.Commit? && a.x in asked then [asked[a.x]] else [])
  {
    LogAfter(s, a);
  }

  lemma GrowthAdds(a: seq<Client>, b: seq<Client>, c: seq<Client>, first: seq<Submission>, rest: seq<Submission>)
    requires LogGrowsBy(a, b, first) && LogGrowsBy(b, c, rest)
    ensures LogGrowsBy(a, c, first + rest)
  {
  }

  lemma {:induction false} LandedRun(s: State, run: seq<Action>, asked: Asked)
    requires RowInv(s) && AllKeep(s, asked) && ValidRun(s, run)
    ensures LogGrowsBy(s.log, Final(s, run).log, Landed(s, run, asked))
    decreases |run|
  {
    if run != [] {
      var a, s', asked' := run[0], Next(s, run[0]), AskedAfter(s, run[0], asked);
      RowStep(s, a);
      AllKeepStep(s, a, asked);
      LandedStep(s, a, asked);
      LandedRun(s', run[1..], asked');
      GrowthAdds(s.log, s'.log, Final(s, run).log, if a.Commit? && a.x in asked then [asked[a.x]] else [],
                 Landed(s', run[1..], asked'));
    }
  }

  /**
   Every row a run adds to the client table carries the hostname, key and token of the request that
   committed it, the token's hub, and the token's prefix in its name; commits add nothing else.
   */
  lemma RowsSayWhatWasSubmitted(s: State, run: seq<Action>)
    requires Quiet(s) && ValidRun(s, run)
    ensures LogGrowsBy(s.log, Final(s, run).log, Landed(s, run, map[]))
  {
    LandedRun(s, run, map[]);
  }

  /** The client table itself: a row that was not there before is one of the rows the run added. */
  lemma {:induction false} NewClientsAreLogged(s: State, run: seq<Action>, c: nat)
    requires ValidRun(s, run) && c in Final(s, run).clients
    ensures var f := Final(s, run);
      || (c in s.clients && f.clients[c] == s.clients[c])
      || exists k :: |s.log| <= k < |f.log| && f.log[k] == f.clients[c]
    decreases |run|
  {
    if run != [] {
      var s' := Next(s, run[0]);
      ClientsAfter(s, run[0]);
      LogAfter(s, run[0]);
      NewClientsAreLogged(s', run[1..], c);
      LogOnlyGrows(s', run[1..]);
      if c in s'.clients && Final(s, run).clients[c] == s'.clients[c] && run[0].Commit? && c == run[0].id {
        assert Final(s, run).log[|s.log|] == s'.log[|s.log|];
      }
    }
  }

  lemma {:induction false} LogOnlyGrows(s: State, run: seq<Action>)
    requires ValidRun(s, run)
    ensures s.log <= Final(s, run).log
    decreases |run|
  {
    if run != [] {
      LogAfter(s, run[0]);
      LogOnlyGrows(Next(s, run[0]), run[1..]);
    }
  }
}
