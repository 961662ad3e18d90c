/**
 Discovery passes that race on one hub. Each pass is one transaction: it reads the hub's rows from a
 snapshot, inserts the keys it finds missing, updates the rest row by row, and deletes row by row what the
 hub no longer reports. The unique index refuses a key that is already there, and an update of a
 row that is gone fails; either rolls the whole pass back.
 */
module DiscoveryRaces {
  import opened Common
  import opened Discovery

  /** A row and the number of the commit that inserted it: deleted and inserted again, it is another row. */
  datatype Entry = Entry(born: nat, row: Row)

  type Entries = map<Key, Entry>

  datatype Phase = Running | Committed | Aborted

  datatype Pass = Pass(peers: seq<Seen>, managed: set<string>, at: real, snapshot: Entries, phase: Phase)

  datatype State = State(server: nat, entries: Entries, commits: nat, passes: map<nat, Pass>)

  datatype Action = Start(p: nat, peers: seq<Seen>, managed: set<string>, at: real) | Commit(p: nat) | Abort(p: nat)

  predicate SameRow(a: Entries, b: Entries, k: Key) {
    k in a && k in b && a[k].born == b[k].born
  }

  // ---------------------------------------------------------------------------
  // What a pass writes
  // ---------------------------------------------------------------------------

  function Reported(s: State, q: Pass): set<Key> {
    Observed(s.server, q.peers)
  }

  /** Inserts meet no existing key, and every row to be updated is still there. */
  predicate Unopposed(s: State, q: Pass) {
    forall k :: k in Reported(s, q) ==> if k in q.snapshot then SameRow(s.entries, q.snapshot, k) else k !in s.entries
  }

  /** Rows the pass deletes: read from the snapshot, not reported, and still the same row. */
  predicate Deletes(s: State, q: Pass, k: Key) {
    k.server == s.server && k !in Reported(s, q) && SameRow(s.entries, q.snapshot, k)
  }

  /** An update writes only the columns that differ from what the pass had read. */
  function Merged(current: Row, read: Row, wanted: Row): Row {
    Row(if wanted.stats != read.stats then wanted.stats else current.stats,
        if wanted.lastHandshake != read.lastHandshake then wanted.lastHandshake else current.lastHandshake,
        if wanted.isManaged != read.isManaged then wanted.isManaged else current.isManaged,
        current.firstSeen,
        wanted.lastSeen)
  }

  function Wanted(s: State, q: Pass, k: Key): Row
    requires k in Reported(s, q)
  {
    Recorded(LastReport(q.peers, k.publicKey), q.managed, q.at, q.at)
  }

  function Written(s: State, q: Pass, k: Key): Entry
    requires k in Reported(s, q) && Unopposed(s, q)
  {
    if k in q.snapshot then Entry(s.entries[k].born, Merged(s.entries[k].row, q.snapshot[k].row, Wanted(s, q, k)))
    else Entry(s.commits, Wanted(s, q, k))
  }

  function Applied(s: State, q: Pass): Entries
    requires Unopposed(s, q)
  {
    map k | k in s.entries.Keys + Reported(s, q) && !Deletes(s, q, k) ::
      if k in Reported(s, q) then Written(s, q, k) else s.entries[k]
  }

  predicate IsRunning(s: State, p: nat) {
    p in s.passes && s.passes[p].phase == Running
  }

  predicate Enabled(s: State, a: Action) {
    match a
    case Start(p, _, _, _) => p !in s.passes
    case Commit(p) => IsRunning(s, p) && Unopposed(s, s.passes[p])
    case Abort(p) => IsRunning(s, p)
  }

  function Next(s: State, a: Action): State
    requires Enabled(s, a)
  {
    match a
    case Start(p, peers, managed, at) =>
      s.(passes := s.passes[p := Pass(peers, managed, at, s.entries, Running)])
    case Commit(p) =>
      s.(entries := Applied(s, s.passes[p]), commits := s.commits + 1,
         passes := s.passes[p := s.passes[p].(phase := Committed)])
    case Abort(p) => s.(passes := s.passes[p := s.passes[p].(phase := Aborted)])
  }

  predicate ValidRun(s: State, run: seq<Action>)
    decreases |run|
  {
    run == [] || (Enabled(s, run[0]) && ValidRun(Next(s, run[0]), run[1..]))
  }

  function Final(s: State, run: seq<Action>): State
    requires ValidRun(s, run)
    decreases |run|
  {
    if run == [] then s else Final(Next(s, run[0]), run[1..])
  }

  // ---------------------------------------------------------------------------
  // One commit
  // ---------------------------------------------------------------------------

  /** Every row of the hub that the pass does not report was there, as the same row, when it looked. */
  predicate NoUnseenRows(s: State, q: Pass) {
    forall k :: k in s.entries && k.server == s.server && k !in Reported(s, q) ==> SameRow(s.entries, q.snapshot, k)
  }

  predicate HubIs(s: State, entries: Entries, keys: set<Key>) {
    (forall k :: k in entries && k.server == s.server ==> k in keys) && forall k :: k in keys ==> k in entries
  }

  /** A commit leaves exactly the reported keys if and only if no row outside its report came after its snapshot. */
  lemma CommitReconcilesIff(s: State, p: nat)
    requires Enabled(s, Commit(p))
    ensures HubIs(s, Next(s, Commit(p)).entries, Reported(s, s.passes[p])) <==> NoUnseenRows(s, s.passes[p])
  {
    var q := s.passes[p];
    var after := Next(s, Commit(p)).entries;
    if k :| k in s.entries && k.server == s.server && k !in Reported(s, q) && !SameRow(s.entries, q.snapshot, k) {
      assert k in after;
    }
  }

  function RowsOf(entries: Entries): Table {
    map k | k in entries :: entries[k].row
  }

  /** A pass that nobody disturbs commits, and leaves the reconciled table. */
  lemma UndisturbedReconciles(s: State, p: nat)
    requires IsRunning(s, p) && s.passes[p].snapshot == s.entries
    ensures Enabled(s, Commit(p))
    ensures var q := s.passes[p];
      RowsOf(Next(s, Commit(p)).entries) == Reconciled(RowsOf(s.entries), s.server, q.peers, q.managed, q.at)
  {
    var q := s.passes[p];
    var after, expected := RowsOf(Next(s, Commit(p)).entries), Reconciled(RowsOf(s.entries), s.server, q.peers, q.managed, q.at);
    forall k | k in expected ensures k in after && after[k] == expected[k] {}
    assert after.Keys == expected.Keys;
  }

  // ---------------------------------------------------------------------------
  // Convergence
  // ---------------------------------------------------------------------------

  predicate AnyCommitted(s: State) {
    exists p :: p in s.passes && s.passes[p].phase == Committed
  }

  /** Every pass of the run reports the same keys. */
  predicate Agreed(s: State, run: seq<Action>, keys: set<Key>) {
    forall i :: 0 <= i < |run| && run[i].Start? ==> Observed(s.server, run[i].peers) == keys
  }

  /** Before the first commit nothing has moved; after it the hub has exactly the agreed keys. */
  predicate Converging(s: State, start: Entries, keys: set<Key>) {
    && (forall p :: p in s.passes ==> Reported(s, s.passes[p]) == keys)
    && if AnyCommitted(s) then HubIs(s, s.entries, keys)
       else s.entries == start && forall p :: p in s.passes ==> s.passes[p].snapshot == start
  }

  lemma CommitConverges(s: State, p: nat, start: Entries, keys: set<Key>)
    requires Converging(s, start, keys) && Enabled(s, Commit(p))
    ensures Converging(Next(s, Commit(p)), start, keys)
  {
    var s' := Next(s, Commit(p));
    assert NoUnseenRows(s, s.passes[p]);
    CommitReconcilesIff(s, p);
    assert p in s'.passes && s'.passes[p].phase == Committed;
  }

  lemma OtherConverges(s: State, a: Action, start: Entries, keys: set<Key>)
    requires Converging(s, start, keys) && Enabled(s, a) && !a.Commit?
    requires a.Start? ==> Observed(s.server, a.peers) == keys
    ensures Converging(Next(s, a), start, keys)
  {
    var s' := Next(s, a);
    if AnyCommitted(s) {
      var p :| p in s.passes && s.passes[p].phase == Committed;
      assert p in s'.passes && s'.passes[p].phase == Committed;
    }
  }

  lemma {:induction false} ConvergingRun(s: State, run: seq<Action>, start: Entries, keys: set<Key>)
    requires Converging(s, start, keys) && ValidRun(s, run) && Agreed(s, run, keys)
    ensures Converging(Final(s, run), start, keys) && Final(s, run).server == s.server
    decreases |run|
  {
    if run != [] {
      var a := run[0];
      if a.Commit? {
        CommitConverges(s, a.p, start, keys);
      } else {
        OtherConverges(s, a, start, keys);
      }
      ConvergingRun(Next(s, a), run[1..], start, keys);
    }
  }

  /**
   However many passes race on a hub that reports one set of keys, and whichever of them fail: once
   any has committed, the hub's rows are exactly those keys.
   */
  lemma RacesConverge(s: State, run: seq<Action>, keys: set<Key>)
    requires s.passes == map[] && ValidRun(s, run) && Agreed(s, run, keys) && AnyCommitted(Final(s, run))
    ensures HubIs(s, Final(s, run).entries, keys)
  {
    ConvergingRun(s, run, s.entries, keys);
  }

  // ---------------------------------------------------------------------------
  // Who wrote a row
  // ---------------------------------------------------------------------------

  predicate Writes(s: State, a: Action, k: Key) {
    a.Commit? && a.p in s.passes && k in Reported(s, s.passes[a.p])
  }

  /** The last pass of the run to commit a report of the key. */
  function LastWriter(s: State, run: seq<Action>, k: Key): Option<nat>
    requires ValidRun(s, run)
    decreases |run|
  {
    if run == [] then None
    else
      var later := LastWriter(Next(s, run[0]), run[1..], k);
      if later.Some? then later else if Writes(s, run[0], k) then Some(run[0].p) else None
  }

  /** A pass that has finished stays as it is. */
  lemma {:induction false} FinishedStays(s: State, run: seq<Action>, p: nat)
    requires ValidRun(s, run) && p in s.passes && s.passes[p].phase != Running
    ensures Final(s, run).server == s.server && p in Final(s, run).passes && Final(s, run).passes[p] == s.passes[p]
    decreases |run|
  {
    if run != [] {
      FinishedStays(Next(s, run[0]), run[1..], p);
    }
  }

  /** A key nobody reports in the run is deleted or left as it was. */
  lemma {:induction false} UnwrittenStays(s: State, run: seq<Action>, k: Key)
    requires ValidRun(s, run) && LastWriter(s, run, k).None? && k in Final(s, run).entries
    ensures k in s.entries && Final(s, run).entries[k] == s.entries[k]
    decreases |run|
  {
    if run != [] {
      UnwrittenStays(Next(s, run[0]), run[1..], k);
    }
  }

  predicate WroteLast(s: State, p: nat, k: Key) {
    && p in s.passes && s.passes[p].phase == Committed && k in Reported(s, s.passes[p])
    && (k in s.entries ==> s.entries[k].row.lastSeen == s.passes[p].at)
  }

  /** In any run a key's last sighting is that of the last pass to commit a report of it. */
  lemma {:induction false} LastWriterWins(s: State, run: seq<Action>, k: Key)
    requires ValidRun(s, run) && LastWriter(s, run, k).Some?
    ensures WroteLast(Final(s, run), LastWriter(s, run, k).value, k)
    decreases |run|
  {
    var s' := Next(s, run[0]);
    if LastWriter(s', run[1..], k).Some? {
      LastWriterWins(s', run[1..], k);
    } else {
      FinishedStays(s', run[1..], run[0].p);
      if k in Final(s, run).entries {
        UnwrittenStays(s', run[1..], k);
      }
    }
  }

  /** No row carries the number of a commit yet to come. */
  predicate Stamped(s: State) {
    forall k :: k in s.entries ==> s.entries[k].born < s.commits
  }

  /** Over any run a row keeps its first sighting; a row with another one was inserted during the run. */
  lemma {:induction false} FirstSightingStays(s: State, run: seq<Action>, k: Key)
    requires Stamped(s) && ValidRun(s, run) && k in Final(s, run).entries
    ensures var f := Final(s, run).entries[k];
      if k in s.entries && f.born == s.entries[k].born then f.row.firstSeen == s.entries[k].row.firstSeen
      else f.born >= s.commits
    decreases |run|
  {
    if run != [] {
      FirstSightingStays(Next(s, run[0]), run[1..], k);
    }
  }

  // ---------------------------------------------------------------------------
  // Columns
  // ---------------------------------------------------------------------------

  /** The columns an update may leave alone. */
  datatype Column = StatsColumn | HandshakeColumn | ManagedColumn

  predicate Agree(col: Column, a: Row, b: Row) {
    match col
    case StatsColumn => a.stats == b.stats
    case HandshakeColumn => a.lastHandshake == b.lastHandshake
    case ManagedColumn => a.isManaged == b.isManaged
  }

  /** The commit inserts the row, or updates it and had read another value in this column. */
  predicate ChangesColumn(s: State, a: Action, k: Key, col: Column) {
    && Writes(s, a, k)
    && var q := s.passes[a.p];
       k in q.snapshot ==> !Agree(col, Wanted(s, q, k), q.snapshot[k].row)
  }

  /** The last pass of the run to commit a change of the column. */
  function LastChanger(s: State, run: seq<Action>, k: Key, col: Column): Option<nat>
    requires ValidRun(s, run)
    decreases |run|
  {
    if run == [] then None
    else
      var later := LastChanger(Next(s, run[0]), run[1..], k, col);
      if later.Some? then later else if ChangesColumn(s, run[0], k, col) then Some(run[0].p) else None
  }

  lemma ColumnStep(s: State, a: Action, k: Key, col: Column)
    requires Enabled(s, a) && k in Next(s, a).entries
    ensures if ChangesColumn(s, a, k, col) then Agree(col, Next(s, a).entries[k].row, Wanted(s, s.passes[a.p], k))
      else k in s.entries && Agree(col, Next(s, a).entries[k].row, s.entries[k].row)
  {
  }

  lemma {:induction false} UnchangedColumn(s: State, run: seq<Action>, k: Key, col: Column)
    requires ValidRun(s, run) && LastChanger(s, run, k, col).None? && k in Final(s, run).entries
    ensures k in s.entries && Agree(col, Final(s, run).entries[k].row, s.entries[k].row)
    decreases |run|
  {
    if run != [] {
      UnchangedColumn(Next(s, run[0]), run[1..], k, col);
      ColumnStep(s, run[0], k, col);
    }
  }

  /**
   In any run each column of a row is what the last pass to change it reported, or, if none did, what it was:
   a pass that found nothing new in a column does not undo another's update of it.
   */
  lemma {:induction false} LastChangerWins(s: State, run: seq<Action>, k: Key, col: Column)
    requires ValidRun(s, run) && k in Final(s, run).entries
    ensures var f, p := Final(s, run), LastChanger(s, run, k, col);
      if p.None? then k in s.entries && Agree(col, f.entries[k].row, s.entries[k].row)
      else && p.value in f.passes && k in Reported(f, f.passes[p.value])
           && Agree(col, f.entries[k].row, Wanted(f, f.passes[p.value], k))
    decreases |run|
  {
    if LastChanger(s, run, k, col).None? {
      UnchangedColumn(s, run, k, col);
    } else {
      var s' := Next(s, run[0]);
      if LastChanger(s', run[1..], k, col).Some? {
        LastChangerWins(s', run[1..], k, col);
      } else {
        UnchangedColumn(s', run[1..], k, col);
        ColumnStep(s, run[0], k, col);
        FinishedStays(s', run[1..], run[0].p);
      }
    }
  }

  // ---------------------------------------------------------------------------
  // Who inserts a row
  // ---------------------------------------------------------------------------

  predicate InsertsKey(s: State, a: Action, k: Key) {
    Writes(s, a, k) && k !in s.passes[a.p].snapshot
  }

  predicate DeletesKey(s: State, a: Action, k: Key) {
    a.Commit? && a.p in s.passes && Deletes(s, s.passes[a.p], k)
  }

  function Inserts(s: State, run: seq<Action>, k: Key): nat
    requires ValidRun(s, run)
    decreases |run|
  {
    if run == [] then 0 else (if InsertsKey(s, run[0], k) then 1 else 0) + Inserts(Next(s, run[0]), run[1..], k)
  }

  function Removals(s: State, run: seq<Action>, k: Key): nat
    requires ValidRun(s, run)
    decreases |run|
  {
    if run == [] then 0 else (if DeletesKey(s, run[0], k) then 1 else 0) + Removals(Next(s, run[0]), run[1..], k)
  }

  function Presence(s: State, k: Key): nat {
    if k in s.entries then 1 else 0
  }

  /**
   In any run the commits that insert a key and those that delete it balance, so of the passes that find
   it missing a second can commit only after another has deleted it.
   */
  lemma {:induction false} InsertsAreBalanced(s: State, run: seq<Action>, k: Key)
    requires ValidRun(s, run)
    ensures Presence(s, k) + Inserts(s, run, k) == Presence(Final(s, run), k) + Removals(s, run, k)
    ensures Inserts(s, run, k) <= Removals(s, run, k) + 1
    decreases |run|
  {
    if run != [] {
      BalancedStep(s, run[0], k);
      InsertsAreBalanced(Next(s, run[0]), run[1..], k);
    }
  }

  lemma BalancedStep(s: State, a: Action, k: Key)
    requires Enabled(s, a)
    ensures Presence(s, k) + (if InsertsKey(s, a, k) then 1 else 0)
         == Presence(Next(s, a), k) + if DeletesKey(s, a, k) then 1 else 0
  {
  }

  lemma {:induction false} ReportedIsNeverDeleted(s: State, run: seq<Action>, keys: set<Key>, k: Key)
    requires ValidRun(s, run) && Agreed(s, run, keys) && k in keys
    requires forall p :: p in s.passes ==> Reported(s, s.passes[p]) == keys
    ensures Removals(s, run, k) == 0
    decreases |run|
  {
    if run != [] {
      ReportedIsNeverDeleted(Next(s, run[0]), run[1..], keys, k);
    }
  }

  /** Of all the passes that race to insert a key the hub reports, exactly one commits. */
  lemma OneInserts(s: State, run: seq<Action>, keys: set<Key>, k: Key)
    requires s.passes == map[] && ValidRun(s, run) && Agreed(s, run, keys) && k in keys
    ensures Inserts(s, run, k) == if k !in s.entries && AnyCommitted(Final(s, run)) then 1 else 0
  {
    InsertsAreBalanced(s, run, k);
    ReportedIsNeverDeleted(s, run, keys, k);
    ConvergingRun(s, run, s.entries, keys);
  }

  lemma {:induction false} CommittedWrote(s: State, run: seq<Action>, keys: set<Key>, k: Key)
    requires ValidRun(s, run) && Agreed(s, run, keys) && k in keys && !AnyCommitted(s) && AnyCommitted(Final(s, run))
    requires forall p :: p in s.passes ==> Reported(s, s.passes[p]) == keys
    ensures LastWriter(s, run, k).Some?
    decreases |run|
  {
    if run != [] && !Writes(s, run[0], k) {
      CommittedWrote(Next(s, run[0]), run[1..], keys, k);
    }
  }

  /** Racing passes on a hub that reports one set of keys: every key is there, last seen by the later writer. */
  lemma LaterWriterWins(s: State, run: seq<Action>, keys: set<Key>, k: Key)
    requires s.passes == map[] && ValidRun(s, run) && Agreed(s, run, keys) && k in keys && AnyCommitted(Final(s, run))
    ensures LastWriter(s, run, k).Some?
    ensures var f, p := Final(s, run), LastWriter(s, run, k).value;
      p in f.passes && k in f.entries && f.entries[k].row.lastSeen == f.passes[p].at
  {
    RacesConverge(s, run, keys);
    CommittedWrote(s, run, keys, k);
    LastWriterWins(s, run, k);
  }

  lemma OneKey(server: nat, p: Seen)
    ensures Observed(server, [p]) == {Key(server, p.publicKey)}
  {
    assert p in [p];
  }

  lemma TwoKeys(server: nat, p: Seen, q: Seen)
    ensures Observed(server, [p, q]) == {Key(server, p.publicKey), Key(server, q.publicKey)}
  {
    assert p in [p, q] && q in [p, q];
  }

  /** When the hub changes between two racing passes, the later commit can leave a key it did not see. */
  lemma GhostRowRemains(server: nat, a: Seen, b: Seen, row: Row)
    returns (s: State, first: State, last: State)
    requires a.publicKey != b.publicKey
    ensures s.passes == map[] && ValidRun(s, [Start(1, [a, b], {}, 1.0), Start(2, [a], {}, 2.0)])
    ensures Final(s, [Start(1, [a, b], {}, 1.0), Start(2, [a], {}, 2.0)]) == first
    ensures Enabled(first, Commit(1)) && Enabled(Next(first, Commit(1)), Commit(2))
    ensures last == Next(Next(first, Commit(1)), Commit(2))
    ensures Key(server, b.publicKey) in last.entries && Key(server, b.publicKey) !in Reported(last, last.passes[2])
  {
    var ka, kb := Key(server, a.publicKey), Key(server, b.publicKey);
    s := State(server, map[ka := Entry(0, row)], 1, map[]);
    var one, two := Start(1, [a, b], {}, 1.0), Start(2, [a], {}, 2.0);
    var mid := Next(s, one);
    first := Next(mid, two);
    assert [one, two][1..] == [two] && [two][1..] == [];
    assert ValidRun(first, []) && ValidRun(mid, [two]) && Final(mid, [two]) == first;
    TwoKeys(server, a, b);
    OneKey(server, a);
    var both := Next(first, Commit(1));
    assert both.entries.Keys == {ka, kb} && both.entries[ka].born == 0;
    last := Next(both, Commit(2));
  }
}
