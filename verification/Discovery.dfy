/** Peer discovery on one hub: upsert every peer seen, prune every row not seen. */
module Discovery {
  import opened Common

  /** The table is unique on hub and public key. */
  datatype Key = Key(server: nat, publicKey: string)

  datatype Stats = Stats(allowedIps: string, endpoint: string, rx: nat, tx: nat, keepalive: nat)

  datatype Seen = Seen(publicKey: string, stats: Stats, handshakeEpoch: int)

  datatype Row = Row(
    stats: Stats,
    lastHandshake: Option<int>,
    isManaged: bool,
    firstSeen: real,
    lastSeen: real)

  type Table = map<Key, Row>

  /** A client of a hub; its key is empty until it is known. */
  datatype ClientRow = ClientRow(server: nat, publicKey: string)

  function ManagedKeys(clients: seq<ClientRow>, server: nat): set<string> {
    set c | c in clients && c.server == server && c.publicKey != "" :: c.publicKey
  }

  /** Peers as the hub reported them, or the reason it could not be reached. */
  type Report = Result<seq<Seen>, string>

  datatype Summary = Done(peers: nat, added: nat, updated: nat, pruned: nat) | Unreachable(reason: string)

  // ---------------------------------------------------------------------------
  // What a pass leaves in the table
  // ---------------------------------------------------------------------------

  function Observed(server: nat, peers: seq<Seen>): set<Key> {
    set p | p in peers :: Key(server, p.publicKey)
  }

  /** The last report of a key wins. */
  function LastReport(peers: seq<Seen>, key: string): (p: Seen)
    requires exists p :: p in peers && p.publicKey == key
    ensures p in peers && p.publicKey == key
  {
    var n := |peers| - 1;
    if peers[n].publicKey == key then peers[n] else LastReport(peers[..n], key)
  }

  function Recorded(p: Seen, managed: set<string>, firstSeen: real, now: real): Row {
    Row(p.stats, if p.handshakeEpoch > 0 then Some(p.handshakeEpoch) else None, p.publicKey in managed, firstSeen, now)
  }

  function FirstSeen(rows: Table, k: Key, now: real): real {
    if k in rows then rows[k].firstSeen else now
  }

  /** The row of an observed key. */
  function Fresh(rows: Table, server: nat, peers: seq<Seen>, managed: set<string>, now: real, k: Key): Row
    requires k in Observed(server, peers)
  {
    Recorded(LastReport(peers, k.publicKey), managed, FirstSeen(rows, k, now), now)
  }

  /** Other hubs' rows as they were, and exactly one row for each observed key. */
  function Reconciled(rows: Table, server: nat, peers: seq<Seen>, managed: set<string>, now: real): Table {
    map k | k in rows.Keys + Observed(server, peers) && (k.server != server || k in Observed(server, peers)) ::
      if k in Observed(server, peers) then Fresh(rows, server, peers, managed, now, k) else rows[k]
  }

  function Added(rows: Table, server: nat, peers: seq<Seen>): set<Key> {
    Observed(server, peers) - rows.Keys
  }

  function Stale(rows: Table, server: nat, peers: seq<Seen>): set<Key> {
    set k | k in rows && k.server == server && k !in Observed(server, peers)
  }

  // ---------------------------------------------------------------------------
  // The pass
  // ---------------------------------------------------------------------------

  /** The table after the upserts and before the pruning. */
  predicate Upserted(rows: Table, was: Table, server: nat, peers: seq<Seen>, managed: set<string>, now: real) {
    && rows.Keys == was.Keys + Observed(server, peers)
    && forall k :: k in rows ==>
         rows[k] == if k in Observed(server, peers) then Fresh(was, server, peers, managed, now, k) else was[k]
  }

  lemma ObservedSnoc(server: nat, peers: seq<Seen>, p: Seen)
    ensures Observed(server, peers + [p]) == Observed(server, peers) + {Key(server, p.publicKey)}
  {
    forall k | k in Observed(server, peers) ensures k in Observed(server, peers + [p]) {
      var q :| q in peers && Key(server, q.publicKey) == k;
      assert q in peers + [p];
    }
    assert p in peers + [p];
  }

  lemma UpsertOne(rows: Table, was: Table, server: nat, peers: seq<Seen>, p: Seen, managed: set<string>, now: real)
    requires Upserted(rows, was, server, peers, managed, now)
    ensures var k := Key(server, p.publicKey);
      Upserted(rows[k := Recorded(p, managed, FirstSeen(rows, k, now), now)], was, server, peers + [p], managed, now)
  {
    ObservedSnoc(server, peers, p);
    assert (peers + [p])[..|peers|] == peers;
    assert p in peers + [p];
    forall k | k in Observed(server, peers) ensures exists q :: q in peers + [p] && q.publicKey == k.publicKey {
      var q :| q in peers && Key(server, q.publicKey) == k;
      assert q in peers + [p];
    }
  }

  /** One upsert after another. */
  function Folded(was: Table, server: nat, peers: seq<Seen>, managed: set<string>, now: real): Table {
    if peers == [] then was
    else
      var rows, p := Folded(was, server, peers[..|peers| - 1], managed, now), peers[|peers| - 1];
      var k := Key(server, p.publicKey);
      rows[k := Recorded(p, managed, FirstSeen(rows, k, now), now)]
  }

  lemma {:induction false} FoldedIsUpserted(was: Table, server: nat, peers: seq<Seen>, managed: set<string>, now: real)
    ensures Upserted(Folded(was, server, peers, managed, now), was, server, peers, managed, now)
  {
    if peers != [] {
      var n := |peers| - 1;
      FoldedIsUpserted(was, server, peers[..n], managed, now);
      UpsertOne(Folded(was, server, peers[..n], managed, now), was, server, peers[..n], peers[n], managed, now);
      assert peers == peers[..n] + [peers[n]];
    }
  }

  class DiscoveredPeers {
    var rows: Table

    method Upsert(server: nat, peers: seq<Seen>, managed: set<string>, now: real) returns (added: nat, updated: nat)
      modifies this
      ensures rows == Folded(old(rows), server, peers, managed, now)
      ensures added + updated == |peers| && |rows| == |old(rows)| + added
    {
      added, updated := 0, 0;
      for i := 0 to |peers|
        invariant rows == Folded(old(rows), server, peers[..i], managed, now)
        invariant added + updated == i && |rows| == |old(rows)| + added
      {
        assert peers[..i + 1][..i] == peers[..i];
        var isNew := Record(server, peers[i], managed, now);
        if isNew {
          added := added + 1;
        } else {
          updated := updated + 1;
        }
      }
      assert peers[..|peers|] == peers;
    }

    method Record(server: nat, p: Seen, managed: set<string>, now: real) returns (isNew: bool)
      modifies this
      ensures isNew <==> Key(server, p.publicKey) !in old(rows)
      ensures var k := Key(server, p.publicKey);
        rows == old(rows)[k := Recorded(p, managed, FirstSeen(old(rows), k, now), now)]
      ensures |rows| == |old(rows)| + if isNew then 1 else 0
    {
      var k := Key(server, p.publicKey);
      isNew := k !in rows;
      Inserted(rows, k, Recorded(p, managed, FirstSeen(rows, k, now), now));
      if isNew {
        rows := rows[k := Recorded(p, managed, now, now)];
      } else {
        rows := rows[k := Recorded(p, managed, rows[k].firstSeen, now)];
      }
    }

    method Prune(server: nat, peers: seq<Seen>) returns (pruned: nat)
      modifies this
      ensures rows == old(rows) - Stale(old(rows), server, peers)
      ensures pruned == |Stale(old(rows), server, peers)| && |rows| == |old(rows)| - pruned
    {
      pruned := 0;
      var stale := Stale(rows, server, peers);
      ghost var gone: set<Key> := {};
      while stale != {}
        invariant stale + gone == Stale(old(rows), server, peers) && stale !! gone && stale <= rows.Keys
        invariant pruned == |gone| && |rows| == |old(rows)| - pruned
        invariant rows == old(rows) - gone
        decreases |stale|
      {
        var k :| k in stale;
        Removed(rows, old(rows), gone, k);
        gone := gone + {k};
        rows, stale := rows - {k}, stale - {k};
        pruned := pruned + 1;
      }
      assert stale + gone == gone;
    }

    method Discover(server: nat, report: Report, clients: seq<ClientRow>, now: real) returns (summary: Summary)
      modifies this
      ensures report.Err? ==> rows == old(rows) && summary == Unreachable(report.error)
      ensures report.Ok? ==>
        && rows == Reconciled(old(rows), server, report.value, ManagedKeys(clients, server), now)
        && summary.Done? && summary.peers == |report.value| == summary.added + summary.updated
        && summary.added == |Added(old(rows), server, report.value)|
        && summary.pruned == |Stale(old(rows), server, report.value)|
        && |rows| == |old(rows)| + summary.added - summary.pruned
    {
      match report
      case Err(reason) =>
        return Unreachable(reason);
      case Ok(peers) =>
        var managed := ManagedKeys(clients, server);
        var added, updated := Upsert(server, peers, managed, now);
        FoldedIsUpserted(old(rows), server, peers, managed, now);
        AddedCount(rows, old(rows), server, peers, managed, now);
        SameStale(rows, old(rows), server, peers);
        PruningReconciles(rows, old(rows), server, peers, managed, now);
        var pruned := Prune(server, peers);
        return Done(|peers|, added, updated, pruned);
    }
  }

  lemma Inserted(rows: Table, k: Key, row: Row)
    ensures |rows[k := row]| == |rows| + if k in rows then 0 else 1
  {
    assert rows[k := row].Keys == rows.Keys + {k};
  }

  lemma Removed(rows: Table, was: Table, gone: set<Key>, k: Key)
    requires rows == was - gone && k in rows
    ensures |rows - {k}| == |rows| - 1 && rows - {k} == was - (gone + {k})
  {
    assert (rows - {k}).Keys == rows.Keys - {k};
  }

  lemma SameStale(mid: Table, was: Table, server: nat, peers: seq<Seen>)
    requires mid.Keys == was.Keys + Observed(server, peers)
    ensures Stale(mid, server, peers) == Stale(was, server, peers)
  {
  }

  lemma PrunedKeys(mid: Table, was: Table, server: nat, peers: seq<Seen>, managed: set<string>, now: real)
    requires mid.Keys == was.Keys + Observed(server, peers)
    ensures (mid - Stale(mid, server, peers)).Keys == Reconciled(was, server, peers, managed, now).Keys
  {
  }

  /** Upserts followed by pruning leave the reconciled table. */
  lemma PruningReconciles(mid: Table, was: Table, server: nat, peers: seq<Seen>, managed: set<string>, now: real)
    requires Upserted(mid, was, server, peers, managed, now)
    ensures mid - Stale(mid, server, peers) == Reconciled(was, server, peers, managed, now)
  {
    PrunedKeys(mid, was, server, peers, managed, now);
    var pruned, final := mid - Stale(mid, server, peers), Reconciled(was, server, peers, managed, now);
    forall k | k in final ensures pruned[k] == final[k] {
      assert k in pruned && pruned[k] == mid[k];
    }
  }

  lemma AddedCount(rows: Table, was: Table, server: nat, peers: seq<Seen>, managed: set<string>, now: real)
    requires Upserted(rows, was, server, peers, managed, now)
    ensures |rows| == |was| + |Added(was, server, peers)|
  {
    assert rows.Keys == was.Keys + Added(was, server, peers);
  }

  // ---------------------------------------------------------------------------
  // Passes together
  // ---------------------------------------------------------------------------

  /** `peers[i]` is the last report of its key. */
  predicate IsLast(peers: seq<Seen>, i: nat)
    requires i < |peers|
  {
    forall j :: i < j < |peers| ==> peers[j].publicKey != peers[i].publicKey
  }

  lemma {:induction false} LastReportIs(peers: seq<Seen>, i: nat)
    requires i < |peers| && IsLast(peers, i)
    ensures peers[i] in peers && LastReport(peers, peers[i].publicKey) == peers[i]
  {
    var n := |peers| - 1;
    if i < n {
      LastReportIs(peers[..n], i);
    }
  }

  /** After a pass the hub's rows are exactly the observed keys, and other hubs' rows are as before. */
  lemma RowsAreObserved(rows: Table, server: nat, peers: seq<Seen>, managed: set<string>, now: real, k: Key)
    ensures var after := Reconciled(rows, server, peers, managed, now);
      if k.server == server then k in after <==> exists p :: p in peers && p.publicKey == k.publicKey
      else (k in after <==> k in rows) && (k in rows ==> after[k] == rows[k])
  {
    if p :| p in peers && p.publicKey == k.publicKey {
      assert Key(server, p.publicKey) in Observed(server, peers);
    }
  }

  predicate HasClient(clients: seq<ClientRow>, server: nat, key: string) {
    exists c :: c in clients && c.server == server && c.publicKey == key && key != ""
  }

  /** What a pass records of a peer: its last report, and whether a client of the hub has its key. */
  lemma PeerIsRecorded(rows: Table, server: nat, peers: seq<Seen>, clients: seq<ClientRow>, now: real, i: nat)
    requires i < |peers| && IsLast(peers, i)
    ensures var k := Key(server, peers[i].publicKey);
      var after := Reconciled(rows, server, peers, ManagedKeys(clients, server), now);
      && k in after
      && after[k].stats == peers[i].stats
      && after[k].lastHandshake == (if peers[i].handshakeEpoch > 0 then Some(peers[i].handshakeEpoch) else None)
      && (after[k].isManaged <==> HasClient(clients, server, peers[i].publicKey))
      && after[k].lastSeen == now
      && after[k].firstSeen == if k in rows then rows[k].firstSeen else now
  {
    LastReportIs(peers, i);
    assert Key(server, peers[i].publicKey) in Observed(server, peers);
  }

  /** A repeated pass adds and prunes nothing; it only moves `lastSeen`. */
  lemma RepeatedPassOnlyTouches(rows: Table, server: nat, peers: seq<Seen>, managed: set<string>, t: real, u: real)
    ensures var once := Reconciled(rows, server, peers, managed, t);
      && Added(once, server, peers) == {} && Stale(once, server, peers) == {}
      && Reconciled(once, server, peers, managed, u) ==
           map k | k in once :: if k.server == server then once[k].(lastSeen := u) else once[k]
  {
  }

  /** A newer report replaces an older one, except that rows seen in both keep their first sighting. */
  lemma LaterPassWins(rows: Table, server: nat, older: seq<Seen>, newer: seq<Seen>, managed: set<string>, t: real, u: real)
    ensures var both := Reconciled(Reconciled(rows, server, older, managed, t), server, newer, managed, u);
      var only := Reconciled(rows, server, newer, managed, u);
      && both.Keys == only.Keys
      && forall k :: k in both ==>
           both[k] == if k.server == server then only[k].(firstSeen := both[k].firstSeen) else only[k]
  {
  }

  /** When a key was first seen survives every pass that still sees it. */
  lemma FirstSightingSurvives(rows: Table, server: nat, peers: seq<Seen>, managed: set<string>, now: real, k: Key)
    requires k in rows && k in Reconciled(rows, server, peers, managed, now)
    ensures Reconciled(rows, server, peers, managed, now)[k].firstSeen == rows[k].firstSeen
  {
  }

  /** Passes over different hubs commute. */
  lemma HubsAreIndependent(
      rows: Table, s: nat, sPeers: seq<Seen>, sManaged: set<string>, t: nat, tPeers: seq<Seen>, tManaged: set<string>, u: real, v: real)
    requires s != t
    ensures Reconciled(Reconciled(rows, s, sPeers, sManaged, u), t, tPeers, tManaged, v)
         == Reconciled(Reconciled(rows, t, tPeers, tManaged, v), s, sPeers, sManaged, u)
  {
  }
}
