/** `certs renew --due`: which rows are renewed, what is minted, and what a second run does. */
module CertRenewal {
  import opened Common
  import opened PosixPath
  import opened Text

  /** Whom a certificate is for, apart from its alternative names. */
  datatype Subject = Subject(certType: string, operatorId: Option<nat>, commonName: string)

  /**
   `sans` is the stored comma-separated text. A path that is not stored is "", which the code treats
   as it treats a missing one.
   */
  datatype Row = Row(
    id: nat,
    subject: Subject,
    sans: string,
    tenant: Option<nat>,
    cert: string,
    key: string,
    chain: string,
    notBefore: real,
    notAfter: real,
    revoked: bool)

  /** What a renewal calls: the backend, which may fail, and `str(Path(...))` for the paths. */
  datatype Renewer = Renewer(issue: Row -> Option<Leaf>, spell: string -> string)

  /** Spelling a path a second time changes nothing, and no path is spelled "". */
  ghost predicate Stable(w: Renewer) {
    forall p: string {:trigger w.spell(w.spell(p))} :: w.spell(w.spell(p)) == w.spell(p) != ""
  }

  /** The text form of a POSIX path is such a spelling. */
  ghost predicate Spells(w: Renewer) {
    forall p: string :: w.spell(p) == Normal(p)
  }

  lemma PathTextIsStable(w: Renewer)
    requires Spells(w)
    ensures Stable(w)
  {
    forall p: string ensures w.spell(w.spell(p)) == w.spell(p) != "" { NormalIsNormal(p); }
  }

  lemma StableAt(w: Renewer, p: string)
    requires Stable(w)
    ensures w.spell(w.spell(p)) == w.spell(p) != ""
  {
    assert w.spell(w.spell(p)) == w.spell(p);
  }

  datatype Leaf = Leaf(commonName: string, sans: seq<string>, notBefore: real, notAfter: real)

  // ---------------------------------------------------------------------------
  // Which rows are renewed
  // ---------------------------------------------------------------------------

  predicate DueWindow(notBefore: real, notAfter: real, pct: real, now: real) {
    var window := notAfter - notBefore;
    window <= 0.0 || (now - notBefore) / window * 100.0 >= pct
  }

  predicate Due(r: Row, pct: real, now: real) {
    DueWindow(r.notBefore, r.notAfter, pct, now)
  }

  /** No live row with a higher id describes the same file. */
  predicate IsCurrent(live: seq<Row>, r: Row) {
    r.cert == "" || forall i :: 0 <= i < |live| && live[i].cert == r.cert ==> live[i].id <= r.id
  }

  function Live(rows: seq<Row>): seq<Row> {
    Filter(rows, (r: Row) => !r.revoked)
  }

  function Currents(rows: seq<Row>, live: seq<Row>): seq<Row> {
    Filter(rows, (r: Row) => IsCurrent(live, r))
  }

  function DueOf(rows: seq<Row>, pct: real, now: real): seq<Row> {
    Filter(rows, (r: Row) => Due(r, pct, now))
  }

  function DueRows(rows: seq<Row>, pct: real, now: real): seq<Row> {
    DueOf(Currents(Live(rows), Live(rows)), pct, now)
  }

  predicate Wanted(rows: seq<Row>, r: Row, pct: real, now: real) {
    !r.revoked && IsCurrent(Live(rows), r) && Due(r, pct, now)
  }

  /** The newest id of each path is found in one pass, the rows are filtered in another. */
  method DropSuperseded(rows: seq<Row>) returns (kept: seq<Row>)
    ensures kept == Currents(rows, rows)
  {
    var newest: map<string, nat> := map[];
    for i := 0 to |rows|
      invariant forall j :: 0 <= j < i && rows[j].cert != "" ==>
        rows[j].cert in newest && rows[j].id <= newest[rows[j].cert]
      invariant forall p :: p in newest ==> newest[p] == 0 || exists j :: 0 <= j < i && rows[j].cert == p && rows[j].id == newest[p]
    {
      var r := rows[i];
      if r.cert != "" {
        var best := if r.cert in newest then newest[r.cert] else 0;
        newest := newest[r.cert := Max(best, r.id)];
      }
    }
    kept := [];
    for i := 0 to |rows|
      invariant kept == Currents(rows[..i], rows)
    {
      var r := rows[i];
      assert rows[..i + 1][..i] == rows[..i];
      if r.cert == "" || r.id == newest[r.cert] {
        kept := kept + [r];
      }
    }
    assert rows[..|rows|] == rows;
  }

  // ---------------------------------------------------------------------------
  // Minting
  // ---------------------------------------------------------------------------

  /** All three paths are stored and the backend signs. */
  predicate Renewable(r: Row, w: Renewer) {
    r.cert != "" && r.key != "" && r.chain != "" && w.issue(r).Some?
  }

  function Sources(due: seq<Row>, w: Renewer): seq<Row> {
    Filter(due, (r: Row) => Renewable(r, w))
  }

  /** The alternative names asked for: the stored ones, without empty entries. */
  function SanList(text: string): seq<string> {
    Filter(Split(text, ','), (part: string) => part != "")
  }

  function SanText(sans: seq<string>): string {
    if sans == [] then "" else Join(sans, ',')
  }

  /** The row a renewal records: the new leaf, at the source row's paths. The tenant is not carried over. */
  function Successor(r: Row, id: nat, w: Renewer): Row
    requires Renewable(r, w)
  {
    var leaf := w.issue(r).value;
    Row(id, r.subject.(commonName := leaf.commonName), SanText(leaf.sans), None,
        w.spell(r.cert), w.spell(r.key), w.spell(r.chain), leaf.notBefore, leaf.notAfter, false)
  }

  function MintedWith(front: seq<Row>, r: Row, w: Renewer, nextId: nat): seq<Row> {
    if Renewable(r, w) then front + [Successor(r, nextId + |front|, w)] else front
  }

  /** The rows a list of due rows leads to, in order, with consecutive ids. */
  function Minted(due: seq<Row>, w: Renewer, nextId: nat): seq<Row> {
    if due == [] then []
    else MintedWith(Minted(due[..|due| - 1], w, nextId), due[|due| - 1], w, nextId)
  }

  lemma MintedSnoc(due: seq<Row>, i: nat, w: Renewer, nextId: nat)
    requires i < |due|
    ensures Minted(due[..i + 1], w, nextId) == MintedWith(Minted(due[..i], w, nextId), due[i], w, nextId)
  {
    var all := due[..i + 1];
    assert all[..|all| - 1] == due[..i] && all[|all| - 1] == due[i];
  }

  /** The k-th minted row succeeds the k-th renewable due row. */
  lemma {:induction false} MintedAt(due: seq<Row>, w: Renewer, nextId: nat)
    ensures |Minted(due, w, nextId)| == |Sources(due, w)|
    ensures forall i :: 0 <= i < |Sources(due, w)| ==> Renewable(Sources(due, w)[i], w)
    ensures forall i :: 0 <= i < |Sources(due, w)| ==>
      Minted(due, w, nextId)[i] == Successor(Sources(due, w)[i], nextId + i, w)
    decreases |due|
  {
    if due != [] {
      MintedAt(due[..|due| - 1], w, nextId);
    }
  }

  function RunSources(rows: seq<Row>, pct: real, now: real, w: Renewer): seq<Row> {
    Sources(DueRows(rows, pct, now), w)
  }

  function AfterRun(rows: seq<Row>, pct: real, now: real, w: Renewer, nextId: nat): seq<Row> {
    rows + Minted(DueRows(rows, pct, now), w, nextId)
  }

  /** Row ids are distinct and below the next one. */
  predicate ValidIds(rows: seq<Row>, nextId: nat) {
    && (forall i :: 0 <= i < |rows| ==> rows[i].id < nextId)
    && forall i, j :: 0 <= i < j < |rows| ==> rows[i].id != rows[j].id
  }

  /** What a file holds: a part of the leaf that a row records. */
  datatype Pem = CertPem(id: nat) | KeyPem(id: nat) | ChainPem(id: nat)

  type Files = map<string, Pem>

  function Written(files: Files, row: Row): Files {
    files[row.cert := CertPem(row.id)][row.key := KeyPem(row.id)][row.chain := ChainPem(row.id)]
  }

  function WrittenAll(files: Files, rows: seq<Row>): Files {
    if rows == [] then files else Written(WrittenAll(files, rows[..|rows| - 1]), rows[|rows| - 1])
  }

  lemma WrittenSnoc(files: Files, rows: seq<Row>, row: Row)
    ensures WrittenAll(files, rows + [row]) == Written(WrittenAll(files, rows), row)
  {
    assert (rows + [row])[..|rows|] == rows;
  }

  class Registry {
    var rows: seq<Row>
    var nextId: nat
    var files: Files

    /** One row: resolve the paths, sign, write the files, record the successor; false when it is skipped. */
    method RenewRow(r: Row, w: Renewer) returns (ok: bool)
      modifies this
      ensures ok <==> Renewable(r, w)
      ensures ok ==> rows == old(rows) + [Successor(r, old(nextId), w)] && nextId == old(nextId) + 1
      ensures ok ==> files == Written(old(files), Successor(r, old(nextId), w))
      ensures var cert, key, chain := w.spell(r.cert), w.spell(r.key), w.spell(r.chain);
        ok && cert != key && cert != chain && key != chain ==>
          && cert in files && files[cert] == CertPem(old(nextId))
          && key in files && files[key] == KeyPem(old(nextId))
          && chain in files && files[chain] == ChainPem(old(nextId))
      ensures !ok ==> rows == old(rows) && nextId == old(nextId) && files == old(files)
    {
      if r.cert == "" || r.key == "" || r.chain == "" {
        return false;
      }
      match w.issue(r)
      case None => return false;
      case Some(leaf) =>
        var cert, key, chain := w.spell(r.cert), w.spell(r.key), w.spell(r.chain);
        files := files[cert := CertPem(nextId)];
        files := files[key := KeyPem(nextId)];
        files := files[chain := ChainPem(nextId)];
        var subject := Subject(r.subject.certType, r.subject.operatorId, leaf.commonName);
        rows := rows + [Row(nextId, subject, SanText(leaf.sans), None, cert, key, chain,
                            leaf.notBefore, leaf.notAfter, false)];
        nextId := nextId + 1;
        return true;
    }

    method RenewDue(pct: real, now: real, w: Renewer) returns (renewed: nat, skipped: nat)
      requires ValidIds(rows, nextId)
      modifies this
      ensures rows == AfterRun(old(rows), pct, now, w, old(nextId)) && nextId == old(nextId) + renewed
      ensures files == WrittenAll(old(files), Minted(DueRows(old(rows), pct, now), w, old(nextId)))
      ensures renewed == |RunSources(old(rows), pct, now, w)|
      ensures renewed + skipped == |DueRows(old(rows), pct, now)|
      ensures ValidIds(rows, nextId)
    {
      var live := LiveRows(rows);
      var current := DropSuperseded(live);
      var due := FilterDue(current, pct, now);
      renewed, skipped := RenewAll(due, w);
      IdsStayValid(old(rows), pct, now, w, old(nextId));
    }

    method RenewAll(due: seq<Row>, w: Renewer) returns (renewed: nat, skipped: nat)
      modifies this
      ensures rows == old(rows) + Minted(due, w, old(nextId)) && nextId == old(nextId) + renewed
      ensures files == WrittenAll(old(files), Minted(due, w, old(nextId)))
      ensures renewed == |Sources(due, w)| && renewed + skipped == |due|
    {
      renewed, skipped := 0, 0;
      for i := 0 to |due|
        invariant renewed == |Minted(due[..i], w, old(nextId))| && renewed + skipped == i
        invariant nextId == old(nextId) + renewed
        invariant rows == old(rows) + Minted(due[..i], w, old(nextId))
        invariant files == WrittenAll(old(files), Minted(due[..i], w, old(nextId)))
      {
        MintedSnoc(due, i, w, old(nextId));
        ghost var front := Minted(due[..i], w, old(nextId));
        var ok := RenewRow(due[i], w);
        if !ok {
          skipped := skipped + 1;
          continue;
        }
        WrittenSnoc(old(files), front, Successor(due[i], old(nextId) + |front|, w));
        renewed := renewed + 1;
      }
      assert due[..|due|] == due;
      MintedAt(due, w, old(nextId));
    }
  }

  method LiveRows(rows: seq<Row>) returns (live: seq<Row>)
    ensures live == Live(rows)
  {
    live := [];
    for i := 0 to |rows|
      invariant live == Live(rows[..i])
    {
      assert rows[..i + 1][..i] == rows[..i];
      if !rows[i].revoked {
        live := live + [rows[i]];
      }
    }
    assert rows[..|rows|] == rows;
  }

  method FilterDue(rows: seq<Row>, pct: real, now: real) returns (due: seq<Row>)
    ensures due == DueOf(rows, pct, now)
  {
    due := [];
    for i := 0 to |rows|
      invariant due == DueOf(rows[..i], pct, now)
    {
      assert rows[..i + 1][..i] == rows[..i];
      if Due(rows[i], pct, now) {
        due := due + [rows[i]];
      }
    }
    assert rows[..|rows|] == rows;
  }

  // ---------------------------------------------------------------------------
  // What the first run mints
  // ---------------------------------------------------------------------------

  lemma LiveIff(rows: seq<Row>, r: Row)
    ensures r in Live(rows) <==> r in rows && !r.revoked
  {
    FilterIff(rows, (r: Row) => !r.revoked, r);
  }

  lemma DueIff(rows: seq<Row>, pct: real, now: real, r: Row)
    ensures r in DueRows(rows, pct, now) <==> r in rows && Wanted(rows, r, pct, now)
  {
    var live := Live(rows);
    LiveIff(rows, r);
    FilterIff(live, (r: Row) => IsCurrent(live, r), r);
    FilterIff(Currents(live, live), (r: Row) => Due(r, pct, now), r);
  }

  /** A run renews exactly the live, current, due rows that have their paths and can be signed. */
  lemma RenewedExactly(rows: seq<Row>, pct: real, now: real, w: Renewer, r: Row)
    ensures r in RunSources(rows, pct, now, w) <==>
      r in rows && Wanted(rows, r, pct, now) && Renewable(r, w)
  {
    DueIff(rows, pct, now, r);
    FilterIff(DueRows(rows, pct, now), (r: Row) => Renewable(r, w), r);
  }

  predicate Distinct(rows: seq<Row>) {
    forall i, j :: 0 <= i < j < |rows| ==> rows[i].id != rows[j].id
  }

  lemma {:induction false} FilterDistinct(rows: seq<Row>, keep: Row -> bool)
    requires Distinct(rows)
    ensures Distinct(Filter(rows, keep))
  {
    if rows != [] {
      var n := |rows| - 1;
      FilterDistinct(rows[..n], keep);
      var front := Filter(rows[..n], keep);
      forall i | 0 <= i < |front| ensures front[i].id != rows[n].id {
        FilterIff(rows[..n], keep, front[i]);
      }
    }
  }

  lemma SourcesDistinct(rows: seq<Row>, pct: real, now: real, w: Renewer)
    requires Distinct(rows)
    ensures Distinct(RunSources(rows, pct, now, w))
  {
    var live := Live(rows);
    FilterDistinct(rows, (r: Row) => !r.revoked);
    FilterDistinct(live, (r: Row) => IsCurrent(live, r));
    FilterDistinct(Currents(live, live), (r: Row) => Due(r, pct, now));
    FilterDistinct(DueRows(rows, pct, now), (r: Row) => Renewable(r, w));
  }

  /** No stored path is renewed twice: two renewed rows have different certificate paths. */
  lemma OneLeafPerPath(rows: seq<Row>, pct: real, now: real, w: Renewer, i: nat, j: nat)
    requires Distinct(rows)
    requires i < j < |RunSources(rows, pct, now, w)|
    ensures RunSources(rows, pct, now, w)[i].cert != RunSources(rows, pct, now, w)[j].cert
  {
    var s := RunSources(rows, pct, now, w);
    SourcesDistinct(rows, pct, now, w);
    RenewedExactly(rows, pct, now, w, s[i]);
    RenewedExactly(rows, pct, now, w, s[j]);
    LiveIff(rows, s[i]);
    LiveIff(rows, s[j]);
  }

  lemma IdsStayValid(rows: seq<Row>, pct: real, now: real, w: Renewer, nextId: nat)
    requires ValidIds(rows, nextId)
    ensures ValidIds(AfterRun(rows, pct, now, w, nextId), nextId + |RunSources(rows, pct, now, w)|)
  {
    var m := Minted(DueRows(rows, pct, now), w, nextId);
    MintedAt(DueRows(rows, pct, now), w, nextId);
    var all := rows + m;
    forall i | 0 <= i < |all| ensures all[i] == if i < |rows| then rows[i] else m[i - |rows|] {}
  }

  // ---------------------------------------------------------------------------
  // What a second run at the same instant mints
  // ---------------------------------------------------------------------------

  lemma LiveConcat(rows: seq<Row>, more: seq<Row>)
    requires forall i :: 0 <= i < |more| ==> !more[i].revoked
    ensures Live(rows + more) == Live(rows) + more
  {
    FilterConcat(rows, more, (r: Row) => !r.revoked);
    FilterAll(more, (r: Row) => !r.revoked);
  }

  /** A row stays current through a run exactly when no minted row takes over its path. */
  lemma CurrentAfter(rows: seq<Row>, m: seq<Row>, nextId: nat, r: Row)
    requires ValidIds(rows, nextId) && r in rows && r.cert != ""
    requires forall i :: 0 <= i < |m| ==> !m[i].revoked && m[i].id >= nextId
    ensures IsCurrent(Live(rows + m), r) <==>
      IsCurrent(Live(rows), r) && forall i :: 0 <= i < |m| ==> m[i].cert != r.cert
  {
    LiveConcat(rows, m);
    var live, all := Live(rows), Live(rows) + m;
    forall i | 0 <= i < |all| ensures all[i] == if i < |live| then live[i] else m[i - |live|] {}
    if IsCurrent(all, r) {
      forall i | 0 <= i < |live| && live[i].cert == r.cert ensures live[i].id <= r.id { assert all[i] == live[i]; }
      forall i | 0 <= i < |m| ensures m[i].cert != r.cert { assert all[|live| + i] == m[i]; }
    }
  }

  /** The path is stored in the form that renewals store. */
  predicate IsNormal(w: Renewer, p: string) {
    w.spell(p) == p
  }

  /** A renewed row is superseded by its successor exactly when its stored path is in normal form. */
  lemma SupersededIffNormal(rows: seq<Row>, pct: real, now: real, w: Renewer, nextId: nat, r: Row)
    requires Stable(w) && ValidIds(rows, nextId) && r in RunSources(rows, pct, now, w)
    ensures IsCurrent(Live(AfterRun(rows, pct, now, w, nextId)), r) <==> !IsNormal(w, r.cert)
  {
    var s := RunSources(rows, pct, now, w);
    var m := Minted(DueRows(rows, pct, now), w, nextId);
    MintedAt(DueRows(rows, pct, now), w, nextId);
    RenewedExactly(rows, pct, now, w, r);
    CurrentAfter(rows, m, nextId, r);
    var k :| 0 <= k < |s| && s[k] == r;
    assert m[k].cert == w.spell(r.cert);
    forall i | 0 <= i < |m| && !IsNormal(w, r.cert) ensures m[i].cert != r.cert {
      StableAt(w, s[i].cert);
    }
  }

  /** The second run's backend signs for the same due rows, and for whatever the first run minted. */
  predicate SignsAgain(
      rows: seq<Row>, pct: real, now: real, w: Renewer, again: Renewer, nextId: nat)
  {
    var due := DueRows(rows, pct, now);
    && (forall i :: 0 <= i < |due| ==> (w.issue(due[i]).Some? <==> again.issue(due[i]).Some?))
    && forall i :: 0 <= i < |Minted(due, w, nextId)| ==> again.issue(Minted(due, w, nextId)[i]).Some?
  }

  /** The leaf minted for the row is itself due. */
  predicate LeafDue(r: Row, pct: real, now: real, w: Renewer) {
    w.issue(r).Some? && DueWindow(w.issue(r).value.notBefore, w.issue(r).value.notAfter, pct, now)
  }

  /** A minted row is current exactly when no later one has its path. */
  lemma MintedCurrent(rows: seq<Row>, m: seq<Row>, nextId: nat, r: Row)
    requires ValidIds(rows, nextId) && r in m
    requires forall i :: 0 <= i < |m| ==> !m[i].revoked && m[i].id >= nextId
    ensures IsCurrent(Live(rows + m), r) <==> IsCurrent(m, r)
  {
    LiveConcat(rows, m);
    var live, all := Live(rows), Live(rows) + m;
    forall i | 0 <= i < |live| ensures live[i].id < nextId { LiveIff(rows, live[i]); }
    forall i | 0 <= i < |all| ensures all[i] == if i < |live| then live[i] else m[i - |live|] {}
    if IsCurrent(all, r) {
      forall i | 0 <= i < |m| && m[i].cert == r.cert && r.cert != "" ensures m[i].id <= r.id { assert all[|live| + i] == m[i]; }
    }
  }

  /**
   What a second run at the same instant renews: rows renewed before from a path not in normal form,
   and minted rows that are due already and have no later one on their path.
   */
  lemma RenewedAgainExactly(
      rows: seq<Row>, pct: real, now: real, w: Renewer, again: Renewer, nextId: nat, r: Row)
    requires Stable(w) && ValidIds(rows, nextId) && SignsAgain(rows, pct, now, w, again, nextId)
    ensures var m := Minted(DueRows(rows, pct, now), w, nextId);
      r in RunSources(AfterRun(rows, pct, now, w, nextId), pct, now, again) <==>
        || (r in RunSources(rows, pct, now, w) && !IsNormal(w, r.cert))
        || (r in m && IsCurrent(m, r) && Due(r, pct, now))
  {
    var s := RunSources(rows, pct, now, w);
    var m := Minted(DueRows(rows, pct, now), w, nextId);
    MintedAt(DueRows(rows, pct, now), w, nextId);
    RenewedExactly(rows, pct, now, w, r);
    RenewedExactly(rows + m, pct, now, again, r);
    DueIff(rows, pct, now, r);
    if r in m {
      MintedAgain(rows, pct, now, w, again, nextId, r);
    } else if r in s {
      SupersededIffNormal(rows, pct, now, w, nextId, r);
    } else if r in rows && r.cert != "" {
      CurrentAfter(rows, m, nextId, r);
    }
  }

  lemma MintedAgain(
      rows: seq<Row>, pct: real, now: real, w: Renewer, again: Renewer, nextId: nat, r: Row)
    requires Stable(w) && ValidIds(rows, nextId) && SignsAgain(rows, pct, now, w, again, nextId)
    requires r in Minted(DueRows(rows, pct, now), w, nextId)
    ensures var m := Minted(DueRows(rows, pct, now), w, nextId);
      && r !in rows && Renewable(r, again) && !r.revoked
      && (IsCurrent(Live(rows + m), r) <==> IsCurrent(m, r))
  {
    var m := Minted(DueRows(rows, pct, now), w, nextId);
    var s := RunSources(rows, pct, now, w);
    MintedAt(DueRows(rows, pct, now), w, nextId);
    MintedCurrent(rows, m, nextId, r);
    var k :| 0 <= k < |m| && m[k] == r;
    StableAt(w, s[k].cert);
    StableAt(w, s[k].key);
    StableAt(w, s[k].chain);
  }

  /**
   A second run at the same instant mints nothing exactly when every renewed row had its path in
   normal form and got a leaf that is not due.
   */
  lemma IdempotentIff(
      rows: seq<Row>, pct: real, now: real, w: Renewer, again: Renewer, nextId: nat)
    requires Stable(w) && ValidIds(rows, nextId) && SignsAgain(rows, pct, now, w, again, nextId)
    ensures RunSources(AfterRun(rows, pct, now, w, nextId), pct, now, again) == [] <==>
      forall r :: r in RunSources(rows, pct, now, w) ==> IsNormal(w, r.cert) && !LeafDue(r, pct, now, w)
  {
    var s := RunSources(rows, pct, now, w);
    var m := Minted(DueRows(rows, pct, now), w, nextId);
    var s' := RunSources(AfterRun(rows, pct, now, w, nextId), pct, now, again);
    MintedAt(DueRows(rows, pct, now), w, nextId);
    if s' == [] {
      forall r | r in s ensures IsNormal(w, r.cert) {
        RenewedAgainExactly(rows, pct, now, w, again, nextId, r);
      }
      forall k | 0 <= k < |s| ensures !LeafDue(s[k], pct, now, w) {
        SuccessorIsCurrent(rows, pct, now, w, nextId, k);
        RenewedAgainExactly(rows, pct, now, w, again, nextId, m[k]);
      }
    } else {
      RenewedAgainExactly(rows, pct, now, w, again, nextId, s'[0]);
    }
  }

  /** On paths in normal form, no two minted rows share one. */
  lemma SuccessorIsCurrent(rows: seq<Row>, pct: real, now: real, w: Renewer, nextId: nat, k: nat)
    requires Stable(w) && ValidIds(rows, nextId) && k < |RunSources(rows, pct, now, w)|
    requires forall r :: r in RunSources(rows, pct, now, w) ==> IsNormal(w, r.cert)
    ensures var m := Minted(DueRows(rows, pct, now), w, nextId);
      k < |m| && IsCurrent(m, m[k]) && m[k].cert == RunSources(rows, pct, now, w)[k].cert
  {
    var s := RunSources(rows, pct, now, w);
    var m := Minted(DueRows(rows, pct, now), w, nextId);
    MintedAt(DueRows(rows, pct, now), w, nextId);
    forall i | 0 <= i < |m| && m[i].cert == m[k].cert ensures m[i].id <= m[k].id {
      assert s[i] in s && s[k] in s;
      if k < i {
        OneLeafPerPath(rows, pct, now, w, k, i);
      }
    }
  }

  /** Every path in the registry is absent or in normal form. */
  predicate NormalPaths(w: Renewer, rows: seq<Row>) {
    forall i :: 0 <= i < |rows| ==> rows[i].cert == "" || IsNormal(w, rows[i].cert)
  }

  /** The paths the command itself stores are in normal form, so its own registry stays so. */
  lemma RunsKeepNormalPaths(rows: seq<Row>, pct: real, now: real, w: Renewer, nextId: nat)
    requires Stable(w) && NormalPaths(w, rows)
    ensures NormalPaths(w, AfterRun(rows, pct, now, w, nextId))
  {
    var s := RunSources(rows, pct, now, w);
    var m := Minted(DueRows(rows, pct, now), w, nextId);
    MintedAt(DueRows(rows, pct, now), w, nextId);
    forall i | 0 <= i < |m| ensures IsNormal(w, m[i].cert) { StableAt(w, s[i].cert); }
  }

  /** On a registry in normal form, a second run changes nothing exactly when no leaf is due when minted. */
  lemma IdempotentOnNormalPaths(
      rows: seq<Row>, pct: real, now: real, w: Renewer, again: Renewer, nextId: nat)
    requires Stable(w) && ValidIds(rows, nextId) && SignsAgain(rows, pct, now, w, again, nextId) && NormalPaths(w, rows)
    ensures var rows' := AfterRun(rows, pct, now, w, nextId);
      AfterRun(rows', pct, now, again, nextId + |RunSources(rows, pct, now, w)|) == rows' <==>
        forall r :: r in RunSources(rows, pct, now, w) ==> !LeafDue(r, pct, now, w)
  {
    forall r | r in RunSources(rows, pct, now, w) ensures IsNormal(w, r.cert) {
      RenewedExactly(rows, pct, now, w, r);
    }
    IdempotentIff(rows, pct, now, w, again, nextId);
    var rows' := AfterRun(rows, pct, now, w, nextId);
    MintedAt(DueRows(rows', pct, now), again, nextId + |RunSources(rows, pct, now, w)|);
  }

  lemma AloneIsCurrent(r: Row)
    requires !r.revoked
    ensures IsCurrent(Live([r]), r)
  {
    forall i | 0 <= i < |Live([r])| ensures Live([r])[i].id <= r.id { LiveIff([r], Live([r])[i]); }
  }

  /** A row stored as "a/" is renewed again by a second run. */
  lemma TrailingSlashIsRenewedAgain(r: Row, pct: real, now: real, w: Renewer)
    requires r.cert == "a/" && r.key != "" && r.chain != "" && !r.revoked && w.issue(r).Some?
    requires Spells(w) && Due(r, pct, now) && SignsAgain([r], pct, now, w, w, r.id + 1)
    ensures r in RunSources(AfterRun([r], pct, now, w, r.id + 1), pct, now, w)
  {
    TrailingSlashIsLost();
    PathTextIsStable(w);
    AloneIsCurrent(r);
    RenewedExactly([r], pct, now, w, r);
    RenewedAgainExactly([r], pct, now, w, w, r.id + 1, r);
  }

  // ---------------------------------------------------------------------------
  // What a renewal keeps
  // ---------------------------------------------------------------------------

  /** The backend certifies the names it was asked for. */
  predicate Echoes(r: Row, leaf: Leaf) {
    leaf.commonName == r.subject.commonName && leaf.sans == SanList(r.sans)
  }

  /** Names that can be told apart again once joined with commas. */
  predicate Listable(sans: seq<string>) {
    forall i :: 0 <= i < |sans| ==> sans[i] != "" && ',' !in sans[i]
  }

  lemma ListedNamesComeBack(sans: seq<string>)
    requires Listable(sans)
    ensures SanList(SanText(sans)) == sans
  {
    if sans == [] {
      SplitWhole<char>("", ',');
      assert [""][..0] == [];
    } else {
      SplitJoin(sans, ',');
      FilterAll(sans, (part: string) => part != "");
    }
  }

  /** Stored names survive being split, filtered and joined. */
  lemma SanRoundTrip(text: string)
    ensures SanList(SanText(SanList(text))) == SanList(text)
  {
    var sans := SanList(text);
    SplitPartsLackSep(text, ',');
    forall i | 0 <= i < |sans| ensures sans[i] != "" && ',' !in sans[i] {
      FilterIff(Split(text, ','), (part: string) => part != "", sans[i]);
    }
    ListedNamesComeBack(sans);
  }

  /** The successor records what the new leaf certifies, even where that is not what the old row says. */
  lemma SuccessorRecordsTheLeaf(r: Row, id: nat, w: Renewer)
    requires Renewable(r, w) && Listable(w.issue(r).value.sans)
    ensures var next, leaf := Successor(r, id, w), w.issue(r).value;
      && next.id == id && !next.revoked
      && next.subject.commonName == leaf.commonName && SanList(next.sans) == leaf.sans
      && next.notBefore == leaf.notBefore && next.notAfter == leaf.notAfter
      && next.subject.certType == r.subject.certType && next.subject.operatorId == r.subject.operatorId
  {
    ListedNamesComeBack(w.issue(r).value.sans);
  }

  /** Subject and names pass from row to successor; the tenant does exactly when there is none. */
  lemma RenewalKeepsSubject(r: Row, id: nat, w: Renewer)
    requires Renewable(r, w) && Echoes(r, w.issue(r).value)
    ensures var next := Successor(r, id, w);
      && next.subject == r.subject && SanList(next.sans) == SanList(r.sans)
      && (next.tenant == r.tenant <==> r.tenant == None)
  {
    SanRoundTrip(r.sans);
  }

  // ---------------------------------------------------------------------------
  // Leaves from the local backend
  // ---------------------------------------------------------------------------

  /** The lifetime asked for a successor: the source row's window in whole seconds, at least one. */
  function Ttl(r: Row): int {
    var seconds := r.notAfter - r.notBefore;
    Max(1, if seconds >= 0.0 then seconds.Floor else -((-seconds).Floor))
  }

  /** The local backend dates a leaf one minute back. */
  function LocalLeaf(r: Row, now: real): Leaf {
    Leaf(r.subject.commonName, SanList(r.sans), now - 60.0, now + Ttl(r) as real)
  }

  predicate Above(k: real, pct: real, seconds: real) {
    k < pct * seconds
  }

  /** A minute is less than `pct` percent of that many seconds. */
  predicate Short(pct: real, seconds: int) {
    Above(6000.0, pct, seconds as real)
  }

  /** A minute is less than `pct` percent of the window of the row's local leaf. */
  predicate MinuteIsShort(r: Row, pct: real) {
    Short(pct, Ttl(r) + 60)
  }

  lemma DueAfter(notBefore: real, notAfter: real, pct: real, now: real, elapsed: real, window: real)
    requires notAfter - notBefore == window > 0.0 && now - notBefore == elapsed
    ensures DueWindow(notBefore, notAfter, pct, now) <==> !Above(elapsed * 100.0, pct, window)
  {
    ShareIff(elapsed, window, pct);
  }

  lemma LocalShare(ttl: int, pct: real, now: real)
    requires ttl >= 1
    ensures !DueWindow(now - 60.0, now + ttl as real, pct, now) <==> Short(pct, ttl + 60)
  {
    DueAfter(now - 60.0, now + ttl as real, pct, now, 60.0, (ttl + 60) as real);
  }

  /** A local leaf is already due when signed exactly when one minute is that share of its window. */
  lemma LocalLeafIsFresh(r: Row, pct: real, now: real)
    ensures var leaf := LocalLeaf(r, now);
      !DueWindow(leaf.notBefore, leaf.notAfter, pct, now) <==> MinuteIsShort(r, pct)
  {
    LocalShare(Ttl(r), pct, now);
  }

  function LocalRenewer(now: real): Renewer {
    Renewer((r: Row) => Some(LocalLeaf(r, now)), (p: string) => Normal(p))
  }

  /**
   With the local backend, on a registry in normal form: a second run changes nothing exactly when a
   minute is under the threshold's share of the window of every row the first renewed.
   */
  lemma LocalIdempotentIff(rows: seq<Row>, pct: real, now: real, nextId: nat)
    requires ValidIds(rows, nextId) && NormalPaths(LocalRenewer(now), rows)
    ensures var w := LocalRenewer(now);
      var rows' := AfterRun(rows, pct, now, w, nextId);
      AfterRun(rows', pct, now, w, nextId + |RunSources(rows, pct, now, w)|) == rows' <==>
        forall r :: r in RunSources(rows, pct, now, w) ==> MinuteIsShort(r, pct)
  {
    forall r: Row ensures !LeafDue(r, pct, now, LocalRenewer(now)) <==> MinuteIsShort(r, pct) {
      LocalLeafIsFresh(r, pct, now);
    }
    PathTextIsStable(LocalRenewer(now));
    IdempotentOnNormalPaths(rows, pct, now, LocalRenewer(now), LocalRenewer(now), nextId);
  }

  lemma ShortWindow(r: Row, now: real)
    requires 0.0 < r.notAfter - r.notBefore <= 60.0 && r.notAfter <= now
    ensures Due(r, 50.0, now) && Ttl(r) <= 60
  {
    ShareIff(now - r.notBefore, r.notAfter - r.notBefore, 50.0);
    assert (r.notAfter - r.notBefore).Floor <= 60;
  }

  /** A certificate of at most a minute, renewed at the default threshold, is renewed again by a second run. */
  lemma ShortLeafIsRenewedAgain(r: Row, now: real)
    requires r.cert != "" && r.key != "" && r.chain != "" && !r.revoked
    requires 0.0 < r.notAfter - r.notBefore <= 60.0 && r.notAfter <= now
    ensures var w := LocalRenewer(now);
      RunSources(AfterRun([r], 50.0, now, w, r.id + 1), 50.0, now, w) != []
  {
    var w := LocalRenewer(now);
    ShortWindow(r, now);
    AloneIsCurrent(r);
    RenewedExactly([r], 50.0, now, w, r);
    ShortLeafIsDue(r, now);
    PathTextIsStable(w);
    DueLeafIsRenewed([r], 50.0, now, w, w, r.id + 1, r);
  }

  lemma ShortLeafIsDue(r: Row, now: real)
    requires Ttl(r) <= 60
    ensures LeafDue(r, 50.0, now, LocalRenewer(now))
  {
    LocalLeafIsFresh(r, 50.0, now);
  }

  lemma DueLeafIsRenewed(
      rows: seq<Row>, pct: real, now: real, w: Renewer, again: Renewer, nextId: nat, r: Row)
    requires Stable(w) && ValidIds(rows, nextId) && SignsAgain(rows, pct, now, w, again, nextId)
    requires r in RunSources(rows, pct, now, w) && LeafDue(r, pct, now, w)
    ensures RunSources(AfterRun(rows, pct, now, w, nextId), pct, now, again) != []
  {
    IdempotentIff(rows, pct, now, w, again, nextId);
  }

  lemma ShareIff(elapsed: real, window: real, pct: real)
    requires window > 0.0
    ensures elapsed / window * 100.0 >= pct <==> !Above(elapsed * 100.0, pct, window)
  {
    var share := elapsed / window;
    assert share * window == elapsed;
    assert (share * 100.0) * window == elapsed * 100.0;
  }

  /** Each renewal of a whole-second window through the local backend makes it a minute longer. */
  lemma LocalRenewalsGrow(r: Row, now: real, seconds: nat)
    requires seconds >= 1 && r.notAfter - r.notBefore == seconds as real
    ensures var next := LocalLeaf(r, now);
      next.notAfter - next.notBefore == (seconds + 60) as real
  {
    var window := r.notAfter - r.notBefore;
    assert window.Floor == seconds;
    assert Ttl(r) == seconds;
  }
}
