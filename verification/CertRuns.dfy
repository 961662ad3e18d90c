/** `certs renew --due` run after run: what keeps being renewed, when it stops, and what the files hold. */
module CertRuns {
  import opened Common
  import opened PosixPath
  import opened CertRenewal

  datatype Ledger = Ledger(rows: seq<Row>, nextId: nat)

  /** One run of the command: its threshold, its clock and what it calls. */
  datatype Batch = Batch(pct: real, now: real, w: Renewer)

  function Renewing(g: Ledger, b: Batch): seq<Row> {
    RunSources(g.rows, b.pct, b.now, b.w)
  }

  function RunOnce(g: Ledger, b: Batch): Ledger {
    Ledger(AfterRun(g.rows, b.pct, b.now, b.w, g.nextId), g.nextId + |Renewing(g, b)|)
  }

  function RunAll(g: Ledger, batches: seq<Batch>): Ledger
    decreases |batches|
  {
    if batches == [] then g else RunAll(RunOnce(g, batches[0]), batches[1..])
  }

  function RunTimes(g: Ledger, b: Batch, n: nat): Ledger
    decreases n
  {
    if n == 0 then g else RunTimes(RunOnce(g, b), b, n - 1)
  }

  // ---------------------------------------------------------------------------
  // Paths that are not in normal form
  // ---------------------------------------------------------------------------

  /** A live, current row with its three paths, the first of them not in normal form. */
  predicate Stuck(w: Renewer, g: Ledger, r: Row) {
    && ValidIds(g.rows, g.nextId) && r in g.rows && !r.revoked && IsCurrent(Live(g.rows), r)
    && r.cert != "" && r.key != "" && r.chain != "" && !IsNormal(w, r.cert)
  }

  /** The run finds the row due, can sign for it, and spells paths as `w` does. */
  predicate Selects(b: Batch, r: Row) {
    Due(r, b.pct, b.now) && b.w.issue(r).Some?
  }

  ghost predicate SpellsLike(w: Renewer, b: Batch) {
    b.w.spell == w.spell
  }

  lemma StuckStays(w: Renewer, g: Ledger, b: Batch, r: Row)
    requires Stable(w) && Stuck(w, g, r) && SpellsLike(w, b)
    ensures Stuck(w, RunOnce(g, b), r)
  {
    var due := DueRows(g.rows, b.pct, b.now);
    var m := Minted(due, b.w, g.nextId);
    MintedAt(due, b.w, g.nextId);
    IdsStayValid(g.rows, b.pct, b.now, b.w, g.nextId);
    forall i | 0 <= i < |m| ensures m[i].cert != r.cert { StableAt(w, Sources(due, b.w)[i].cert); }
    CurrentAfter(g.rows, m, g.nextId, r);
  }

  /**
   No run ever supersedes such a row: after any runs, each run that finds it due and can sign for it
   renews it once more.
   */
  lemma {:induction false} StuckIsRenewedByEveryRun(w: Renewer, g: Ledger, batches: seq<Batch>, b: Batch, r: Row)
    requires Stable(w) && Stuck(w, g, r) && Selects(b, r)
    requires forall i :: 0 <= i < |batches| ==> SpellsLike(w, batches[i])
    ensures r in Renewing(RunAll(g, batches), b)
    decreases |batches|
  {
    if batches == [] {
      RenewedExactly(g.rows, b.pct, b.now, b.w, r);
    } else {
      StuckStays(w, g, batches[0], r);
      StuckIsRenewedByEveryRun(w, RunOnce(g, batches[0]), batches[1..], b, r);
    }
  }

  // ---------------------------------------------------------------------------
  // The local backend, run after run at one instant
  // ---------------------------------------------------------------------------

  /** A run with the local backend. */
  ghost predicate IsLocal(b: Batch) {
    Stable(b.w) && forall r: Row :: b.w.issue(r) == Some(LocalLeaf(r, b.now))
  }

  lemma LocalRunIsLocal(pct: real, now: real)
    ensures IsLocal(Batch(pct, now, LocalRenewer(now)))
  {
    PathTextIsStable(LocalRenewer(now));
  }

  /** A longer lifetime is enough if a shorter one is. */
  ghost predicate Monotone(enough: int -> bool) {
    forall a: int, b: int :: 1 <= a <= b && enough(a) ==> enough(b)
  }

  /** The lifetime of a row, as a function value. */
  type Life = Row -> int

  /** `enough` tells, from the lifetime a local renewal gives, whether its leaf is not yet due. */
  ghost predicate Tells(life: Life, enough: int -> bool, b: Batch) {
    forall r: Row, id: nat :: Renewable(r, b.w) ==>
      && (Due(Successor(r, id, b.w), b.pct, b.now) <==> !enough(life(r) + 60))
      && life(Successor(r, id, b.w)) == life(r) + 60 && life(r) >= 1
  }

  /** After `n` renewals every one of the rows has a lifetime that is enough. */
  predicate AllOutgrown(rows: seq<Row>, life: Life, enough: int -> bool, n: nat) {
    forall r :: r in rows ==> enough(life(r) + 60 * n)
  }

  /** A run would renew nothing. */
  predicate Settled(g: Ledger, b: Batch) {
    Renewing(g, b) == []
  }

  predicate Clean(w: Renewer, g: Ledger) {
    ValidIds(g.rows, g.nextId) && NormalPaths(w, g.rows)
  }

  lemma CleanStays(g: Ledger, b: Batch)
    requires Clean(b.w, g) && Stable(b.w)
    ensures Clean(b.w, RunOnce(g, b))
  {
    IdsStayValid(g.rows, b.pct, b.now, b.w, g.nextId);
    RunsKeepNormalPaths(g.rows, b.pct, b.now, b.w, g.nextId);
  }

  lemma CleanSources(g: Ledger, b: Batch)
    requires Clean(b.w, g)
    ensures forall r :: r in Renewing(g, b) ==> IsNormal(b.w, r.cert)
  {
    forall r | r in Renewing(g, b) ensures IsNormal(b.w, r.cert) {
      RenewedExactly(g.rows, b.pct, b.now, b.w, r);
    }
  }

  /** `m[k]` succeeds `s[k]` with a minute more, and `next` are those whose lifetime was not yet enough. */
  ghost predicate Continues(s: seq<Row>, m: seq<Row>, next: seq<Row>, life: Life, enough: int -> bool) {
    && |m| == |s| && (forall k :: 0 <= k < |s| ==> ContinuesAt(s[k], m[k], next, life, enough))
    && forall r :: r in next ==> r in m
  }

  predicate ContinuesAt(r: Row, next: Row, rows: seq<Row>, life: Life, enough: int -> bool) {
    life(r) >= 1 && life(next) == life(r) + 60 && (next in rows <==> !enough(life(r) + 60))
  }

  lemma NextAt(g: Ledger, b: Batch, life: Life, enough: int -> bool, k: nat)
    requires Clean(b.w, g) && Stable(b.w) && Signs(b) && Tells(life, enough, b) && k < |Renewing(g, b)|
    ensures var m := Minted(DueRows(g.rows, b.pct, b.now), b.w, g.nextId);
      k < |m| && ContinuesAt(Renewing(g, b)[k], m[k], Renewing(RunOnce(g, b), b), life, enough)
  {
    var due := DueRows(g.rows, b.pct, b.now);
    MintedAt(due, b.w, g.nextId);
    CleanSources(g, b);
    SuccessorIsCurrent(g.rows, b.pct, b.now, b.w, g.nextId, k);
    RenewedAgainExactly(g.rows, b.pct, b.now, b.w, b.w, g.nextId, Minted(due, b.w, g.nextId)[k]);
  }

  /** The backend never fails. */
  ghost predicate Signs(b: Batch) {
    forall r: Row :: b.w.issue(r).Some?
  }

  lemma NextOnly(g: Ledger, b: Batch, r: Row)
    requires Clean(b.w, g) && Stable(b.w) && Signs(b) && r in Renewing(RunOnce(g, b), b)
    ensures r in Minted(DueRows(g.rows, b.pct, b.now), b.w, g.nextId)
  {
    CleanSources(g, b);
    RenewedAgainExactly(g.rows, b.pct, b.now, b.w, b.w, g.nextId, r);
  }

  /** The next run renews exactly the successors of rows whose lifetime is not yet enough. */
  lemma NextRenewing(g: Ledger, b: Batch, life: Life, enough: int -> bool) returns (m: seq<Row>)
    requires Clean(b.w, g) && Stable(b.w) && Signs(b) && Tells(life, enough, b)
    ensures Continues(Renewing(g, b), m, Renewing(RunOnce(g, b), b), life, enough)
  {
    m := Minted(DueRows(g.rows, b.pct, b.now), b.w, g.nextId);
    MintedAt(DueRows(g.rows, b.pct, b.now), b.w, g.nextId);
    forall k | 0 <= k < |Renewing(g, b)|
      ensures ContinuesAt(Renewing(g, b)[k], m[k], Renewing(RunOnce(g, b), b), life, enough)
    {
      NextAt(g, b, life, enough, k);
    }
    forall r | r in Renewing(RunOnce(g, b), b) ensures r in m { NextOnly(g, b, r); }
  }

  lemma FirstCore(s: seq<Row>, m: seq<Row>, next: seq<Row>, life: Life, enough: int -> bool)
    requires Continues(s, m, next, life, enough)
    ensures next == [] <==> AllOutgrown(s, life, enough, 1)
  {
    if next == [] {
      forall k | 0 <= k < |s| ensures enough(life(s[k]) + 60) { assert ContinuesAt(s[k], m[k], next, life, enough); }
    } else {
      assert next[0] in next;
      var k :| 0 <= k < |m| && m[k] == next[0];
      assert ContinuesAt(s[k], m[k], next, life, enough);
      assert s[k] in s && !enough(life(s[k]) + 60 * 1);
    }
  }

  lemma LaterCore(s: seq<Row>, m: seq<Row>, next: seq<Row>, life: Life, enough: int -> bool, n: nat)
    requires Continues(s, m, next, life, enough) && Monotone(enough) && n >= 2
    ensures AllOutgrown(next, life, enough, n - 1) <==> AllOutgrown(s, life, enough, n)
  {
    if AllOutgrown(next, life, enough, n - 1) {
      forall k | 0 <= k < |s| ensures enough(life(s[k]) + 60 * n) {
        assert ContinuesAt(s[k], m[k], next, life, enough);
        assert m[k] in next ==> enough(life(m[k]) + 60 * (n - 1));
      }
    }
    if AllOutgrown(s, life, enough, n) {
      forall r | r in next ensures enough(life(r) + 60 * (n - 1)) {
        var k :| 0 <= k < |m| && m[k] == r;
        assert ContinuesAt(s[k], m[k], next, life, enough);
        assert s[k] in s && life(s[k]) + 60 * n == life(r) + 60 * (n - 1);
      }
    }
  }

  lemma FirstRun(g: Ledger, b: Batch, life: Life, enough: int -> bool)
    requires Clean(b.w, g) && Stable(b.w) && Signs(b) && Tells(life, enough, b)
    ensures Settled(RunOnce(g, b), b) <==> AllOutgrown(Renewing(g, b), life, enough, 1)
  {
    var m := NextRenewing(g, b, life, enough);
    FirstCore(Renewing(g, b), m, Renewing(RunOnce(g, b), b), life, enough);
  }

  lemma LaterRun(g: Ledger, b: Batch, life: Life, enough: int -> bool, n: nat)
    requires Clean(b.w, g) && Stable(b.w) && Signs(b) && Tells(life, enough, b) && Monotone(enough) && n >= 2
    ensures AllOutgrown(Renewing(RunOnce(g, b), b), life, enough, n - 1) <==> AllOutgrown(Renewing(g, b), life, enough, n)
  {
    var m := NextRenewing(g, b, life, enough);
    LaterCore(Renewing(g, b), m, Renewing(RunOnce(g, b), b), life, enough, n);
  }

  lemma {:induction false} SettledIff(g: Ledger, b: Batch, life: Life, enough: int -> bool, n: nat)
    requires Clean(b.w, g) && Stable(b.w) && Signs(b) && Tells(life, enough, b) && Monotone(enough) && n >= 1
    ensures Settled(RunTimes(g, b, n), b) <==> AllOutgrown(Renewing(g, b), life, enough, n)
    decreases n
  {
    if n == 1 {
      assert RunTimes(RunOnce(g, b), b, 0) == RunOnce(g, b);
      FirstRun(g, b, life, enough);
    } else {
      CleanStays(g, b);
      SettledIff(RunOnce(g, b), b, life, enough, n - 1);
      LaterRun(g, b, life, enough, n);
    }
  }

  lemma TtlIsPositive(r: Row)
    ensures Ttl(r) >= 1
  {
  }

  /** The row a local renewal records has a lifetime one minute longer. */
  lemma MintedTtl(r: Row, id: nat, b: Batch)
    requires IsLocal(b) && Renewable(r, b.w)
    ensures Ttl(Successor(r, id, b.w)) == Ttl(r) + 60
  {
    var next := Successor(r, id, b.w);
    var window := next.notAfter - next.notBefore;
    assert window == (Ttl(r) + 60) as real;
    assert window.Floor == Ttl(r) + 60;
  }

  function Lifetime(): Life {
    (r: Row) => Ttl(r)
  }

  /** Whether a minute is a short share, as a function of the lifetime. */
  function ShortShare(pct: real): int -> bool {
    (seconds: int) => Short(pct, seconds)
  }

  lemma Product(x: real, y: real)
    requires x >= 0.0 && y >= 0.0
    ensures x * y >= 0.0
  {
  }

  lemma MulMonotone(x: real, a: real, b: real)
    requires x >= 0.0 && a <= b
    ensures x * a <= x * b
  {
  }

  lemma AboveStays(k: real, pct: real, a: real, b: real)
    requires k >= 0.0 && 0.0 <= a <= b && Above(k, pct, a)
    ensures Above(k, pct, b)
  {
    if pct < 0.0 {
      Product(-pct, a);
    } else {
      MulMonotone(pct, a, b);
    }
  }

  lemma ShortStays(pct: real, a: int, b: int)
    requires 1 <= a <= b && Short(pct, a)
    ensures Short(pct, b)
  {
    AboveStays(6000.0, pct, a as real, b as real);
  }

  lemma ShortShareTells(b: Batch)
    requires IsLocal(b)
    ensures Monotone(ShortShare(b.pct)) && Tells(Lifetime(), ShortShare(b.pct), b)
  {
    forall a: int, c: int | 1 <= a <= c && Short(b.pct, a) ensures Short(b.pct, c) {
      ShortStays(b.pct, a, c);
    }
    forall r: Row, id: nat | Renewable(r, b.w)
      ensures Due(Successor(r, id, b.w), b.pct, b.now) <==> !Short(b.pct, Ttl(r) + 60)
      ensures Ttl(Successor(r, id, b.w)) == Ttl(r) + 60 && Ttl(r) >= 1
    {
      LocalLeafIsFresh(r, b.pct, b.now);
      MintedTtl(r, id, b);
      TtlIsPositive(r);
    }
  }

  /**
   On paths in normal form, `n` runs at one instant leave nothing to renew exactly when, for every row
   the first one renews, a minute is a short share of its lifetime and `n` minutes more.
   */
  lemma SettlesIff(g: Ledger, b: Batch, n: nat)
    requires Clean(b.w, g) && IsLocal(b) && n >= 1
    ensures Settled(RunTimes(g, b, n), b) <==> forall r :: r in Renewing(g, b) ==> Short(b.pct, Ttl(r) + 60 * n)
  {
    ShortShareTells(b);
    SettledIff(g, b, Lifetime(), ShortShare(b.pct), n);
    AsShort(Renewing(g, b), b.pct, n);
  }

  lemma AsShort(rows: seq<Row>, pct: real, n: nat)
    ensures AllOutgrown(rows, Lifetime(), ShortShare(pct), n) <==> forall r :: r in rows ==> Short(pct, Ttl(r) + 60 * n)
  {
    assert forall k: int :: ShortShare(pct)(k) <==> Short(pct, k);
  }

  /** At the default threshold a third run at one instant renews nothing, whatever the registry. */
  lemma DefaultSettlesInTwo(g: Ledger, b: Batch)
    requires Clean(b.w, g) && IsLocal(b) && b.pct == 50.0
    ensures Settled(RunTimes(g, b, 2), b)
  {
    SettlesIff(g, b, 2);
    forall r: Row ensures Short(50.0, Ttl(r) + 60 * 2) {
      TtlIsPositive(r);
    }
  }

  lemma HundredIsEnough(k: real, pct: real, t: real, m: real)
    requires pct > 0.0 && t >= 1.0 && pct * m >= k
    ensures Above(60.0 * k, pct, t + 60.0 * m)
  {
    assert pct * (t + 60.0 * m) == pct * t + 60.0 * (pct * m);
    MulMonotone(pct, 1.0, t);
  }

  /** At any positive threshold, `n` runs are enough once `n` times the threshold reaches one hundred. */
  lemma SettlesInTime(g: Ledger, b: Batch, n: nat)
    requires Clean(b.w, g) && IsLocal(b) && b.pct > 0.0 && n >= 1 && b.pct * n as real >= 100.0
    ensures Settled(RunTimes(g, b, n), b)
  {
    AllShort(b.pct, n);
    SettlesIff(g, b, n);
  }

  lemma AllShort(pct: real, n: nat)
    requires pct > 0.0 && pct * n as real >= 100.0
    ensures forall r: Row :: Short(pct, Ttl(r) + 60 * n)
  {
    forall r: Row ensures Short(pct, Ttl(r) + 60 * n) {
      TtlIsPositive(r);
      EnoughRuns(pct, Ttl(r), n);
    }
  }

  lemma EnoughRuns(pct: real, ttl: int, n: nat)
    requires pct > 0.0 && ttl >= 1 && pct * n as real >= 100.0
    ensures Short(pct, ttl + 60 * n)
  {
    HundredIsEnough(100.0, pct, ttl as real, n as real);
    assert (ttl + 60 * n) as real == ttl as real + 60.0 * n as real;
  }

  /** At a threshold of zero or less a registry with anything to renew never settles. */
  lemma ZeroNeverSettles(g: Ledger, b: Batch, n: nat)
    requires Clean(b.w, g) && IsLocal(b) && b.pct <= 0.0 && n >= 1 && !Settled(g, b)
    ensures !Settled(RunTimes(g, b, n), b)
  {
    SettlesIff(g, b, n);
    var r := Renewing(g, b)[0];
    TtlIsPositive(r);
    NeverShort(b.pct, Ttl(r) + 60 * n);
  }

  lemma NeverShort(pct: real, seconds: int)
    requires pct <= 0.0 && seconds >= 0
    ensures !Short(pct, seconds)
  {
    Product(-pct, seconds as real);
  }

  // ---------------------------------------------------------------------------
  // Files
  // ---------------------------------------------------------------------------

  /** The file a path names; `spell` is the path's text form. */
  type Spelling = string -> string

  /** What a file is for. */
  datatype Role = Certificate | PrivateKey | Chain

  function PathOf(role: Role, r: Row): string {
    match role
    case Certificate => r.cert
    case PrivateKey => r.key
    case Chain => r.chain
  }

  /** No row with a higher id keeps its file of this role there. */
  predicate NewestOnFile(spell: Spelling, role: Role, rows: seq<Row>, r: Row) {
    forall j :: 0 <= j < |rows| && PathOf(role, rows[j]) != "" && spell(PathOf(role, rows[j])) == spell(PathOf(role, r)) ==>
      rows[j].id <= r.id
  }

  /** The row's certificate, key or chain file holds that part of its leaf. */
  predicate FileHolds(spell: Spelling, role: Role, files: Files, r: Row) {
    match role
    case Certificate => spell(r.cert) in files && files[spell(r.cert)] == CertPem(r.id)
    case PrivateKey => spell(r.key) in files && files[spell(r.key)] == KeyPem(r.id)
    case Chain => spell(r.chain) in files && files[spell(r.chain)] == ChainPem(r.id)
  }

  /** Every file of this role holds its part of the leaf of the newest row that names it. */
  predicate FilesMatch(spell: Spelling, role: Role, rows: seq<Row>, files: Files) {
    forall i :: 0 <= i < |rows| && PathOf(role, rows[i]) != "" && NewestOnFile(spell, role, rows, rows[i]) ==>
      FileHolds(spell, role, files, rows[i])
  }

  predicate RowsApart(spell: Spelling, role: Role, r: Row, other: Row) {
    forall o: Role :: o != role && PathOf(o, other) != "" ==> spell(PathOf(o, other)) != spell(PathOf(role, r))
  }

  /** No row keeps a file of another role where some row keeps one of this role. */
  predicate RoleApart(spell: Spelling, role: Role, rows: seq<Row>) {
    forall i, j :: 0 <= i < |rows| && 0 <= j < |rows| && PathOf(role, rows[i]) != "" ==>
      RowsApart(spell, role, rows[i], rows[j])
  }

  /** A row as a renewal records it. */
  predicate Spelled(spell: Spelling, row: Row) {
    forall o: Role :: PathOf(o, row) != "" && spell(PathOf(o, row)) == PathOf(o, row)
  }

  /** A renewal leaves the other files alone. */
  lemma WriteFrame(files: Files, row: Row, path: string)
    requires path != row.cert && path != row.key && path != row.chain
    ensures path in Written(files, row) <==> path in files
    ensures path in files ==> Written(files, row)[path] == files[path]
  {
  }

  lemma WriteOwn(spell: Spelling, role: Role, files: Files, row: Row)
    requires Spelled(spell, row) && RowsApart(spell, role, row, row)
    ensures FileHolds(spell, role, Written(files, row), row)
  {
    assert forall o: Role :: spell(PathOf(o, row)) == PathOf(o, row);
    assert role != Certificate ==> PathOf(Certificate, row) != PathOf(role, row);
    assert role != PrivateKey ==> PathOf(PrivateKey, row) != PathOf(role, row);
    assert role != Chain ==> PathOf(Chain, row) != PathOf(role, row);
  }

  lemma WriteOther(spell: Spelling, role: Role, files: Files, r: Row, row: Row)
    requires Spelled(spell, row) && RowsApart(spell, role, r, row) && FileHolds(spell, role, files, r)
    requires spell(PathOf(role, r)) != spell(PathOf(role, row))
    ensures FileHolds(spell, role, Written(files, row), r)
  {
    forall o: Role ensures PathOf(o, row) != spell(PathOf(role, r)) {
      assert spell(PathOf(o, row)) == PathOf(o, row);
    }
    assert PathOf(Certificate, row) == row.cert && PathOf(PrivateKey, row) == row.key && PathOf(Chain, row) == row.chain;
    WriteFrame(files, row, spell(PathOf(role, r)));
  }

  /** One renewal rewrites the files of its row and leaves every other file alone. */
  lemma WriteMatches(spell: Spelling, role: Role, rows: seq<Row>, files: Files, row: Row)
    requires FilesMatch(spell, role, rows, files) && RoleApart(spell, role, rows + [row]) && Spelled(spell, row)
    requires forall i :: 0 <= i < |rows| ==> rows[i].id < row.id
    ensures FilesMatch(spell, role, rows + [row], Written(files, row))
  {
    var all, after := rows + [row], Written(files, row);
    assert all[|rows|] == row;
    forall i | 0 <= i < |all| && PathOf(role, all[i]) != "" && NewestOnFile(spell, role, all, all[i])
      ensures FileHolds(spell, role, after, all[i])
    {
      assert RowsApart(spell, role, all[i], all[|rows|]);
      if i < |rows| {
        NewestBefore(spell, role, rows, row, i);
        WriteOther(spell, role, files, rows[i], row);
      } else {
        WriteOwn(spell, role, files, row);
      }
    }
  }

  lemma NewestBefore(spell: Spelling, role: Role, rows: seq<Row>, row: Row, i: nat)
    requires i < |rows| && rows[i].id < row.id && PathOf(role, row) != ""
    requires NewestOnFile(spell, role, rows + [row], rows[i])
    ensures NewestOnFile(spell, role, rows, rows[i])
    ensures spell(PathOf(role, rows[i])) != spell(PathOf(role, row))
  {
    var all := rows + [row];
    assert all[|rows|] == row;
    forall j | 0 <= j < |rows| && PathOf(role, rows[j]) != ""
      && spell(PathOf(role, rows[j])) == spell(PathOf(role, rows[i]))
      ensures rows[j].id <= rows[i].id
    {
      assert all[j] == rows[j];
    }
  }

  /** Two rows name the same three files. */
  predicate SameFiles(spell: Spelling, a: Row, b: Row) {
    forall o: Role :: spell(PathOf(o, a)) == spell(PathOf(o, b)) && (PathOf(o, a) == "" <==> PathOf(o, b) == "")
  }

  predicate NamesFilesOf(spell: Spelling, rows: seq<Row>, r: Row) {
    exists k :: 0 <= k < |rows| && SameFiles(spell, r, rows[k])
  }

  lemma RoleStaysApart(spell: Spelling, role: Role, rows: seq<Row>, m: seq<Row>)
    requires RoleApart(spell, role, rows) && forall i :: 0 <= i < |m| ==> NamesFilesOf(spell, rows, m[i])
    ensures RoleApart(spell, role, rows + m)
  {
    var all := rows + m;
    forall i | 0 <= i < |all| ensures NamesFilesOf(spell, rows, all[i]) {
      if i < |rows| {
        assert SameFiles(spell, all[i], rows[i]);
      } else {
        assert all[i] == m[i - |rows|];
      }
    }
    forall i, j | 0 <= i < |all| && 0 <= j < |all| && PathOf(role, all[i]) != ""
      ensures RowsApart(spell, role, all[i], all[j])
    {
      var k :| 0 <= k < |rows| && SameFiles(spell, all[i], rows[k]);
      var l :| 0 <= l < |rows| && SameFiles(spell, all[j], rows[l]);
      assert RowsApart(spell, role, rows[k], rows[l]);
    }
  }

  lemma RolePrefix(spell: Spelling, role: Role, rows: seq<Row>, n: nat)
    requires RoleApart(spell, role, rows) && n <= |rows|
    ensures RoleApart(spell, role, rows[..n])
  {
    forall i, j | 0 <= i < n && 0 <= j < n && PathOf(role, rows[..n][i]) != ""
      ensures RowsApart(spell, role, rows[..n][i], rows[..n][j])
    {
      assert RowsApart(spell, role, rows[i], rows[j]);
    }
  }

  lemma {:induction false} WritesMatch(spell: Spelling, role: Role, rows: seq<Row>, files: Files, m: seq<Row>, nextId: nat)
    requires FilesMatch(spell, role, rows, files) && RoleApart(spell, role, rows + m)
    requires forall i :: 0 <= i < |rows| ==> rows[i].id < nextId
    requires forall i :: 0 <= i < |m| ==> m[i].id == nextId + i && Spelled(spell, m[i])
    ensures FilesMatch(spell, role, rows + m, WrittenAll(files, m))
    decreases |m|
  {
    if m == [] {
      assert rows + m == rows;
    } else {
      var n := |m| - 1;
      var front := rows + m[..n];
      assert front + [m[n]] == rows + m && front == (rows + m)[..|rows| + n];
      RolePrefix(spell, role, rows + m, |rows| + n);
      WritesMatch(spell, role, rows, files, m[..n], nextId);
      forall i | 0 <= i < |front| ensures front[i].id < m[n].id {
        if i >= |rows| { assert front[i] == m[i - |rows|]; }
      }
      WriteMatches(spell, role, front, WrittenAll(files, m[..n]), m[n]);
    }
  }

  /**
   Kept apart from the other roles, the files of each role hold after a run what they should: its part
   of the leaf of the newest row that names them.
   */
  lemma FilesMatchNewest(g: Ledger, b: Batch, files: Files, role: Role)
    requires ValidIds(g.rows, g.nextId) && Stable(b.w)
    requires FilesMatch(b.w.spell, role, g.rows, files) && RoleApart(b.w.spell, role, g.rows)
    ensures var m := Minted(DueRows(g.rows, b.pct, b.now), b.w, g.nextId);
      && FilesMatch(b.w.spell, role, RunOnce(g, b).rows, WrittenAll(files, m))
      && RoleApart(b.w.spell, role, RunOnce(g, b).rows)
  {
    var m := MintedSpelled(g, b);
    RowsMatch(b.w.spell, role, g.rows, files, m, g.nextId);
  }

  function FilesAfter(g: Ledger, batches: seq<Batch>, files: Files): Files
    decreases |batches|
  {
    if batches == [] then files else
      var b := batches[0];
      FilesAfter(RunOnce(g, b), batches[1..], WrittenAll(files, Minted(DueRows(g.rows, b.pct, b.now), b.w, g.nextId)))
  }

  /** After any runs every file of a role still holds its part of the leaf of the newest row that names it. */
  lemma {:induction false} FilesMatchAfterRuns(w: Renewer, g: Ledger, batches: seq<Batch>, files: Files, role: Role)
    requires ValidIds(g.rows, g.nextId) && Stable(w)
    requires forall i :: 0 <= i < |batches| ==> SpellsLike(w, batches[i])
    requires FilesMatch(w.spell, role, g.rows, files) && RoleApart(w.spell, role, g.rows)
    ensures FilesMatch(w.spell, role, RunAll(g, batches).rows, FilesAfter(g, batches, files))
    decreases |batches|
  {
    if batches != [] {
      var b := batches[0];
      FilesMatchNewest(g, b, files, role);
      IdsStayValid(g.rows, b.pct, b.now, b.w, g.nextId);
      FilesMatchAfterRuns(w, RunOnce(g, b), batches[1..],
                          WrittenAll(files, Minted(DueRows(g.rows, b.pct, b.now), b.w, g.nextId)), role);
    }
  }

  /** In plain fields: after any runs, where the newest row keeps its three files and what they hold. */
  lemma ThreeFiles(w: Renewer, g: Ledger, batches: seq<Batch>, files: Files, r: Row)
    requires ValidIds(g.rows, g.nextId) && Stable(w)
    requires forall i :: 0 <= i < |batches| ==> SpellsLike(w, batches[i])
    requires forall role: Role :: FilesMatch(w.spell, role, g.rows, files) && RoleApart(w.spell, role, g.rows)
    requires r in RunAll(g, batches).rows && r.cert != "" && r.key != "" && r.chain != ""
    requires forall role: Role :: NewestOnFile(w.spell, role, RunAll(g, batches).rows, r)
    ensures var after := FilesAfter(g, batches, files);
      && w.spell(r.cert) in after && after[w.spell(r.cert)] == CertPem(r.id)
      && w.spell(r.key) in after && after[w.spell(r.key)] == KeyPem(r.id)
      && w.spell(r.chain) in after && after[w.spell(r.chain)] == ChainPem(r.id)
  {
    var rows := RunAll(g, batches).rows;
    var k :| 0 <= k < |rows| && rows[k] == r;
    forall role: Role ensures FileHolds(w.spell, role, FilesAfter(g, batches, files), rows[k]) {
      FilesMatchAfterRuns(w, g, batches, files, role);
      assert PathOf(role, rows[k]) != "" && NewestOnFile(w.spell, role, rows, rows[k]);
    }
    assert FileHolds(w.spell, Certificate, FilesAfter(g, batches, files), r);
    assert FileHolds(w.spell, PrivateKey, FilesAfter(g, batches, files), r);
    assert FileHolds(w.spell, Chain, FilesAfter(g, batches, files), r);
  }

  lemma RowsMatch(spell: Spelling, role: Role, rows: seq<Row>, files: Files, m: seq<Row>, nextId: nat)
    requires FilesMatch(spell, role, rows, files) && RoleApart(spell, role, rows)
    requires (forall i :: 0 <= i < |rows| ==> rows[i].id < nextId)
    requires forall i :: 0 <= i < |m| ==> m[i].id == nextId + i && Spelled(spell, m[i])
    requires forall i :: 0 <= i < |m| ==> NamesFilesOf(spell, rows, m[i])
    ensures FilesMatch(spell, role, rows + m, WrittenAll(files, m)) && RoleApart(spell, role, rows + m)
  {
    RoleStaysApart(spell, role, rows, m);
    WritesMatch(spell, role, rows, files, m, nextId);
  }

  lemma MintedSpelled(g: Ledger, b: Batch) returns (m: seq<Row>)
    requires Stable(b.w)
    ensures m == Minted(DueRows(g.rows, b.pct, b.now), b.w, g.nextId)
    ensures forall i :: 0 <= i < |m| ==> m[i].id == g.nextId + i && Spelled(b.w.spell, m[i])
    ensures forall i :: 0 <= i < |m| ==> NamesFilesOf(b.w.spell, g.rows, m[i])
  {
    var due := DueRows(g.rows, b.pct, b.now);
    var s := Sources(due, b.w);
    m := Minted(due, b.w, g.nextId);
    MintedAt(due, b.w, g.nextId);
    forall i | 0 <= i < |m| ensures
      m[i].id == g.nextId + i && Spelled(b.w.spell, m[i]) && NamesFilesOf(b.w.spell, g.rows, m[i])
    {
      StableAt(b.w, s[i].cert);
      StableAt(b.w, s[i].key);
      StableAt(b.w, s[i].chain);
      RenewedExactly(g.rows, b.pct, b.now, b.w, s[i]);
      var k :| 0 <= k < |g.rows| && g.rows[k] == s[i];
      assert SameFiles(b.w.spell, m[i], g.rows[k]);
    }
  }
}
