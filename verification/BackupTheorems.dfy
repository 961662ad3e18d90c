/** When a restore succeeds, what it leaves, and that a full backup always restores. */
module BackupTheorems {
  import opened Common
  import opened BackupRows
  import opened BackupTables
  import opened BackupRestore

  predicate IsCarried(dump: Dump, t: TableDef) {
    t.name in dump
  }

  lemma {:induction false} CarriedIff(schema: Schema, dump: Dump, t: TableDef)
    ensures t in Carried(schema, dump) <==> t in schema && IsCarried(dump, t)
  {
    FilterIff(schema, (t: TableDef) => t.name in dump, t);
  }

  /** The carried tables from position `n` on hold no rows. */
  predicate EmptyFrom(schema: Schema, dump: Dump, db: Db, n: nat)
    requires HasTables(schema, db)
  {
    forall i :: n <= i < |schema| && IsCarried(dump, schema[i]) ==> db[schema[i].name] == map[]
  }

  predicate NamedBefore(schema: Schema, n: nat, name: string)
    requires n <= |schema|
  {
    exists i :: 0 <= i < n && schema[i].name == name
  }

  lemma OneName(schema: Schema, i: nat, n: nat)
    requires Ordered(schema) && i < |schema| && n <= |schema|
    ensures NamedBefore(schema, n, schema[i].name) <==> i < n
  {
  }

  // ---------------------------------------------------------------------------
  // Emptying
  // ---------------------------------------------------------------------------

  /** The database without the rows of the first `n` tables that the dump carries. */
  function Without(schema: Schema, dump: Dump, db: Db, n: nat): Db
    requires n <= |schema|
  {
    map name | name in db :: if name in dump && NamedBefore(schema, n, name) then map[] else db[name]
  }

  lemma RefsCarryOver(schema: Schema, db: Db, db': Db, k: nat, id: nat)
    requires Ordered(schema) && HasTables(schema, db) && HasTables(schema, db') && k < |schema|
    requires id in db'[schema[k].name] && id in db[schema[k].name]
    requires db'[schema[k].name][id] == db[schema[k].name][id]
    requires RefsHold(db, schema[k].cols, db[schema[k].name][id])
    requires forall j :: 0 <= j < k ==> db[schema[j].name].Keys <= db'[schema[j].name].Keys
    ensures RefsHold(db', schema[k].cols, db'[schema[k].name][id])
  {
    var cols, row := schema[k].cols, db[schema[k].name][id];
    forall c | 0 <= c < |cols| ensures RefHolds(db', cols[c], row) {
      assert RefHolds(db, cols[c], row) && PointsBack(schema, k, cols[c]);
    }
  }

  /** If the final deletion state is sound, so is the state after the first deletion. */
  lemma FirstDeleteIsSound(schema: Schema, dump: Dump, db: Db, n: nat)
    requires Ordered(schema) && HasTables(schema, db) && Consistent(schema, db) && 0 < n <= |schema|
    requires EmptyFrom(schema, dump, db, n) && IsCarried(dump, schema[n - 1])
    requires Consistent(schema, Without(schema, dump, db, n))
    ensures Consistent(schema, db[schema[n - 1].name := map[]])
  {
    var db' := db[schema[n - 1].name := map[]];
    var final := Without(schema, dump, db, n);
    forall k, id | 0 <= k < |schema| && id in db'[schema[k].name]
      ensures RefsHold(db', schema[k].cols, db'[schema[k].name][id])
    {
      OneName(schema, k, n);
      assert TableRefsHold(db, schema[k]) && TableRefsHold(final, schema[k]);
      if IsCarried(dump, schema[k]) {
        assert k < n - 1;
        RefsCarryOver(schema, db, db', k, id);
      } else {
        RefsCarryOver(schema, final, db', k, id);
      }
    }
  }

  lemma CarriedSnoc(schema: Schema, dump: Dump, n: nat)
    requires 0 < n <= |schema|
    ensures Carried(schema[..n], dump) ==
      Carried(schema[..n - 1], dump) + if IsCarried(dump, schema[n - 1]) then [schema[n - 1]] else []
  {
    assert schema[..n][..n - 1] == schema[..n - 1];
  }

  lemma PrefixTables(schema: Schema, dump: Dump, db: Db, n: nat)
    requires HasTables(schema, db) && n <= |schema|
    ensures HasTables(Carried(schema[..n], dump), db)
  {
    CarriedTables(schema[..n], dump, db);
  }

  /** One deletion, then the rest. */
  lemma EmptyLast(schema: Schema, tables: seq<TableDef>, t: TableDef, db: Db)
    requires HasTables(schema, db) && HasTables(tables, db) && t.name in db
    ensures HasTables(tables + [t], db)
    ensures var db' := db[t.name := map[]];
      Emptied(schema, tables + [t], db) == if Consistent(schema, db') then Emptied(schema, tables, db') else Err(BrokenReference)
  {
    assert (tables + [t])[..|tables|] == tables;
  }

  /** Emptying `tables` gives the database without the first `n` carried tables, unless that would dangle. */
  predicate EmptiesTo(schema: Schema, tables: seq<TableDef>, dump: Dump, db: Db, n: nat)
    requires HasTables(schema, db) && n <= |schema|
  {
    && HasTables(tables, db)
    && var final := Without(schema, dump, db, n);
       Emptied(schema, tables, db) == if Consistent(schema, final) then Ok(final) else Err(BrokenReference)
  }

  /** Deleting children first is refused only if the outcome itself would dangle. */
  lemma {:induction false} EmptyingSucceedsIff(schema: Schema, dump: Dump, db: Db, n: nat)
    requires Ordered(schema) && HasTables(schema, db) && Consistent(schema, db) && n <= |schema|
    requires EmptyFrom(schema, dump, db, n)
    ensures EmptiesTo(schema, Carried(schema[..n], dump), dump, db, n)
    decreases n
  {
    if n == 0 {
      assert Without(schema, dump, db, 0) == db;
    } else {
      CarriedSnoc(schema, dump, n);
      if IsCarried(dump, schema[n - 1]) {
        EmptyOne(schema, dump, db, n);
      } else {
        EmptySkip(schema, dump, db, n);
        assert Carried(schema[..n - 1], dump) + [] == Carried(schema[..n - 1], dump);
      }
    }
  }

  lemma {:induction false} EmptySkip(schema: Schema, dump: Dump, db: Db, n: nat)
    requires Ordered(schema) && HasTables(schema, db) && Consistent(schema, db) && 0 < n <= |schema|
    requires EmptyFrom(schema, dump, db, n) && !IsCarried(dump, schema[n - 1])
    ensures EmptiesTo(schema, Carried(schema[..n - 1], dump), dump, db, n)
    decreases n, 0
  {
    WithoutSkip(schema, dump, db, n);
    EmptyingSucceedsIff(schema, dump, db, n - 1);
  }

  lemma {:induction false} EmptyOne(schema: Schema, dump: Dump, db: Db, n: nat)
    requires Ordered(schema) && HasTables(schema, db) && Consistent(schema, db) && 0 < n <= |schema|
    requires EmptyFrom(schema, dump, db, n) && IsCarried(dump, schema[n - 1])
    ensures EmptiesTo(schema, Carried(schema[..n - 1], dump) + [schema[n - 1]], dump, db, n)
    decreases n, 0
  {
    var db' := db[schema[n - 1].name := map[]];
    PrefixTables(schema, dump, db, n - 1);
    EmptyLast(schema, Carried(schema[..n - 1], dump), schema[n - 1], db);
    WithoutStep(schema, dump, db, n);
    if Consistent(schema, db') {
      EmptyingSucceedsIff(schema, dump, db', n - 1);
    } else if Consistent(schema, Without(schema, dump, db, n)) {
      FirstDeleteIsSound(schema, dump, db, n);
    }
  }

  lemma NamedStep(schema: Schema, n: nat, name: string)
    requires 0 < n <= |schema|
    ensures NamedBefore(schema, n, name) <==> NamedBefore(schema, n - 1, name) || name == schema[n - 1].name
  {
  }

  lemma WithoutStep(schema: Schema, dump: Dump, db: Db, n: nat)
    requires HasTables(schema, db) && 0 < n <= |schema| && IsCarried(dump, schema[n - 1])
    ensures Without(schema, dump, db[schema[n - 1].name := map[]], n - 1) == Without(schema, dump, db, n)
  {
    forall name: string ensures
      NamedBefore(schema, n, name) <==> NamedBefore(schema, n - 1, name) || name == schema[n - 1].name
    {
      NamedStep(schema, n, name);
    }
  }

  lemma WithoutSkip(schema: Schema, dump: Dump, db: Db, n: nat)
    requires 0 < n <= |schema| && !IsCarried(dump, schema[n - 1])
    ensures Without(schema, dump, db, n - 1) == Without(schema, dump, db, n)
  {
    forall name: string ensures
      NamedBefore(schema, n, name) <==> NamedBefore(schema, n - 1, name) || name == schema[n - 1].name
    {
      NamedStep(schema, n, name);
    }
  }

  // ---------------------------------------------------------------------------
  // Filling
  // ---------------------------------------------------------------------------

  /** `name` is a carried table at position `n` or later. */
  predicate Pending(schema: Schema, dump: Dump, n: nat, name: string) {
    exists i :: n <= i < |schema| && schema[i].name == name && IsCarried(dump, schema[i])
  }

  /** `out` is `db` with the carried tables from `n` on loaded from the dump. */
  predicate LoadedFrom(iso: Iso, schema: Schema, dump: Dump, db: Db, out: Db, n: nat) {
    && out.Keys == db.Keys
    && (forall i :: n <= i < |schema| && IsCarried(dump, schema[i]) ==>
          schema[i].name in out && Loaded(iso, schema[i], dump[schema[i].name]) == Ok(out[schema[i].name]))
    && forall name :: name in db && !Pending(schema, dump, n, name) ==> out[name] == db[name]
  }

  lemma EarlierTablesStay(iso: Iso, schema: Schema, dump: Dump, db: Db, out: Db, n: nat)
    requires Ordered(schema) && HasTables(schema, db) && n < |schema| && LoadedFrom(iso, schema, dump, db, out, n)
    ensures forall j :: 0 <= j < n ==> schema[j].name in out && out[schema[j].name] == db[schema[j].name]
  {
    forall j | 0 <= j < n ensures out[schema[j].name] == db[schema[j].name] {
      assert !Pending(schema, dump, n, schema[j].name);
    }
  }

  /** If the final state is sound, so is the state after the first insert. */
  lemma FirstInsertIsSound(iso: Iso, schema: Schema, dump: Dump, db: Db, out: Db, n: nat)
    requires Ordered(schema) && HasTables(schema, db) && Consistent(schema, db) && n < |schema|
    requires EmptyFrom(schema, dump, db, n) && IsCarried(dump, schema[n])
    requires LoadedFrom(iso, schema, dump, db, out, n) && Consistent(schema, out)
    ensures Consistent(schema, db[schema[n].name := out[schema[n].name]])
  {
    EarlierTablesStay(iso, schema, dump, db, out, n);
    InsertKeepsReferences(schema, db, out, n);
  }

  lemma InsertKeepsReferences(schema: Schema, db: Db, out: Db, n: nat)
    requires Ordered(schema) && HasTables(schema, db) && HasTables(schema, out) && n < |schema|
    requires Consistent(schema, db) && Consistent(schema, out) && db[schema[n].name] == map[]
    requires forall j :: 0 <= j < n ==> out[schema[j].name] == db[schema[j].name]
    ensures Consistent(schema, db[schema[n].name := out[schema[n].name]])
  {
    var db' := db[schema[n].name := out[schema[n].name]];
    forall k, id | 0 <= k < |schema| && id in db'[schema[k].name]
      ensures RefsHold(db', schema[k].cols, db'[schema[k].name][id])
    {
      assert TableRefsHold(db, schema[k]) && TableRefsHold(out, schema[k]);
      RefsCarryOver(schema, if k == n then out else db, db', k, id);
    }
  }

  lemma CarriedCons(schema: Schema, dump: Dump, n: nat)
    requires n < |schema|
    ensures Carried(schema[n..], dump) ==
      (if IsCarried(dump, schema[n]) then [schema[n]] else []) + Carried(schema[n + 1..], dump)
  {
    assert schema[n..] == [schema[n]] + schema[n + 1..];
    FilterConcat([schema[n]], schema[n + 1..], (t: TableDef) => t.name in dump);
    assert [schema[n]][..0] == [];
  }

  lemma PendingStep(schema: Schema, dump: Dump, n: nat, name: string)
    requires n < |schema|
    ensures Pending(schema, dump, n, name) <==>
      Pending(schema, dump, n + 1, name) || (name == schema[n].name && IsCarried(dump, schema[n]))
  {
  }

  lemma SuffixTables(schema: Schema, dump: Dump, db: Db, n: nat)
    requires HasTables(schema, db) && n <= |schema|
    ensures HasTables(Carried(schema[n..], dump), db)
    ensures InDump(Carried(schema[n..], dump), dump)
  {
    CarriedTables(schema[n..], dump, db);
  }

  lemma LoadedStep(iso: Iso, schema: Schema, dump: Dump, db: Db, table: Table, out: Db, n: nat)
    requires Ordered(schema) && HasTables(schema, db) && n < |schema| && IsCarried(dump, schema[n])
    requires Loaded(iso, schema[n], dump[schema[n].name]) == Ok(table)
    ensures LoadedFrom(iso, schema, dump, db, out, n) <==>
      LoadedFrom(iso, schema, dump, db[schema[n].name := table], out, n + 1)
  {
    forall name: string ensures Pending(schema, dump, n, name) <==>
      Pending(schema, dump, n + 1, name) || name == schema[n].name
    {
      PendingStep(schema, dump, n, name);
    }
    assert !Pending(schema, dump, n + 1, schema[n].name);
    if LoadedFrom(iso, schema, dump, db[schema[n].name := table], out, n + 1) {
      assert out[schema[n].name] == table;
    }
  }

  lemma LoadedSkip(iso: Iso, schema: Schema, dump: Dump, db: Db, out: Db, n: nat)
    requires n < |schema| && !IsCarried(dump, schema[n])
    ensures LoadedFrom(iso, schema, dump, db, out, n) <==> LoadedFrom(iso, schema, dump, db, out, n + 1)
  {
    forall name: string ensures Pending(schema, dump, n, name) <==> Pending(schema, dump, n + 1, name) {
      PendingStep(schema, dump, n, name);
    }
  }

  predicate InDump(tables: seq<TableDef>, dump: Dump) {
    forall i :: 0 <= i < |tables| ==> tables[i].name in dump
  }

  /** One insert, then the rest. */
  lemma FillFirst(iso: Iso, schema: Schema, t: TableDef, tables: seq<TableDef>, dump: Dump, db: Db)
    requires HasTables(schema, db) && HasTables(tables, db) && t.name in db && t.name in dump && InDump(tables, dump)
    ensures HasTables([t] + tables, db) && InDump([t] + tables, dump)
    ensures Filled(iso, schema, [t] + tables, dump, db) ==
      match InsertedInto(iso, t, dump[t.name], db[t.name])
      case Err(problem) => Err(problem)
      case Ok(table) =>
        var db' := db[t.name := table];
        if Consistent(schema, db') then Filled(iso, schema, tables, dump, db') else Err(BrokenReference)
  {
    assert ([t] + tables)[1..] == tables;
  }

  /** Filling `tables` gives `out` exactly when `out` is what the dump loads to and nothing dangles in it. */
  predicate FillsTo(iso: Iso, schema: Schema, tables: seq<TableDef>, dump: Dump, db: Db, out: Db, n: nat)
    requires HasTables(schema, db)
  {
    && HasTables(tables, db) && InDump(tables, dump)
    && (Filled(iso, schema, tables, dump, db) == Ok(out) <==>
         LoadedFrom(iso, schema, dump, db, out, n) && Consistent(schema, out))
  }

  /** Inserting parents first is refused only if a table does not load or the outcome itself would dangle. */
  lemma {:induction false} FillingSucceedsIff(iso: Iso, schema: Schema, dump: Dump, db: Db, out: Db, n: nat)
    requires Ordered(schema) && HasTables(schema, db) && Consistent(schema, db) && n <= |schema|
    requires EmptyFrom(schema, dump, db, n)
    ensures FillsTo(iso, schema, Carried(schema[n..], dump), dump, db, out, n)
    decreases |schema| - n
  {
    if n == |schema| {
      FillNone(iso, schema, dump, db, out);
    } else {
      CarriedCons(schema, dump, n);
      if IsCarried(dump, schema[n]) {
        FillOne(iso, schema, dump, db, out, n);
      } else {
        FillSkip(iso, schema, dump, db, out, n);
        assert [] + Carried(schema[n + 1..], dump) == Carried(schema[n + 1..], dump);
      }
    }
  }

  lemma FillNone(iso: Iso, schema: Schema, dump: Dump, db: Db, out: Db)
    requires HasTables(schema, db) && Consistent(schema, db)
    ensures FillsTo(iso, schema, Carried(schema[|schema|..], dump), dump, db, out, |schema|)
  {
    assert schema[|schema|..] == [];
    assert out == db <==> LoadedFrom(iso, schema, dump, db, out, |schema|);
  }

  lemma {:induction false} FillSkip(iso: Iso, schema: Schema, dump: Dump, db: Db, out: Db, n: nat)
    requires Ordered(schema) && HasTables(schema, db) && Consistent(schema, db) && n < |schema|
    requires EmptyFrom(schema, dump, db, n) && !IsCarried(dump, schema[n])
    ensures FillsTo(iso, schema, Carried(schema[n + 1..], dump), dump, db, out, n)
    decreases |schema| - n, 0
  {
    LoadedSkip(iso, schema, dump, db, out, n);
    FillingSucceedsIff(iso, schema, dump, db, out, n + 1);
  }

  lemma {:induction false} FillOne(iso: Iso, schema: Schema, dump: Dump, db: Db, out: Db, n: nat)
    requires Ordered(schema) && HasTables(schema, db) && Consistent(schema, db) && n < |schema|
    requires EmptyFrom(schema, dump, db, n) && IsCarried(dump, schema[n])
    ensures FillsTo(iso, schema, [schema[n]] + Carried(schema[n + 1..], dump), dump, db, out, n)
    decreases |schema| - n, 0
  {
    SuffixTables(schema, dump, db, n + 1);
    FillFirst(iso, schema, schema[n], Carried(schema[n + 1..], dump), dump, db);
    IntoEmpty(iso, schema[n], dump[schema[n].name]);
    var loaded := Loaded(iso, schema[n], dump[schema[n].name]);
    if loaded.Ok? {
      var db' := db[schema[n].name := loaded.value];
      LoadedStep(iso, schema, dump, db, loaded.value, out, n);
      if Consistent(schema, db') {
        FillingSucceedsIff(iso, schema, dump, db', out, n + 1);
      } else if LoadedFrom(iso, schema, dump, db, out, n) && Consistent(schema, out) {
        FirstInsertIsSound(iso, schema, dump, db, out, n);
      }
    }
  }

  // ---------------------------------------------------------------------------
  // Restoring
  // ---------------------------------------------------------------------------

  /** The exact condition for a restore to succeed, and the only state it can then leave. */
  lemma RestoreSucceedsIff(iso: Iso, schema: Schema, version: int, dump: Dump, drop: bool, db: Db, out: Db)
    requires Ordered(schema) && HasTables(schema, db) && Consistent(schema, db)
    ensures Restored(iso, schema, version, dump, drop, db) == Ok(out) <==>
      && (version == 1 || version == 2)
      && (if drop then Consistent(schema, Without(schema, dump, db, |schema|)) else EmptyFrom(schema, dump, db, 0))
      && LoadedFrom(iso, schema, dump, db, out, 0)
      && Consistent(schema, out)
  {
    CarriedTables(schema, dump, db);
    var n := |schema|;
    assert schema[..n] == schema && schema[0..] == schema;
    EmptyIff(schema, dump, db);
    if drop {
      EmptyingSucceedsIff(schema, dump, db, n);
      var empty := Without(schema, dump, db, n);
      WithoutIsEmpty(schema, dump, db);
      if Consistent(schema, empty) {
        CarriedTables(schema, dump, empty);
        FillingSucceedsIff(iso, schema, dump, empty, out, 0);
        SameLoad(iso, schema, dump, db, out);
      }
    } else if EmptyFrom(schema, dump, db, 0) {
      FillingSucceedsIff(iso, schema, dump, db, out, 0);
    }
  }

  lemma EmptyIff(schema: Schema, dump: Dump, db: Db)
    requires HasTables(schema, db) && HasTables(Carried(schema, dump), db)
    ensures AllEmpty(Carried(schema, dump), db) <==> EmptyFrom(schema, dump, db, 0)
  {
    var tables := Carried(schema, dump);
    forall t: TableDef ensures t in tables <==> t in schema && IsCarried(dump, t) { CarriedIff(schema, dump, t); }
    if AllEmpty(tables, db) {
      forall i | 0 <= i < |schema| && IsCarried(dump, schema[i]) ensures db[schema[i].name] == map[] {
        assert schema[i] in tables;
      }
    }
    if EmptyFrom(schema, dump, db, 0) {
      forall i | 0 <= i < |tables| ensures db[tables[i].name] == map[] {
        assert tables[i] in schema;
      }
    }
  }

  lemma WithoutIsEmpty(schema: Schema, dump: Dump, db: Db)
    requires HasTables(schema, db)
    ensures HasTables(schema, Without(schema, dump, db, |schema|))
    ensures EmptyFrom(schema, dump, Without(schema, dump, db, |schema|), 0)
  {
  }

  lemma SameLoad(iso: Iso, schema: Schema, dump: Dump, db: Db, out: Db)
    requires HasTables(schema, db)
    ensures LoadedFrom(iso, schema, dump, db, out, 0) <==>
      LoadedFrom(iso, schema, dump, Without(schema, dump, db, |schema|), out, 0)
  {
    forall name | name in db && !Pending(schema, dump, 0, name)
      ensures Without(schema, dump, db, |schema|)[name] == db[name]
    {
    }
  }

  /** A restore keeps a sound database sound: the tables it carries are, whatever the file contains. */
  lemma RestoredIsSound(iso: Iso, schema: Schema, version: int, dump: Dump, drop: bool, db: Db)
    requires Ordered(schema) && HasTables(schema, db) && Consistent(schema, db) && Stored(schema, db)
    requires Restored(iso, schema, version, dump, drop, db).Ok?
    ensures var out := Restored(iso, schema, version, dump, drop, db).value;
      HasTables(schema, out) && Consistent(schema, out) && Stored(schema, out)
  {
    var out := Restored(iso, schema, version, dump, drop, db).value;
    RestoreSucceedsIff(iso, schema, version, dump, drop, db, out);
    forall i | 0 <= i < |schema| ensures Sound(schema[i], out[schema[i].name]) {
      if IsCarried(dump, schema[i]) {
        LoadedIsSound(iso, schema[i], dump[schema[i].name]);
      } else {
        assert !Pending(schema, dump, 0, schema[i].name);
      }
    }
  }

  /** One entry that does not decode, in any carried table, makes the whole restore fail. */
  lemma BadEntryFailsTheRestore(
      iso: Iso, schema: Schema, version: int, dump: Dump, drop: bool, db: Db, n: nat, i: nat, k: nat)
    requires Ordered(schema) && HasTables(schema, db) && Consistent(schema, db)
    requires n < |schema| && IsCarried(dump, schema[n])
    requires var js, cols := dump[schema[n].name], schema[n].cols;
      i < |js| && k < |cols| && cols[k].name in js[i] && Decode(iso, cols[k], js[i][cols[k].name]).Err?
    ensures Restored(iso, schema, version, dump, drop, db).Err?
  {
    if Restored(iso, schema, version, dump, drop, db).Ok? {
      RestoreSucceedsIff(iso, schema, version, dump, drop, db, Restored(iso, schema, version, dump, drop, db).value);
      BadEntryIsRefused(iso, schema[n].cols, dump[schema[n].name][i], k);
      LoadSucceedsIff(iso, schema[n], dump[schema[n].name]);
    }
  }

  /** A restore of an older backup: a moment without a zone comes back as that moment in UTC. */
  lemma ZonelessMomentIsRestored(
      iso: Iso, schema: Schema, version: int, dump: Dump, drop: bool, db: Db,
      n: nat, i: nat, id: nat, k: nat, text: string, at: int)
    requires Ordered(schema) && HasTables(schema, db) && Consistent(schema, db) && n < |schema|
    requires Restored(iso, schema, version, dump, drop, db).Ok? && IsCarried(dump, schema[n])
    requires var js, cols := dump[schema[n].name], schema[n].cols;
      && i < |js| && k < |cols| && "id" in js[0] && "id" in js[i] && js[i]["id"] == JNum(id)
      && cols[k].kind.DateTime? && cols[k].name in js[0] && cols[k].name in js[i]
      && js[i][cols[k].name] == JStr(text) && iso.parse(text) == Some(Naive(at))
    ensures var out := Restored(iso, schema, version, dump, drop, db).value;
      && schema[n].name in out && id in out[schema[n].name]
      && schema[n].cols[k].name in out[schema[n].name][id]
      && out[schema[n].name][id][schema[n].cols[k].name] == Moment(at)
  {
    var out := Restored(iso, schema, version, dump, drop, db).value;
    RestoreSucceedsIff(iso, schema, version, dump, drop, db, out);
    ZonelessMomentIsStored(iso, schema[n], dump[schema[n].name], i, id, k, text, at);
  }

  // ---------------------------------------------------------------------------
  // A full backup restores
  // ---------------------------------------------------------------------------

  /** Whatever the target holds, a full backup dropped onto it restores every row of the source. */
  lemma FullBackupRestores(iso: Iso, schema: Schema, source: Db, dump: Dump, drop: bool, db: Db)
    requires BackupRows.Lawful(iso) && Ordered(schema) && HasTables(schema, db) && Consistent(schema, db)
    requires HasTables(schema, source) && Stored(schema, source) && Consistent(schema, source)
    requires DumpOf(iso, schema, source, dump)
    requires drop || forall i :: 0 <= i < |schema| ==> db[schema[i].name] == map[]
    ensures var r := Restored(iso, schema, 2, dump, drop, db);
      && r.Ok? && r.value.Keys == db.Keys
      && forall i :: 0 <= i < |schema| ==> r.value[schema[i].name] == source[schema[i].name]
  {
    var out := map name | name in db :: if NamedBefore(schema, |schema|, name) then source[name] else db[name];
    forall i | 0 <= i < |schema| ensures
      Loaded(iso, schema[i], dump[schema[i].name]) == Ok(out[schema[i].name])
    {
      DumpedTableLoads(iso, schema[i], source[schema[i].name], dump[schema[i].name]);
    }
    SourceIsSound(schema, source, out);
    forall name | name in db && NamedBefore(schema, |schema|, name) ensures Pending(schema, dump, 0, name) {
      var i :| 0 <= i < |schema| && schema[i].name == name;
      assert IsCarried(dump, schema[i]);
    }
    assert LoadedFrom(iso, schema, dump, db, out, 0);
    RestoreSucceedsIff(iso, schema, 2, dump, drop, db, out);
  }

  lemma SourceIsSound(schema: Schema, source: Db, out: Db)
    requires Ordered(schema) && HasTables(schema, source) && HasTables(schema, out) && Consistent(schema, source)
    requires forall i :: 0 <= i < |schema| ==> out[schema[i].name] == source[schema[i].name]
    ensures Consistent(schema, out)
  {
    forall k, id | 0 <= k < |schema| && id in out[schema[k].name]
      ensures RefsHold(out, schema[k].cols, out[schema[k].name][id])
    {
      assert TableRefsHold(source, schema[k]);
      RefsCarryOver(schema, source, out, k, id);
    }
  }
}
