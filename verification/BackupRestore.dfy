/** `db backup` and `db restore`: every table out in foreign-key order, and back in one transaction. */
module BackupRestore {
  import opened Common
  import opened BackupRows
  import opened BackupTables

  type Schema = seq<TableDef>

  type Db = map<string, Table>

  type Dump = map<string, seq<JsonRow>>

  // ---------------------------------------------------------------------------
  // Databases
  // ---------------------------------------------------------------------------

  /** Table names are distinct and every foreign key points to an earlier table. */
  predicate Ordered(schema: Schema) {
    && (forall i :: 0 <= i < |schema| ==> GoodColumns(schema[i].cols))
    && (forall i, j :: 0 <= i < j < |schema| ==> schema[i].name != schema[j].name)
    && forall i, k :: 0 <= i < |schema| && 0 <= k < |schema[i].cols| ==> PointsBack(schema, i, schema[i].cols[k])
  }

  predicate PointsBack(schema: Schema, i: nat, c: Column)
    requires i <= |schema|
  {
    c.refs.Some? ==> exists j :: 0 <= j < i && schema[j].name == c.refs.value
  }

  predicate HasTables(schema: Schema, db: Db) {
    forall i :: 0 <= i < |schema| ==> schema[i].name in db
  }

  predicate RefHolds(db: Db, c: Column, row: Row) {
    c.refs.Some? && c.name in row && row[c.name].Num? ==>
      c.refs.value in db && row[c.name].n >= 0 && row[c.name].n in db[c.refs.value]
  }

  predicate RefsHold(db: Db, cols: seq<Column>, row: Row) {
    forall k :: 0 <= k < |cols| ==> RefHolds(db, cols[k], row)
  }

  predicate TableRefsHold(db: Db, t: TableDef)
    requires t.name in db
  {
    forall id :: id in db[t.name] ==> RefsHold(db, t.cols, db[t.name][id])
  }

  /** Every foreign key of every row is NULL or names an existing row. */
  predicate Consistent(schema: Schema, db: Db)
    requires HasTables(schema, db)
  {
    forall i :: 0 <= i < |schema| ==> TableRefsHold(db, schema[i])
  }

  /** Nothing dangles exactly when every whole number in a foreign-key column is the id of a row there. */
  lemma ConsistentExactly(schema: Schema, db: Db)
    requires HasTables(schema, db)
    ensures Consistent(schema, db) <==>
      forall i, k, id :: 0 <= i < |schema| && 0 <= k < |schema[i].cols| && id in db[schema[i].name] ==>
        RefFound(db, schema[i].cols[k], db[schema[i].name][id])
  {
    forall i, k, id | 0 <= i < |schema| && 0 <= k < |schema[i].cols| && id in db[schema[i].name]
      ensures RefHolds(db, schema[i].cols[k], db[schema[i].name][id])
        <==> RefFound(db, schema[i].cols[k], db[schema[i].name][id])
    {
      RefHoldsIff(db, schema[i].cols[k], db[schema[i].name][id]);
    }
    if Consistent(schema, db) {
      forall i, k, id | 0 <= i < |schema| && 0 <= k < |schema[i].cols| && id in db[schema[i].name]
        ensures RefFound(db, schema[i].cols[k], db[schema[i].name][id])
      {
        assert TableRefsHold(db, schema[i]) && RefsHold(db, schema[i].cols, db[schema[i].name][id]);
      }
    }
  }

  ghost predicate RefFound(db: Db, c: Column, row: Row) {
    forall n: int :: c.refs.Some? && c.name in row && row[c.name] == Num(n) ==>
      c.refs.value in db && exists target: nat :: target == n && target in db[c.refs.value]
  }

  lemma RefHoldsIff(db: Db, c: Column, row: Row)
    ensures RefHolds(db, c, row) <==> RefFound(db, c, row)
  {
    if RefFound(db, c, row) && c.refs.Some? && c.name in row && row[c.name].Num? {
      assert row[c.name] == Num(row[c.name].n);
    }
  }

  /** No table breaks a constraint of its own. */
  predicate Stored(schema: Schema, db: Db)
    requires HasTables(schema, db)
  {
    forall i :: 0 <= i < |schema| ==> Sound(schema[i], db[schema[i].name])
  }

  // ---------------------------------------------------------------------------
  // Backup
  // ---------------------------------------------------------------------------

  ghost predicate DumpOf(iso: Iso, schema: Schema, db: Db, dump: Dump)
    requires HasTables(schema, db)
  {
    forall i :: 0 <= i < |schema| ==>
      schema[i].name in dump && Dumped(iso, schema[i].cols, db[schema[i].name], dump[schema[i].name])
  }

  method DumpTable(iso: Iso, cols: seq<Column>, table: Table) returns (js: seq<JsonRow>)
    requires GoodColumns(cols) && forall id :: id in table ==> Keyed(cols, id, table[id])
    ensures Dumped(iso, cols, table, js)
  {
    js := [];
    var left := table.Keys;
    ghost var ids: seq<nat> := [];
    while left != {}
      invariant Listing(iso, cols, table, ids, js, left)
      decreases left
    {
      var id := Least(left);
      var j := SerializeRow(iso, cols, table[id]);
      ListNext(iso, cols, table, ids, js, left, id, j);
      js, ids, left := js + [j], ids + [id], left - {id};
    }
    assert table - left == table;
    assert Lists(iso, cols, table, ids, js);
  }

  /** The rows listed so far come before the ones left. */
  predicate Listing(iso: Iso, cols: seq<Column>, table: Table, ids: seq<nat>, js: seq<JsonRow>, left: set<nat>) {
    && left <= table.Keys
    && (forall i, id :: 0 <= i < |ids| && id in left ==> ids[i] < id)
    && Lists(iso, cols, table - left, ids, js)
  }

  lemma ListNext(
      iso: Iso, cols: seq<Column>, table: Table, ids: seq<nat>, js: seq<JsonRow>, left: set<nat>, id: nat, j: JsonRow)
    requires Listing(iso, cols, table, ids, js, left)
    requires id in left && (forall x :: x in left ==> id <= x)
    requires WellTyped(cols, table[id]) && Encodes(iso, cols, table[id], j)
    ensures Listing(iso, cols, table, ids + [id], js + [j], left - {id})
  {
    var rest := table - (left - {id});
    forall i | 0 <= i < |ids| ensures ids[i] in rest && rest[ids[i]] == table[ids[i]] {
      assert ids[i] in ids;
    }
  }

  method Backup(iso: Iso, schema: Schema, db: Db) returns (dump: Dump)
    requires Ordered(schema) && HasTables(schema, db) && Stored(schema, db)
    ensures DumpOf(iso, schema, db, dump)
  {
    dump := map[];
    for i := 0 to |schema|
      invariant forall k :: 0 <= k < i ==>
        schema[k].name in dump && Dumped(iso, schema[k].cols, db[schema[k].name], dump[schema[k].name])
    {
      assert Sound(schema[i], db[schema[i].name]);
      var js := DumpTable(iso, schema[i].cols, db[schema[i].name]);
      dump := dump[schema[i].name := js];
    }
  }

  // ---------------------------------------------------------------------------
  // Restore
  // ---------------------------------------------------------------------------

  /** A statement that would leave a dangling foreign key is refused. */
  function Checked(schema: Schema, db: Db): Result<Db, Problem>
    requires HasTables(schema, db)
  {
    if Consistent(schema, db) then Ok(db) else Err(BrokenReference)
  }

  /** The tables that hold rows, children first, are emptied. */
  function Emptied(schema: Schema, tables: seq<TableDef>, db: Db): (r: Result<Db, Problem>)
    requires HasTables(schema, db) && HasTables(tables, db)
    ensures r.Ok? ==> r.value.Keys == db.Keys
  {
    if tables == [] then Ok(db)
    else
      var n := |tables| - 1;
      match Checked(schema, db[tables[n].name := map[]])
      case Err(problem) => Err(problem)
      case Ok(next) => Emptied(schema, tables[..n], next)
  }

  /** The tables are filled, parents first. */
  function Filled(iso: Iso, schema: Schema, tables: seq<TableDef>, dump: Dump, db: Db): (r: Result<Db, Problem>)
    requires HasTables(schema, db) && HasTables(tables, db)
    requires forall i :: 0 <= i < |tables| ==> tables[i].name in dump
    ensures r.Ok? ==> r.value.Keys == db.Keys
    decreases |tables|
  {
    if tables == [] then Ok(db)
    else
      var t := tables[0];
      match InsertedInto(iso, t, dump[t.name], db[t.name])
      case Err(problem) => Err(problem)
      case Ok(table) =>
        match Checked(schema, db[t.name := table])
        case Err(problem) => Err(problem)
        case Ok(next) => Filled(iso, schema, tables[1..], dump, next)
  }

  function Carried(schema: Schema, dump: Dump): seq<TableDef> {
    Filter(schema, (t: TableDef) => t.name in dump)
  }

  lemma CarriedTables(schema: Schema, dump: Dump, db: Db)
    requires HasTables(schema, db)
    ensures HasTables(Carried(schema, dump), db)
    ensures forall i :: 0 <= i < |Carried(schema, dump)| ==> Carried(schema, dump)[i].name in dump
  {
    forall i | 0 <= i < |Carried(schema, dump)| ensures
      Carried(schema, dump)[i].name in db && Carried(schema, dump)[i].name in dump
    {
      FilterIff(schema, (t: TableDef) => t.name in dump, Carried(schema, dump)[i]);
    }
  }

  predicate AllEmpty(tables: seq<TableDef>, db: Db)
    requires HasTables(tables, db)
  {
    forall i :: 0 <= i < |tables| ==> db[tables[i].name] == map[]
  }

  /** The whole transaction. */
  function Restored(iso: Iso, schema: Schema, version: int, dump: Dump, drop: bool, db: Db): Result<Db, Problem>
    requires HasTables(schema, db)
  {
    CarriedTables(schema, dump, db);
    var tables := Carried(schema, dump);
    if version != 1 && version != 2 then Err(BadVersion)
    else if !drop && !AllEmpty(tables, db) then Err(NotEmpty)
    else
      match (if drop then Emptied(schema, tables, db) else Ok(db))
      case Err(problem) => Err(problem)
      case Ok(empty) => Filled(iso, schema, tables, dump, empty)
  }

  class Database {
    var db: Db

    /** Runs the transaction and rolls it back on any failure. */
    method Restore(iso: Iso, schema: Schema, version: int, dump: Dump, drop: bool) returns (r: Result<bool, Problem>)
      requires HasTables(schema, db)
      modifies this
      ensures match Restored(iso, schema, version, dump, drop, old(db))
        case Ok(restored) => r == Ok(true) && db == restored
        case Err(problem) => r == Err(problem) && db == old(db)
    {
      if version != 1 && version != 2 {
        return Err(BadVersion);
      }
      var before := db;
      r := Transaction(iso, schema, version, dump, drop);
      if r.Err? {
        db := before;
      }
    }

    method Transaction(iso: Iso, schema: Schema, version: int, dump: Dump, drop: bool) returns (r: Result<bool, Problem>)
      requires HasTables(schema, db) && (version == 1 || version == 2)
      modifies this
      ensures match Restored(iso, schema, version, dump, drop, old(db))
        case Ok(restored) => r == Ok(true) && db == restored
        case Err(problem) => r == Err(problem)
    {
      var tables := Carried(schema, dump);
      CarriedTables(schema, dump, db);
      for i := 0 to |tables|
        invariant db == old(db)
        invariant !drop ==> forall k :: 0 <= k < i ==> db[tables[k].name] == map[]
      {
        if |db[tables[i].name]| > 0 && !drop {
          return Err(NotEmpty);
        }
      }
      if drop {
        r := DeleteAll(schema, tables);
        if r.Err? {
          return;
        }
      }
      r := InsertAll(iso, schema, tables, dump);
    }

    method DeleteAll(schema: Schema, tables: seq<TableDef>) returns (r: Result<bool, Problem>)
      requires HasTables(schema, db) && HasTables(tables, db)
      modifies this
      ensures match Emptied(schema, tables, old(db))
        case Ok(empty) => r == Ok(true) && db == empty
        case Err(problem) => r == Err(problem)
    {
      var i := |tables|;
      assert tables[..i] == tables;
      while i > 0
        invariant 0 <= i <= |tables| && db.Keys == old(db).Keys
        invariant Emptied(schema, tables[..i], db) == Emptied(schema, tables, old(db))
      {
        i := i - 1;
        assert tables[..i + 1][..i] == tables[..i];
        db := db[tables[i].name := map[]];
        if !Consistent(schema, db) {
          return Err(BrokenReference);
        }
      }
      return Ok(true);
    }

    method InsertAll(iso: Iso, schema: Schema, tables: seq<TableDef>, dump: Dump) returns (r: Result<bool, Problem>)
      requires HasTables(schema, db) && HasTables(tables, db)
      requires forall i :: 0 <= i < |tables| ==> tables[i].name in dump
      modifies this
      ensures match Filled(iso, schema, tables, dump, old(db))
        case Ok(full) => r == Ok(true) && db == full
        case Err(problem) => r == Err(problem)
    {
      for i := 0 to |tables|
        invariant db.Keys == old(db).Keys
        invariant Filled(iso, schema, tables[i..], dump, db) == Filled(iso, schema, tables, dump, old(db))
      {
        var t := tables[i];
        assert tables[i..][1..] == tables[i + 1..];
        var rows := DeserializeRows(iso, t.cols, dump[t.name]);
        if rows.Err? {
          return Err(rows.error);
        }
        match Executed(t, rows.value, db[t.name])
        case Err(problem) => return Err(problem);
        case Ok(table) =>
          db := db[t.name := table];
          if !Consistent(schema, db) {
            return Err(BrokenReference);
          }
      }
      return Ok(true);
    }
  }
}
