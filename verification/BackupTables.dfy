/** Loading the rows of one table: decoding, defaults, and what the database refuses. */
module BackupTables {
  import opened Common
  import opened BackupRows

  /** `uniques` lists the column groups with a unique index, besides the primary key `id`. */
  datatype TableDef = TableDef(name: string, cols: seq<Column>, uniques: seq<seq<string>>)

  type Table = map<nat, Row>

  // ---------------------------------------------------------------------------
  // Constraints
  // ---------------------------------------------------------------------------

  /** Every column has a value of its type, and none that must not be NULL is. */
  predicate Acceptable(cols: seq<Column>, row: Row) {
    forall i :: 0 <= i < |cols| ==>
      && cols[i].name in row && Fits(cols[i], row[cols[i].name])
      && (cols[i].required ==> !row[cols[i].name].Null?)
  }

  predicate HasKey(row: Row) {
    "id" in row && row["id"].Num? && row["id"].n >= 0
  }

  function KeyOf(row: Row): nat
    requires HasKey(row)
  {
    row["id"].n
  }

  /** Two rows agree on an indexed group of columns; NULL agrees with nothing. */
  predicate Clash(group: seq<string>, a: Row, b: Row) {
    forall i :: 0 <= i < |group| ==>
      group[i] in a && group[i] in b && !a[group[i]].Null? && a[group[i]] == b[group[i]]
  }

  /** Neither the primary key nor a unique index keeps both rows from being stored. */
  predicate Compatible(t: TableDef, a: Row, b: Row)
    requires HasKey(a) && HasKey(b)
  {
    KeyOf(a) != KeyOf(b) && forall u :: 0 <= u < |t.uniques| ==> !Clash(t.uniques[u], a, b)
  }

  predicate Keyed(cols: seq<Column>, id: nat, row: Row) {
    WellTyped(cols, row) && HasKey(row) && KeyOf(row) == id
  }

  /** Rows have the columns of their table, are stored under their key, and break no constraint. */
  predicate Sound(t: TableDef, table: Table) {
    && (forall id :: id in table ==> Keyed(t.cols, id, table[id]) && Acceptable(t.cols, table[id]))
    && forall i, j :: i in table && j in table && i != j ==> Compatible(t, table[i], table[j])
  }

  // ---------------------------------------------------------------------------
  // Loading
  // ---------------------------------------------------------------------------

  function DecodeAll(iso: Iso, cols: seq<Column>, js: seq<JsonRow>): Result<seq<Row>, Problem> {
    if js == [] then Ok([])
    else
      match DecodeAll(iso, cols, js[..|js| - 1])
      case Err(problem) => Err(problem)
      case Ok(rows) =>
        match Decoded(iso, cols, js[|js| - 1])
        case Err(problem) => Err(problem)
        case Ok(row) => Ok(rows + [row])
  }

  /** Columns the row lacks take their fallback. */
  function Completed(cols: seq<Column>, row: Row): Result<Row, Problem> {
    if cols == [] then Ok(row)
    else
      var c := cols[|cols| - 1];
      match Completed(cols[..|cols| - 1], row)
      case Err(problem) => Err(problem)
      case Ok(full) =>
        if c.name in full then Ok(full)
        else if c.fallback.Some? then Ok(full[c.name := c.fallback.value])
        else Err(MissingColumn)
  }

  /** The row as it would be stored, if it breaks no constraint by itself. */
  function Admitted(t: TableDef, row: Row): (r: Result<Row, Problem>)
    ensures r.Ok? ==> HasKey(r.value)
  {
    match Completed(t.cols, row)
    case Err(problem) => Err(problem)
    case Ok(full) =>
      if !Acceptable(t.cols, full) then Err(BadValue)
      else if !HasKey(full) then Err(BadKey)
      else Ok(full)
  }

  function Inserted(t: TableDef, rows: seq<Row>): (r: Result<Table, Problem>)
    ensures r.Ok? ==> forall id :: id in r.value ==> HasKey(r.value[id])
  {
    if rows == [] then Ok(map[])
    else
      match Inserted(t, rows[..|rows| - 1])
      case Err(problem) => Err(problem)
      case Ok(front) =>
        match Admitted(t, rows[|rows| - 1])
        case Err(problem) => Err(problem)
        case Ok(row) =>
          if forall id :: id in front ==> Compatible(t, front[id], row) then Ok(front[KeyOf(row) := row])
          else Err(NotUnique)
  }

  /** The column names the insert statement is compiled for: those of the first row. */
  function FirstKeys(rows: seq<Row>): set<string> {
    if rows == [] then {} else rows[0].Keys
  }

  predicate Binds(rows: seq<Row>) {
    forall i :: 0 <= i < |rows| ==> FirstKeys(rows) <= rows[i].Keys
  }

  /** The parameters one row supplies; its other values are dropped. */
  function Bound(keys: set<string>, row: Row): Row {
    map name | name in row && name in keys :: row[name]
  }

  function BoundAll(keys: set<string>, rows: seq<Row>): (bound: seq<Row>)
    ensures |bound| == |rows| && forall i :: 0 <= i < |rows| ==> bound[i] == Bound(keys, rows[i])
  {
    seq(|rows|, i requires 0 <= i < |rows| => Bound(keys, rows[i]))
  }

  /** One statement inserts all rows into an empty table, with the parameters of the first. */
  function Bundled(t: TableDef, rows: seq<Row>): (r: Result<Table, Problem>)
    ensures r.Ok? ==> forall id :: id in r.value ==> HasKey(r.value[id])
  {
    if !Binds(rows) then Err(MissingParameter) else Inserted(t, BoundAll(FirstKeys(rows), rows))
  }

  /** The table a list of dumped rows becomes when inserted into an empty one. */
  function Loaded(iso: Iso, t: TableDef, js: seq<JsonRow>): Result<Table, Problem> {
    match DecodeAll(iso, t.cols, js)
    case Err(problem) => Err(problem)
    case Ok(rows) => Bundled(t, rows)
  }

  /** The statement run on a table that may hold rows already. */
  function Executed(t: TableDef, rows: seq<Row>, table: Table): Result<Table, Problem> {
    match Bundled(t, rows)
    case Err(problem) => Err(problem)
    case Ok(loaded) =>
      if forall i, j :: i in table && j in loaded ==> HasKey(table[i]) && Compatible(t, table[i], loaded[j])
      then Ok(table + loaded) else Err(NotUnique)
  }

  /** One insert of all dumped rows into a table that may hold rows already. */
  function InsertedInto(iso: Iso, t: TableDef, js: seq<JsonRow>, table: Table): Result<Table, Problem> {
    match DecodeAll(iso, t.cols, js)
    case Err(problem) => Err(problem)
    case Ok(rows) => Executed(t, rows, table)
  }

  method DeserializeRows(iso: Iso, cols: seq<Column>, js: seq<JsonRow>) returns (r: Result<seq<Row>, Problem>)
    ensures r == DecodeAll(iso, cols, js)
  {
    var rows: seq<Row> := [];
    for i := 0 to |js|
      invariant DecodeAll(iso, cols, js[..i]) == Ok(rows)
    {
      assert js[..i + 1][..i] == js[..i];
      var row := DeserializeRow(iso, cols, js[i]);
      match row
      case Err(problem) =>
        DecodeAllFails(iso, cols, js, i + 1);
        return Err(problem);
      case Ok(decoded) =>
        rows := rows + [decoded];
    }
    assert js[..|js|] == js;
    return Ok(rows);
  }

  lemma {:induction false} DecodeAllFails(iso: Iso, cols: seq<Column>, js: seq<JsonRow>, i: nat)
    requires i <= |js| && DecodeAll(iso, cols, js[..i]).Err?
    ensures DecodeAll(iso, cols, js) == DecodeAll(iso, cols, js[..i])
    decreases |js|
  {
    if i == |js| {
      assert js[..i] == js;
    } else {
      var n := |js| - 1;
      assert js[..n][..i] == js[..i];
      DecodeAllFails(iso, cols, js[..n], i);
    }
  }

  lemma IntoEmpty(iso: Iso, t: TableDef, js: seq<JsonRow>)
    ensures InsertedInto(iso, t, js, map[]) == Loaded(iso, t, js)
  {
    if Loaded(iso, t, js).Ok? {
      assert map[] + Loaded(iso, t, js).value == Loaded(iso, t, js).value;
    }
  }

  // ---------------------------------------------------------------------------
  // When loading succeeds
  // ---------------------------------------------------------------------------

  /** The table holds exactly the admitted rows, each under its key. */
  predicate Holds(t: TableDef, rows: seq<Row>, table: Table) {
    && (forall i :: 0 <= i < |rows| ==> HeldAt(t, rows[i], table))
    && forall id :: id in table ==> exists i :: 0 <= i < |rows| && Admitted(t, rows[i]) == Ok(table[id])
  }

  predicate HeldAt(t: TableDef, row: Row, table: Table) {
    var full := Admitted(t, row);
    full.Ok? && KeyOf(full.value) in table && table[KeyOf(full.value)] == full.value
  }

  /** Each row is admitted by itself and no two exclude each other. */
  predicate Admissible(t: TableDef, rows: seq<Row>) {
    && (forall i :: 0 <= i < |rows| ==> Admitted(t, rows[i]).Ok?)
    && forall i, j :: 0 <= i < j < |rows| ==> Compatible(t, Admitted(t, rows[i]).value, Admitted(t, rows[j]).value)
  }

  lemma HoldsSnoc(t: TableDef, rows: seq<Row>, front: Table)
    requires rows != [] && Holds(t, rows[..|rows| - 1], front) && Admitted(t, rows[|rows| - 1]).Ok?
    requires var row := Admitted(t, rows[|rows| - 1]).value;
      KeyOf(row) !in front
    ensures var row := Admitted(t, rows[|rows| - 1]).value;
      Holds(t, rows, front[KeyOf(row) := row])
  {
    var n := |rows| - 1;
    var row := Admitted(t, rows[n]).value;
    var table := front[KeyOf(row) := row];
    forall i | 0 <= i < |rows| ensures HeldAt(t, rows[i], table) {
      if i < n {
        assert rows[..n][i] == rows[i] && HeldAt(t, rows[..n][i], front);
      }
    }
    forall id | id in table ensures exists i :: 0 <= i < |rows| && Admitted(t, rows[i]) == Ok(table[id]) {
      if id != KeyOf(row) {
        var i :| 0 <= i < n && Admitted(t, rows[..n][i]) == Ok(front[id]);
        assert rows[..n][i] == rows[i];
      } else {
        assert Admitted(t, rows[n]) == Ok(table[id]);
      }
    }
  }

  lemma {:induction false} KeysAreKept(t: TableDef, rows: seq<Row>)
    requires Inserted(t, rows).Ok?
    ensures forall id :: id in Inserted(t, rows).value ==> KeyOf(Inserted(t, rows).value[id]) == id
  {
    if rows != [] {
      KeysAreKept(t, rows[..|rows| - 1]);
    }
  }

  lemma {:induction false} InsertedHolds(t: TableDef, rows: seq<Row>)
    requires Inserted(t, rows).Ok?
    ensures Holds(t, rows, Inserted(t, rows).value)
  {
    if rows != [] {
      var n := |rows| - 1;
      InsertedHolds(t, rows[..n]);
      KeysAreKept(t, rows[..n]);
      HoldsSnoc(t, rows, Inserted(t, rows[..n]).value);
    }
  }

  /** The rows go in exactly when each is admitted by itself and no two exclude each other. */
  lemma {:induction false} InsertedIff(t: TableDef, rows: seq<Row>)
    ensures Inserted(t, rows).Ok? <==> Admissible(t, rows)
  {
    if rows != [] {
      var n := |rows| - 1;
      InsertedIff(t, rows[..n]);
      AdmissibleSnoc(t, rows);
      if Inserted(t, rows[..n]).Ok? && Admitted(t, rows[n]).Ok? {
        InsertedHolds(t, rows[..n]);
        LastFits(t, rows[..n], Inserted(t, rows[..n]).value, Admitted(t, rows[n]).value);
      }
    }
  }

  lemma AdmissibleSnoc(t: TableDef, rows: seq<Row>)
    requires rows != []
    ensures var n := |rows| - 1;
      Admissible(t, rows) <==>
        && Admissible(t, rows[..n]) && Admitted(t, rows[n]).Ok?
        && forall i :: 0 <= i < n ==> Compatible(t, Admitted(t, rows[..n][i]).value, Admitted(t, rows[n]).value)
  {
    var n := |rows| - 1;
    forall i | 0 <= i < n ensures rows[..n][i] == rows[i] {}
  }

  lemma LastFits(t: TableDef, rows: seq<Row>, front: Table, row: Row)
    requires Holds(t, rows, front) && HasKey(row) && forall id :: id in front ==> HasKey(front[id])
    ensures (forall id :: id in front ==> Compatible(t, front[id], row)) <==>
      forall i :: 0 <= i < |rows| ==> Compatible(t, Admitted(t, rows[i]).value, row)
  {
    if forall id :: id in front ==> Compatible(t, front[id], row) {
      forall i | 0 <= i < |rows| ensures Compatible(t, Admitted(t, rows[i]).value, row) {
        assert HeldAt(t, rows[i], front);
      }
    } else {
      var id :| id in front && !Compatible(t, front[id], row);
      var i :| 0 <= i < |rows| && Admitted(t, rows[i]) == Ok(front[id]);
      assert !Compatible(t, Admitted(t, rows[i]).value, row);
    }
  }

  /** Every dumped row has each column that the first one has. */
  predicate FirstRowCovered(cols: seq<Column>, js: seq<JsonRow>) {
    forall i :: 0 <= i < |js| ==> js[0].Keys * Names(cols) <= js[i].Keys
  }

  /**
   Loading succeeds exactly when every row decodes, none lacks a column of the first, and the rows cut
   down to those columns are admissible together.
   */
  lemma LoadSucceedsIff(iso: Iso, t: TableDef, js: seq<JsonRow>)
    ensures Loaded(iso, t, js).Ok? <==>
      && (forall i :: 0 <= i < |js| ==> Decoded(iso, t.cols, js[i]).Ok?)
      && FirstRowCovered(t.cols, js)
      && DecodeAll(iso, t.cols, js).Ok?
      && var rows := DecodeAll(iso, t.cols, js).value; Admissible(t, BoundAll(FirstKeys(rows), rows))
  {
    if DecodeAll(iso, t.cols, js).Ok? {
      var rows := DecodeAll(iso, t.cols, js).value;
      DecodeEachBack(iso, t.cols, js);
      BindsIff(iso, t.cols, js, rows);
      InsertedIff(t, BoundAll(FirstKeys(rows), rows));
    }
  }

  lemma BindsIff(iso: Iso, cols: seq<Column>, js: seq<JsonRow>, rows: seq<Row>)
    requires |rows| == |js| && forall i :: 0 <= i < |js| ==> Decoded(iso, cols, js[i]) == Ok(rows[i])
    ensures Binds(rows) <==> FirstRowCovered(cols, js)
  {
    forall i | 0 <= i < |js| ensures rows[i].Keys == js[i].Keys * Names(cols) {
      DecodedNames(iso, cols, js[i]);
    }
    if FirstRowCovered(cols, js) {
      forall i | 0 <= i < |rows| ensures FirstKeys(rows) <= rows[i].Keys {
        assert js[0].Keys * Names(cols) <= js[i].Keys;
      }
    }
  }

  lemma {:induction false} DecodeEachBack(iso: Iso, cols: seq<Column>, js: seq<JsonRow>)
    requires DecodeAll(iso, cols, js).Ok?
    ensures |DecodeAll(iso, cols, js).value| == |js|
    ensures forall i :: 0 <= i < |js| ==> Decoded(iso, cols, js[i]) == Ok(DecodeAll(iso, cols, js).value[i])
  {
    if js != [] {
      DecodeEachBack(iso, cols, js[..|js| - 1]);
    }
  }

  lemma {:induction false} DecodeEach(iso: Iso, cols: seq<Column>, js: seq<JsonRow>, rows: seq<Row>)
    requires |js| == |rows| && forall i :: 0 <= i < |js| ==> Decoded(iso, cols, js[i]) == Ok(rows[i])
    ensures DecodeAll(iso, cols, js) == Ok(rows)
  {
    if js != [] {
      var n := |js| - 1;
      DecodeEach(iso, cols, js[..n], rows[..n]);
      assert rows == rows[..n] + [rows[n]];
    }
  }

  // ---------------------------------------------------------------------------
  // The same in plain columns
  // ---------------------------------------------------------------------------

  /** What is stored in the column: the row's own value, or the fallback. */
  function StoredIn(c: Column, row: Row): Option<Value> {
    if c.name in row then Some(row[c.name]) else c.fallback
  }

  /** There is a value, it is of the column's kind, and it is not NULL where NULL is forbidden. */
  predicate Storable(c: Column, row: Row) {
    var v := StoredIn(c, row);
    v.Some? && Fits(c, v.value) && (v.value == Null ==> !c.required)
  }

  /** The row has a whole, non-negative primary key. */
  ghost predicate HasId(cols: seq<Column>, row: Row) {
    exists k, id: nat :: 0 <= k < |cols| && cols[k].name == "id" && StoredIn(cols[k], row) == Some(Num(id))
  }

  /** Some column of the group is NULL in one of the rows, or differs. */
  predicate ToldApart(group: seq<string>, a: Row, b: Row) {
    exists m :: 0 <= m < |group| &&
      (group[m] in a && group[m] in b ==> a[group[m]] == Null || b[group[m]] == Null || a[group[m]] != b[group[m]])
  }

  lemma ClashIff(group: seq<string>, a: Row, b: Row)
    ensures Clash(group, a, b) <==> !ToldApart(group, a, b)
  {
  }

  lemma CompatibleIff(t: TableDef, a: Row, b: Row)
    requires HasKey(a) && HasKey(b)
    ensures Compatible(t, a, b) <==>
      a["id"] != b["id"] && forall u :: 0 <= u < |t.uniques| ==> ToldApart(t.uniques[u], a, b)
  {
    forall u | 0 <= u < |t.uniques| ensures Clash(t.uniques[u], a, b) <==> !ToldApart(t.uniques[u], a, b) {
      ClashIff(t.uniques[u], a, b);
    }
  }

  lemma {:induction false} CompletedIff(cols: seq<Column>, row: Row)
    requires forall i, j :: 0 <= i < j < |cols| ==> cols[i].name != cols[j].name
    ensures Completed(cols, row).Ok? <==> forall k :: 0 <= k < |cols| ==> StoredIn(cols[k], row).Some?
  {
    if cols != [] {
      var n := |cols| - 1;
      CompletedIff(cols[..n], row);
      if Completed(cols[..n], row).Ok? {
        CompletedNames(cols[..n], row);
        assert cols[n].name !in Names(cols[..n]);
      }
      assert forall k :: 0 <= k < n ==> cols[..n][k] == cols[k];
    }
  }

  lemma CompletedHolds(cols: seq<Column>, row: Row, k: nat)
    requires GoodColumns(cols) && Completed(cols, row).Ok? && k < |cols|
    ensures cols[k].name in Completed(cols, row).value
    ensures StoredIn(cols[k], row) == Some(Completed(cols, row).value[cols[k].name])
  {
    CompletedFills(cols, row);
    assert FilledAt(cols[k], row.Keys, row, Completed(cols, row).value);
  }

  /** A row is admitted exactly when every column can be stored and it has a primary key. */
  lemma AdmittedIff(t: TableDef, row: Row)
    requires GoodColumns(t.cols) && row.Keys <= Names(t.cols)
    ensures Admitted(t, row).Ok? <==> (forall k :: 0 <= k < |t.cols| ==> Storable(t.cols[k], row)) && HasId(t.cols, row)
  {
    CompletedIff(t.cols, row);
    if Completed(t.cols, row).Ok? {
      var full := Completed(t.cols, row).value;
      forall k | 0 <= k < |t.cols| ensures
        t.cols[k].name in full && StoredIn(t.cols[k], row) == Some(full[t.cols[k].name])
      {
        CompletedHolds(t.cols, row, k);
      }
      KeyIff(t.cols, row, full);
    }
  }

  lemma KeyIff(cols: seq<Column>, row: Row, full: Row)
    requires GoodColumns(cols) && row.Keys <= Names(cols) && Completed(cols, row) == Ok(full)
    requires forall k :: 0 <= k < |cols| ==> cols[k].name in full && StoredIn(cols[k], row) == Some(full[cols[k].name])
    ensures HasKey(full) <==> HasId(cols, row)
  {
    CompletedNames(cols, row);
    if HasKey(full) {
      var k :| 0 <= k < |cols| && cols[k].name == "id";
      assert StoredIn(cols[k], row) == Some(Num(KeyOf(full)));
    }
  }

  /** The row as it is stored, by `FirstRowDecides` its own values and the fallbacks. */
  function FullRow(t: TableDef, row: Row): Row {
    var full := Admitted(t, row);
    if full.Ok? then full.value else map[]
  }

  predicate RowsApart(t: TableDef, a: Row, b: Row) {
    && "id" in a && "id" in b && a["id"] != b["id"]
    && forall u :: 0 <= u < |t.uniques| ==> ToldApart(t.uniques[u], a, b)
  }

  /**
   A table loads exactly when, with every row cut down to the columns of the first, each column of each row
   has a value of its kind, NULL only where allowed, each row a primary key, and any two rows differ in it
   and are told apart by every unique index, NULL telling apart from everything.
   */
  lemma LoadSucceedsInColumns(iso: Iso, t: TableDef, js: seq<JsonRow>)
    requires GoodColumns(t.cols)
    ensures Loaded(iso, t, js).Ok? <==>
      && FirstRowCovered(t.cols, js) && DecodeAll(iso, t.cols, js).Ok?
      && var rows := DecodeAll(iso, t.cols, js).value;
         var bound := BoundAll(FirstKeys(rows), rows);
         && (forall i, k :: 0 <= i < |bound| && 0 <= k < |t.cols| ==> Storable(t.cols[k], bound[i]))
         && (forall i :: 0 <= i < |bound| ==> HasId(t.cols, bound[i]))
         && forall i, j :: 0 <= i < j < |bound| ==> RowsApart(t, FullRow(t, bound[i]), FullRow(t, bound[j]))
  {
    LoadSucceedsIff(iso, t, js);
    if DecodeAll(iso, t.cols, js).Ok? {
      var rows := BoundNames(iso, t.cols, js);
      DecodeEachBack(iso, t.cols, js);
      AdmissibleIff(t, BoundAll(FirstKeys(rows), rows));
    }
  }

  lemma AdmissibleIff(t: TableDef, rows: seq<Row>)
    requires GoodColumns(t.cols) && forall i :: 0 <= i < |rows| ==> rows[i].Keys <= Names(t.cols)
    ensures Admissible(t, rows) <==>
      && (forall i, k :: 0 <= i < |rows| && 0 <= k < |t.cols| ==> Storable(t.cols[k], rows[i]))
      && (forall i :: 0 <= i < |rows| ==> HasId(t.cols, rows[i]))
      && forall i, j :: 0 <= i < j < |rows| ==> RowsApart(t, FullRow(t, rows[i]), FullRow(t, rows[j]))
  {
    forall i | 0 <= i < |rows| ensures Admitted(t, rows[i]).Ok? <==>
      (forall k :: 0 <= k < |t.cols| ==> Storable(t.cols[k], rows[i])) && HasId(t.cols, rows[i])
    {
      AdmittedIff(t, rows[i]);
    }
    forall i, j | 0 <= i < j < |rows| && Admitted(t, rows[i]).Ok? && Admitted(t, rows[j]).Ok?
      ensures RowsApart(t, FullRow(t, rows[i]), FullRow(t, rows[j])) <==>
        Compatible(t, Admitted(t, rows[i]).value, Admitted(t, rows[j]).value)
    {
      CompatibleIff(t, FullRow(t, rows[i]), FullRow(t, rows[j]));
    }
  }

  // ---------------------------------------------------------------------------
  // What is loaded is sound
  // ---------------------------------------------------------------------------

  lemma {:induction false} DecodedNames(iso: Iso, cols: seq<Column>, j: JsonRow)
    requires Decoded(iso, cols, j).Ok?
    ensures Decoded(iso, cols, j).value.Keys == j.Keys * Names(cols)
  {
    if cols == [] {
      assert Names(cols) == {};
    } else {
      var n := |cols| - 1;
      DecodedNames(iso, cols[..n], j);
      NamesSnoc(cols, n);
      assert cols[..n + 1] == cols;
    }
  }

  lemma {:induction false} CompletedNames(cols: seq<Column>, row: Row)
    requires Completed(cols, row).Ok?
    ensures Completed(cols, row).value.Keys == row.Keys + Names(cols)
  {
    if cols == [] {
      assert Names(cols) == {};
    } else {
      var n := |cols| - 1;
      CompletedNames(cols[..n], row);
      NamesSnoc(cols, n);
      assert cols[..n + 1] == cols;
    }
  }

  lemma AdmittedIsKeyed(t: TableDef, row: Row)
    requires row.Keys <= Names(t.cols) && Admitted(t, row).Ok?
    ensures Keyed(t.cols, KeyOf(Admitted(t, row).value), Admitted(t, row).value)
    ensures Acceptable(t.cols, Admitted(t, row).value)
  {
    CompletedNames(t.cols, row);
  }

  lemma BoundNames(iso: Iso, cols: seq<Column>, js: seq<JsonRow>) returns (rows: seq<Row>)
    requires DecodeAll(iso, cols, js).Ok?
    ensures DecodeAll(iso, cols, js) == Ok(rows)
    ensures var bound := BoundAll(FirstKeys(rows), rows);
      forall i :: 0 <= i < |bound| ==> bound[i].Keys <= Names(cols)
  {
    rows := DecodeAll(iso, cols, js).value;
    DecodeEachBack(iso, cols, js);
    forall i | 0 <= i < |rows| ensures Bound(FirstKeys(rows), rows[i]).Keys <= Names(cols) {
      DecodedNames(iso, cols, js[i]);
    }
  }

  /** Whatever a file contains, a table that loads breaks no constraint. */
  lemma LoadedIsSound(iso: Iso, t: TableDef, js: seq<JsonRow>)
    requires Loaded(iso, t, js).Ok?
    ensures Sound(t, Loaded(iso, t, js).value)
  {
    var rows := BoundNames(iso, t.cols, js);
    InsertedIsSound(t, BoundAll(FirstKeys(rows), rows));
  }

  lemma InsertedIsSound(t: TableDef, rows: seq<Row>)
    requires Inserted(t, rows).Ok? && forall i :: 0 <= i < |rows| ==> rows[i].Keys <= Names(t.cols)
    ensures Sound(t, Inserted(t, rows).value)
  {
    var table := Inserted(t, rows).value;
    InsertedHolds(t, rows);
    KeysAreKept(t, rows);
    InsertedIff(t, rows);
    forall id | id in table ensures Keyed(t.cols, id, table[id]) && Acceptable(t.cols, table[id]) {
      var i :| 0 <= i < |rows| && Admitted(t, rows[i]) == Ok(table[id]);
      AdmittedIsKeyed(t, rows[i]);
    }
    forall a, b | a in table && b in table && a != b ensures Compatible(t, table[a], table[b]) {
      var i :| 0 <= i < |rows| && Admitted(t, rows[i]) == Ok(table[a]);
      var j :| 0 <= j < |rows| && Admitted(t, rows[j]) == Ok(table[b]);
      CompatibleEitherWay(t, rows, i, j);
    }
  }

  lemma CompatibleEitherWay(t: TableDef, rows: seq<Row>, i: nat, j: nat)
    requires Admissible(t, rows) && i < |rows| && j < |rows| && i != j
    ensures Compatible(t, Admitted(t, rows[i]).value, Admitted(t, rows[j]).value)
  {
    var a, b := Admitted(t, rows[i]).value, Admitted(t, rows[j]).value;
    if j < i {
      assert Compatible(t, b, a);
      forall u | 0 <= u < |t.uniques| && Clash(t.uniques[u], a, b) ensures false {
        assert Clash(t.uniques[u], b, a);
      }
    }
  }

  // ---------------------------------------------------------------------------
  // Which values are stored
  // ---------------------------------------------------------------------------

  /** `full` has the row's values in the columns `keys` and the fallback in every other column. */
  predicate FilledFrom(cols: seq<Column>, keys: set<string>, row: Row, full: Row) {
    forall k :: 0 <= k < |cols| ==> FilledAt(cols[k], keys, row, full)
  }

  predicate FilledAt(c: Column, keys: set<string>, row: Row, full: Row) {
    && c.name in full
    && if c.name in keys then c.name in row && full[c.name] == row[c.name] else c.fallback == Some(full[c.name])
  }

  lemma {:induction false} CompletedFills(cols: seq<Column>, row: Row)
    requires Completed(cols, row).Ok? && forall i, j :: 0 <= i < j < |cols| ==> cols[i].name != cols[j].name
    ensures row.Keys <= Completed(cols, row).value.Keys
    ensures forall name :: name in row ==> Completed(cols, row).value[name] == row[name]
    ensures FilledFrom(cols, row.Keys, row, Completed(cols, row).value)
  {
    if cols != [] {
      var n := |cols| - 1;
      CompletedFills(cols[..n], row);
      CompletedNames(cols[..n], row);
      forall k | 0 <= k < |cols| ensures FilledAt(cols[k], row.Keys, row, Completed(cols, row).value) {
        if k < n {
          assert cols[..n][k] == cols[k] && FilledAt(cols[..n][k], row.Keys, row, Completed(cols[..n], row).value);
        }
      }
    }
  }

  /** The table has a row with the dumped values in the first row's columns and fallbacks in the others. */
  ghost predicate StoredAs(t: TableDef, keys: set<string>, row: Row, table: Table) {
    exists id :: id in table && FilledFrom(t.cols, keys, row, table[id])
  }

  /**
   The columns of the first dumped row decide what is stored: every row keeps its values there, and any
   other value it carries is lost to the column's fallback.
   */
  lemma FirstRowDecides(iso: Iso, t: TableDef, js: seq<JsonRow>, i: nat)
    requires GoodColumns(t.cols) && Loaded(iso, t, js).Ok? && i < |js|
    ensures Decoded(iso, t.cols, js[i]).Ok?
    ensures StoredAs(t, js[0].Keys * Names(t.cols), Decoded(iso, t.cols, js[i]).value, Loaded(iso, t, js).value)
  {
    var rows := DecodeAll(iso, t.cols, js).value;
    DecodeEachBack(iso, t.cols, js);
    DecodedNames(iso, t.cols, js[0]);
    BundledStores(t, rows, i);
  }

  lemma BundledStores(t: TableDef, rows: seq<Row>, i: nat)
    requires GoodColumns(t.cols) && Bundled(t, rows).Ok? && i < |rows|
    ensures StoredAs(t, FirstKeys(rows), rows[i], Bundled(t, rows).value)
  {
    var keys, table := FirstKeys(rows), Bundled(t, rows).value;
    InsertedHolds(t, BoundAll(keys, rows));
    assert HeldAt(t, BoundAll(keys, rows)[i], table);
    BoundFills(t.cols, keys, rows[i]);
    assert FilledFrom(t.cols, keys, rows[i], table[KeyOf(Admitted(t, Bound(keys, rows[i])).value)]);
  }

  /** Every dumped row that loads is found under its own primary key. */
  lemma StoredUnderItsKey(iso: Iso, t: TableDef, js: seq<JsonRow>, i: nat, id: nat)
    requires GoodColumns(t.cols) && Loaded(iso, t, js).Ok? && i < |js|
    requires "id" in js[0] && "id" in js[i] && js[i]["id"] == JNum(id)
    ensures var table := Loaded(iso, t, js).value;
      && id in table && Decoded(iso, t.cols, js[i]).Ok?
      && FilledFrom(t.cols, js[0].Keys * Names(t.cols), Decoded(iso, t.cols, js[i]).value, table[id])
  {
    FirstRowDecides(iso, t, js, i);
    LoadedIsSound(iso, t, js);
    var table, row, keys := Loaded(iso, t, js).value, Decoded(iso, t.cols, js[i]).value, js[0].Keys * Names(t.cols);
    var other :| other in table && FilledFrom(t.cols, keys, row, table[other]);
    assert Keyed(t.cols, other, table[other]);
    var k :| 0 <= k < |t.cols| && t.cols[k].name == "id";
    assert FilledAt(t.cols[k], keys, row, table[other]);
    DecodedAt(iso, t.cols, js[i], k);
  }

  /** Text where a whole number belongs keeps a table from loading, if the first row has the column. */
  lemma TextIsNoNumber(iso: Iso, t: TableDef, js: seq<JsonRow>, i: nat, k: nat)
    requires GoodColumns(t.cols) && i < |js| && k < |t.cols| && t.cols[k].kind.Whole?
    requires t.cols[k].name in js[0] && t.cols[k].name in js[i] && js[i][t.cols[k].name].JStr?
    ensures Loaded(iso, t, js).Err?
  {
    if Loaded(iso, t, js).Ok? {
      FirstRowDecides(iso, t, js, i);
      LoadedIsSound(iso, t, js);
      DecodedAt(iso, t.cols, js[i], k);
      DecodeExactly(iso, t.cols[k], js[i][t.cols[k].name]);
      TextDoesNotFit(t, js[0].Keys * Names(t.cols), Decoded(iso, t.cols, js[i]).value, Loaded(iso, t, js).value, k);
    }
  }

  lemma TextDoesNotFit(t: TableDef, keys: set<string>, row: Row, table: Table, k: nat)
    requires k < |t.cols| && t.cols[k].kind.Whole? && t.cols[k].name in keys
    requires t.cols[k].name in row && row[t.cols[k].name].Str? && StoredAs(t, keys, row, table)
    ensures !Sound(t, table)
  {
    var id :| id in table && FilledFrom(t.cols, keys, row, table[id]);
    assert FilledAt(t.cols[k], keys, row, table[id]);
  }

  /** A moment dumped without a zone is restored as that moment in UTC. */
  lemma ZonelessMomentIsStored(iso: Iso, t: TableDef, js: seq<JsonRow>, i: nat, id: nat, k: nat, text: string, at: int)
    requires GoodColumns(t.cols) && Loaded(iso, t, js).Ok? && i < |js| && k < |t.cols|
    requires "id" in js[0] && "id" in js[i] && js[i]["id"] == JNum(id)
    requires t.cols[k].kind.DateTime? && t.cols[k].name in js[0] && t.cols[k].name in js[i]
    requires js[i][t.cols[k].name] == JStr(text) && iso.parse(text) == Some(Naive(at))
    ensures var table := Loaded(iso, t, js).value;
      id in table && t.cols[k].name in table[id] && table[id][t.cols[k].name] == Moment(at)
  {
    StoredUnderItsKey(iso, t, js, i, id);
    var table := Loaded(iso, t, js).value;
    assert t.cols[k] in t.cols;
    assert FilledAt(t.cols[k], js[0].Keys * Names(t.cols), Decoded(iso, t.cols, js[i]).value, table[id]);
    DecodedAt(iso, t.cols, js[i], k);
    ZonelessTextIsUtc(iso, t.cols[k], text, at);
  }

  lemma BoundFills(cols: seq<Column>, keys: set<string>, row: Row)
    requires GoodColumns(cols) && keys <= row.Keys && Completed(cols, Bound(keys, row)).Ok?
    ensures FilledFrom(cols, keys, row, Completed(cols, Bound(keys, row)).value)
  {
    var bound := Bound(keys, row);
    assert bound.Keys == keys;
    CompletedFills(cols, bound);
    forall k | 0 <= k < |cols| ensures FilledAt(cols[k], keys, row, Completed(cols, bound).value) {
      assert FilledAt(cols[k], bound.Keys, bound, Completed(cols, bound).value);
    }
  }

  // ---------------------------------------------------------------------------
  // A dumped table loads
  // ---------------------------------------------------------------------------

  /** `js` lists the rows of `table` by ascending primary key. */
  predicate Lists(iso: Iso, cols: seq<Column>, table: Table, ids: seq<nat>, js: seq<JsonRow>) {
    && |js| == |ids|
    && (forall i, j :: 0 <= i < j < |ids| ==> ids[i] < ids[j])
    && (forall id :: id in ids ==> id in table) && (forall id :: id in table ==> id in ids)
    && forall i :: 0 <= i < |ids| ==>
         ids[i] in table && WellTyped(cols, table[ids[i]]) && Encodes(iso, cols, table[ids[i]], js[i])
  }

  ghost predicate Dumped(iso: Iso, cols: seq<Column>, table: Table, js: seq<JsonRow>) {
    exists ids :: Lists(iso, cols, table, ids, js)
  }

  lemma {:induction false} CompleteAsIs(cols: seq<Column>, row: Row)
    requires Names(cols) <= row.Keys
    ensures Completed(cols, row) == Ok(row)
  {
    if cols != [] {
      var n := |cols| - 1;
      forall c | c in cols[..n] ensures c.name in Names(cols) { assert c in cols; }
      assert cols[n] in cols;
      CompleteAsIs(cols[..n], row);
    }
  }

  lemma AdmittedAsIs(t: TableDef, id: nat, row: Row)
    requires Keyed(t.cols, id, row) && Acceptable(t.cols, row)
    ensures Admitted(t, row) == Ok(row)
  {
    CompleteAsIs(t.cols, row);
  }

  function RowsAt(table: Table, ids: seq<nat>): (rows: seq<Row>)
    requires forall i :: 0 <= i < |ids| ==> ids[i] in table
    ensures |rows| == |ids| && forall i :: 0 <= i < |ids| ==> rows[i] == table[ids[i]]
  {
    if ids == [] then [] else [table[ids[0]]] + RowsAt(table, ids[1..])
  }

  lemma ListedDecode(iso: Iso, cols: seq<Column>, table: Table, ids: seq<nat>, js: seq<JsonRow>) returns (rows: seq<Row>)
    requires Lawful(iso) && GoodColumns(cols) && Lists(iso, cols, table, ids, js)
    ensures |rows| == |ids| && forall i :: 0 <= i < |ids| ==> ids[i] in table && rows[i] == table[ids[i]]
    ensures DecodeAll(iso, cols, js) == Ok(rows)
  {
    rows := RowsAt(table, ids);
    forall i | 0 <= i < |ids| ensures Decoded(iso, cols, js[i]) == Ok(rows[i]) {
      RowRoundTrip(iso, cols, rows[i], js[i]);
    }
    DecodeEach(iso, cols, js, rows);
  }

  lemma SoundRowsGoIn(t: TableDef, table: Table, ids: seq<nat>, rows: seq<Row>)
    requires Sound(t, table) && |rows| == |ids|
    requires forall i, j :: 0 <= i < j < |ids| ==> ids[i] != ids[j]
    requires forall i :: 0 <= i < |ids| ==> ids[i] in table && rows[i] == table[ids[i]]
    requires forall id :: id in table ==> id in ids
    ensures Inserted(t, rows) == Ok(table)
  {
    forall i | 0 <= i < |rows| ensures Admitted(t, rows[i]) == Ok(rows[i]) {
      AdmittedAsIs(t, ids[i], rows[i]);
    }
    InsertedIff(t, rows);
    InsertedHolds(t, rows);
    KeysAreKept(t, rows);
    SameTable(t, rows, ids, table, Inserted(t, rows).value);
  }

  lemma SameTable(t: TableDef, rows: seq<Row>, ids: seq<nat>, table: Table, loaded: Table)
    requires |rows| == |ids| && Holds(t, rows, loaded) && forall i :: 0 <= i < |rows| ==> Admitted(t, rows[i]) == Ok(rows[i])
    requires forall i :: 0 <= i < |ids| ==> ids[i] in table && rows[i] == table[ids[i]] && KeyOf(rows[i]) == ids[i]
    requires forall id :: id in table ==> id in ids
    requires forall id :: id in loaded ==> HasKey(loaded[id]) && KeyOf(loaded[id]) == id
    ensures loaded == table
  {
    forall id | id in table ensures id in loaded && loaded[id] == table[id] {
      var i :| 0 <= i < |ids| && ids[i] == id;
      assert HeldAt(t, rows[i], loaded);
    }
    forall id | id in loaded ensures id in table {
      var i :| 0 <= i < |rows| && Admitted(t, rows[i]) == Ok(loaded[id]);
      assert ids[i] in table;
    }
  }

  /** Dumped rows all have the same columns, so the first one's lose nothing. */
  lemma UniformRowsBind(cols: seq<Column>, rows: seq<Row>)
    requires forall i :: 0 <= i < |rows| ==> rows[i].Keys == Names(cols)
    ensures Binds(rows) && BoundAll(FirstKeys(rows), rows) == rows
  {
    forall i | 0 <= i < |rows| ensures Bound(FirstKeys(rows), rows[i]) == rows[i] {}
  }

  /** A dumped table has the same columns in every row, and loads back as it was. */
  lemma DumpedTableLoads(iso: Iso, t: TableDef, table: Table, js: seq<JsonRow>)
    requires Lawful(iso) && GoodColumns(t.cols) && Dumped(iso, t.cols, table, js) && Sound(t, table)
    ensures forall i :: 0 <= i < |js| ==> js[i].Keys == Names(t.cols)
    ensures Loaded(iso, t, js) == Ok(table)
  {
    var ids :| Lists(iso, t.cols, table, ids, js);
    var rows := ListedDecode(iso, t.cols, table, ids, js);
    UniformRowsBind(t.cols, rows);
    SoundRowsGoIn(t, table, ids, rows);
  }
}
