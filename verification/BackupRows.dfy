/** Rows of a backup: column values to JSON and back. */
module BackupRows {
  import opened Common

  /** Values as the database driver hands them over; `Member` is an enum member by name. */
  datatype Value = Null | Num(n: int) | Str(s: string) | Flag(b: bool) | Moment(at: int) | Member(name: string)

  datatype Json = JNull | JNum(n: int) | JStr(s: string) | JFlag(b: bool)

  datatype Label = Label(name: string, text: string)

  datatype Kind = Plain | Whole | DateTime | Enumeration(labels: seq<Label>)

  /**
   `required` columns are NOT NULL; `refs` names the table a foreign key points into; `fallback` fills
   the column when a row lacks it.
   */
  datatype Column = Column(name: string, kind: Kind, required: bool, refs: Option<string>, fallback: Option<Value>)

  type Row = map<string, Value>

  type JsonRow = map<string, Json>

  datatype Problem = BadMoment | BadLabel | MissingParameter | MissingColumn | BadValue | BadKey | NotUnique | BrokenReference | NotEmpty | BadVersion

  /** ISO 8601 text, left abstract; a parsed moment may lack its zone. */
  datatype Stamp = Aware(at: int) | Naive(at: int)

  datatype Iso = Iso(render: int -> string, parse: string -> Option<Stamp>)

  ghost predicate Lawful(iso: Iso) {
    forall t: int :: iso.parse(iso.render(t)) == Some(Aware(t))
  }

  // ---------------------------------------------------------------------------
  // Single values
  // ---------------------------------------------------------------------------

  predicate GoodLabels(labels: seq<Label>) {
    forall i, j :: 0 <= i < j < |labels| ==> labels[i].name != labels[j].name && labels[i].text != labels[j].text
  }

  function TextOf(labels: seq<Label>, name: string): Option<string> {
    if labels == [] then None
    else if labels[0].name == name then Some(labels[0].text)
    else TextOf(labels[1..], name)
  }

  function NameOf(labels: seq<Label>, text: string): Option<string> {
    if labels == [] then None
    else if labels[0].text == text then Some(labels[0].name)
    else NameOf(labels[1..], text)
  }

  lemma {:induction false} TextOccurs(labels: seq<Label>, name: string)
    requires TextOf(labels, name).Some?
    ensures exists i :: 0 <= i < |labels| && labels[i] == Label(name, TextOf(labels, name).value)
  {
    if labels[0].name == name {
      assert labels[0] == Label(name, TextOf(labels, name).value);
    } else {
      TextOccurs(labels[1..], name);
      var i :| 0 <= i < |labels[1..]| && labels[1..][i] == Label(name, TextOf(labels, name).value);
      assert labels[i + 1] == Label(name, TextOf(labels, name).value);
    }
  }

  lemma {:induction false} LabelRoundTrip(labels: seq<Label>, name: string)
    requires GoodLabels(labels) && TextOf(labels, name).Some?
    ensures NameOf(labels, TextOf(labels, name).value) == Some(name)
  {
    if labels[0].name != name {
      LabelRoundTrip(labels[1..], name);
      TextOccurs(labels[1..], name);
    }
  }

  /** A value the column can hold. */
  predicate Fits(c: Column, v: Value) {
    match c.kind
    case Plain => !v.Moment? && !v.Member?
    case Whole => v.Null? || v.Num?
    case DateTime => v.Null? || v.Moment?
    case Enumeration(labels) => v.Null? || (v.Member? && TextOf(labels, v.name).Some?)
  }

  function Encode(iso: Iso, c: Column, v: Value): Json
    requires Fits(c, v)
  {
    match v
    case Null => JNull
    case Num(n) => JNum(n)
    case Str(s) => JStr(s)
    case Flag(b) => JFlag(b)
    case Moment(at) => JStr(iso.render(at))
    case Member(name) => JStr(TextOf(c.kind.labels, name).value)
  }

  function Decode(iso: Iso, c: Column, j: Json): Result<Value, Problem> {
    match j
    case JNull => Ok(Null)
    case JNum(n) => Ok(Num(n))
    case JFlag(b) => Ok(Flag(b))
    case JStr(s) =>
      match c.kind
      case Plain => Ok(Str(s))
      case Whole => Ok(Str(s))
      case DateTime => if iso.parse(s).Some? then Ok(Moment(iso.parse(s).value.at)) else Err(BadMoment)
      case Enumeration(labels) => if NameOf(labels, s).Some? then Ok(Member(NameOf(labels, s).value)) else Err(BadLabel)
  }

  /** Text that is no moment, or no value of the enum, is refused; any other text, number or flag is kept. */
  lemma DecodeExactly(iso: Iso, c: Column, j: Json)
    ensures c.kind.DateTime? && j.JStr? && iso.parse(j.s).None? ==> Decode(iso, c, j) == Err(BadMoment)
    ensures c.kind.Enumeration? && j.JStr? && (forall i :: 0 <= i < |c.kind.labels| ==> c.kind.labels[i].text != j.s) ==>
      Decode(iso, c, j) == Err(BadLabel)
    ensures j.JStr? && (c.kind.Plain? || c.kind.Whole?) ==> Decode(iso, c, j) == Ok(Str(j.s))
    ensures j.JNum? ==> Decode(iso, c, j) == Ok(Num(j.n))
    ensures j.JFlag? ==> Decode(iso, c, j) == Ok(Flag(j.b))
    ensures j.JNull? ==> Decode(iso, c, j) == Ok(Null)
  {
    if c.kind.Enumeration? && j.JStr? && NameOf(c.kind.labels, j.s).Some? {
      NameOccurs(c.kind.labels, j.s);
    }
  }

  lemma {:induction false} NameOccurs(labels: seq<Label>, text: string)
    requires NameOf(labels, text).Some?
    ensures exists i :: 0 <= i < |labels| && labels[i].text == text
  {
    if labels[0].text != text {
      NameOccurs(labels[1..], text);
      var i :| 0 <= i < |labels[1..]| && labels[1..][i].text == text;
      assert labels[i + 1].text == text;
    }
  }

  /** Text without a zone, as older backups have it, decodes to the moment it names in UTC. */
  lemma ZonelessTextIsUtc(iso: Iso, c: Column, text: string, at: int)
    requires c.kind.DateTime? && iso.parse(text) == Some(Naive(at))
    ensures Decode(iso, c, JStr(text)) == Ok(Moment(at))
  {
  }

  predicate GoodColumn(c: Column) {
    (c.kind.Enumeration? ==> GoodLabels(c.kind.labels)) && (c.refs.Some? ==> c.kind.Whole?)
  }

  lemma ValueRoundTrip(iso: Iso, c: Column, v: Value)
    requires Lawful(iso) && GoodColumn(c) && Fits(c, v)
    ensures Decode(iso, c, Encode(iso, c, v)) == Ok(v)
  {
    match v
    case Moment(at) => assert iso.parse(iso.render(at)) == Some(Aware(at));
    case Member(name) => LabelRoundTrip(c.kind.labels, name);
    case _ =>
  }

  // ---------------------------------------------------------------------------
  // Rows
  // ---------------------------------------------------------------------------

  predicate GoodColumns(cols: seq<Column>) {
    && (forall i :: 0 <= i < |cols| ==> GoodColumn(cols[i]))
    && forall i, j :: 0 <= i < j < |cols| ==> cols[i].name != cols[j].name
  }

  function Names(cols: seq<Column>): set<string> {
    set c | c in cols :: c.name
  }

  predicate WellTyped(cols: seq<Column>, row: Row) {
    row.Keys == Names(cols) && forall i :: 0 <= i < |cols| ==> cols[i].name in row && Fits(cols[i], row[cols[i].name])
  }

  /** What a dumped row looks like: one entry per column. */
  predicate Encodes(iso: Iso, cols: seq<Column>, row: Row, j: JsonRow)
    requires WellTyped(cols, row)
  {
    && j.Keys == Names(cols)
    && forall i :: 0 <= i < |cols| ==> cols[i].name in j && j[cols[i].name] == Encode(iso, cols[i], row[cols[i].name])
  }

  method SerializeRow(iso: Iso, cols: seq<Column>, row: Row) returns (j: JsonRow)
    requires GoodColumns(cols) && WellTyped(cols, row)
    ensures Encodes(iso, cols, row, j)
  {
    j := map[];
    for i := 0 to |cols|
      invariant j.Keys == Names(cols[..i])
      invariant forall k :: 0 <= k < i ==> cols[k].name in j && j[cols[k].name] == Encode(iso, cols[k], row[cols[k].name])
    {
      NamesSnoc(cols, i);
      j := j[cols[i].name := Encode(iso, cols[i], row[cols[i].name])];
    }
    assert cols[..|cols|] == cols;
  }

  lemma NamesSnoc(cols: seq<Column>, i: nat)
    requires i < |cols|
    ensures Names(cols[..i + 1]) == Names(cols[..i]) + {cols[i].name}
  {
    assert cols[..i + 1] == cols[..i] + [cols[i]];
  }

  /** Columns the row lacks are left out, keys that are no columns are ignored. */
  function Decoded(iso: Iso, cols: seq<Column>, j: JsonRow): Result<Row, Problem> {
    if cols == [] then Ok(map[])
    else
      var n := |cols| - 1;
      var c := cols[n];
      match Decoded(iso, cols[..n], j)
      case Err(problem) => Err(problem)
      case Ok(row) =>
        if c.name !in j then Ok(row)
        else
          match Decode(iso, c, j[c.name])
          case Err(problem) => Err(problem)
          case Ok(v) => Ok(row[c.name := v])
  }

  method DeserializeRow(iso: Iso, cols: seq<Column>, j: JsonRow) returns (r: Result<Row, Problem>)
    ensures r == Decoded(iso, cols, j)
  {
    var row: Row := map[];
    for i := 0 to |cols|
      invariant Decoded(iso, cols[..i], j) == Ok(row)
    {
      assert cols[..i + 1][..i] == cols[..i];
      var c := cols[i];
      if c.name !in j {
        continue;
      }
      match Decode(iso, c, j[c.name])
      case Err(problem) =>
        DecodeFails(iso, cols, j, i + 1);
        return Err(problem);
      case Ok(v) =>
        row := row[c.name := v];
    }
    assert cols[..|cols|] == cols;
    return Ok(row);
  }

  lemma {:induction false} DecodeFails(iso: Iso, cols: seq<Column>, j: JsonRow, i: nat)
    requires i <= |cols| && Decoded(iso, cols[..i], j).Err?
    ensures Decoded(iso, cols, j) == Decoded(iso, cols[..i], j)
    decreases |cols|
  {
    if i == |cols| {
      assert cols[..i] == cols;
    } else {
      var n := |cols| - 1;
      assert cols[..n][..i] == cols[..i];
      DecodeFails(iso, cols[..n], j, i);
    }
  }

  /** Each column's entry decodes to the row's value. */
  predicate DecodesTo(iso: Iso, cols: seq<Column>, j: JsonRow, row: Row) {
    forall i :: 0 <= i < |cols| ==> DecodesAt(iso, cols[i], j, row)
  }

  predicate DecodesAt(iso: Iso, c: Column, j: JsonRow, row: Row) {
    c.name in j && c.name in row && Decode(iso, c, j[c.name]) == Ok(row[c.name])
  }

  lemma {:induction false} DecodedPrefix(iso: Iso, cols: seq<Column>, row: Row, j: JsonRow, k: nat)
    requires DecodesTo(iso, cols, j, row) && k <= |cols|
    ensures Decoded(iso, cols[..k], j).Ok?
    ensures var back := Decoded(iso, cols[..k], j).value;
      back.Keys == Names(cols[..k]) && forall n :: n in back ==> n in row && back[n] == row[n]
  {
    if k > 0 {
      DecodedPrefix(iso, cols, row, j, k - 1);
      NamesSnoc(cols, k - 1);
      assert cols[..k][..k - 1] == cols[..k - 1];
      assert DecodesAt(iso, cols[k - 1], j, row);
    }
  }

  lemma EncodedDecodes(iso: Iso, cols: seq<Column>, row: Row, j: JsonRow)
    requires Lawful(iso) && GoodColumns(cols) && WellTyped(cols, row) && Encodes(iso, cols, row, j)
    ensures DecodesTo(iso, cols, j, row)
  {
    forall i | 0 <= i < |cols| ensures DecodesAt(iso, cols[i], j, row) {
      ValueRoundTrip(iso, cols[i], row[cols[i].name]);
    }
  }

  /** A dumped row decodes to the row it came from. */
  lemma RowRoundTrip(iso: Iso, cols: seq<Column>, row: Row, j: JsonRow)
    requires Lawful(iso) && GoodColumns(cols) && WellTyped(cols, row) && Encodes(iso, cols, row, j)
    ensures Decoded(iso, cols, j) == Ok(row)
  {
    EncodedDecodes(iso, cols, row, j);
    DecodedPrefix(iso, cols, row, j, |cols|);
    assert cols[..|cols|] == cols;
    assert Decoded(iso, cols, j).value == row;
  }

  /** A row with one entry that does not decode does not decode. */
  lemma {:induction false} BadEntryIsRefused(iso: Iso, cols: seq<Column>, j: JsonRow, k: nat)
    requires k < |cols| && cols[k].name in j && Decode(iso, cols[k], j[cols[k].name]).Err?
    ensures Decoded(iso, cols, j).Err?
    decreases |cols|
  {
    var n := |cols| - 1;
    if k < n {
      BadEntryIsRefused(iso, cols[..n], j, k);
    }
  }

  /** What a column of a decoded row holds: its own entry, decoded. */
  lemma {:induction false} DecodedAt(iso: Iso, cols: seq<Column>, j: JsonRow, k: nat)
    requires Decoded(iso, cols, j).Ok? && GoodColumns(cols) && k < |cols| && cols[k].name in j
    ensures cols[k].name in Decoded(iso, cols, j).value
    ensures Decode(iso, cols[k], j[cols[k].name]) == Ok(Decoded(iso, cols, j).value[cols[k].name])
    decreases |cols|
  {
    var n := |cols| - 1;
    if k < n {
      DecodedAt(iso, cols[..n], j, k);
    }
  }

  /** Retired columns in a backup make no difference. */
  lemma {:induction false} RetiredColumnsIgnored(iso: Iso, cols: seq<Column>, j: JsonRow, retired: set<string>)
    requires retired !! Names(cols)
    ensures Decoded(iso, cols, j - retired) == Decoded(iso, cols, j)
  {
    if cols != [] {
      var n := |cols| - 1;
      assert cols[n] in cols;
      forall c | c in cols[..n] ensures c.name in Names(cols) { assert c in cols; }
      RetiredColumnsIgnored(iso, cols[..n], j, retired);
    }
  }
}
