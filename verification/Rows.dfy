/** Rows of a loading table: columns chosen after pass 1 and writeTuple of pass 2 (src/stage.cpp). */
module Rows {
  import opened Wrappers
  import opened CStrings
  import opened Decimal
  import opened JsonTree
  import opened JsonPointer
  import opened TypeStats
  import CopyText
  import JsonText

  const VarcharSize := 67108864

  datatype Column = Column(name: string, ctype: ColumnType, length: nat, source: string)

  // ---- Pure meaning of a row ------------------------------------------------------------------

  /** The value a column's source name designates: a member, or a path when the name holds a slash. A path that is no
      pointer has no steps. */
  function Lookup(doc: Json, source: string): Option<Json>
    requires doc.Obj?
  {
    if '/' in source then
      match ParsePointer("/" + source)
      case Invalid => Some(doc)
      case Tokens(names) => GetPointer(doc, names)
    else
      var k := FindMember(doc.members, source);
      if k < |doc.members| then Some(doc.members[k].value) else None
  }

  function Millionths(v: Json): int
    requires v.Number()
  {
    if v.Int? then v.i * JsonText.Million else v.millionths
  }

  function NumberText(v: Json): string
    requires v.Number()
  {
    JsonText.DecText(JsonText.Handler, Millionths(v))
  }

  const TenToTheTenth := 10_000_000_000

  /** A number in millionths, as a numeric column gets it. */
  function NumericText(m: int): string {
    if m > TenToTheTenth * JsonText.Million then "0" else JsonText.DecText(JsonText.Handler, m)
  }

  /** json_value_to_string. */
  function ValueText(v: Json): string {
    match v
    case Null => ""
    case Bool(b) => if b then "true" else "false"
    case Int(_) => NumberText(v)
    case Dec(_) => NumberText(v)
    case Str(s) => s
    case _ => "INVALID"
  }

  function Bounded(text: string): CopyText.Field {
    if |CopyText.Escaped(CStr(text))| >= VarcharSize - 1 then CopyText.Null else CopyText.Value(CStr(text))
  }

  // ---- Accessors ------------------------------------------------------------------------------

  /** A build with the reader's assertions, where a wrong accessor ends the process; or one without them, the
      default, where it reads what is there. `slot` is what the number part of a value holds that is no integer. */
  datatype Build = Debug | Release(slot: Json -> int)

  predicate Small(i: int) {
    -0x8000_0000 <= i < 0x8000_0000
  }

  /** The low 32 bits, with their sign. */
  function Low32(i: int): int {
    (i + 0x8000_0000) % 0x1_0000_0000 - 0x8000_0000
  }

  /** GetInt. */
  function ReadInt(b: Build, v: Json): Option<int> {
    match b
    case Debug => if v.Int? && Small(v.i) then Some(v.i) else None
    case Release(slot) => Some(Low32(if v.Int? then v.i else slot(v)))
  }

  /** GetBool. */
  function ReadBool(b: Build, v: Json): Option<bool> {
    if b.Debug? && !v.Bool? then None else Some(v == Bool(true))
  }

  /** GetDouble, in millionths. */
  function ReadDouble(b: Build, v: Json): Option<int> {
    if v.Number() then Some(Millionths(v))
    else match b case Debug => None case Release(slot) => Some(slot(v) * JsonText.Million)
  }

  function Typed(b: Build, ctype: ColumnType, v: Json): Option<string>
    requires ctype in {BigInt, Boolean, Numeric}
  {
    match ctype
    case BigInt => (match ReadInt(b, v) case Some(i) => Some(IntText(i)) case None => None)
    case Boolean => (match ReadBool(b, v) case Some(t) => Some(if t then "1" else "0") case None => None)
    case Numeric => (match ReadDouble(b, v) case Some(m) => Some(NumericText(m)) case None => None)
  }

  /** None when the accessor for the column type ends the process. */
  function CellOf(b: Build, column: Column, doc: Json): Option<CopyText.Field>
    requires doc.Obj?
  {
    match Lookup(doc, column.source)
    case None => Some(CopyText.Null)
    case Some(v) =>
      if v.Null? then Some(CopyText.Null)
      else if column.ctype in {BigInt, Boolean, Numeric} then
        (match Typed(b, column.ctype, v) case Some(s) => Some(CopyText.Value(s)) case None => None)
      else Some(Bounded(ValueText(v)))
  }

  /** The record's identifier: `id`, else `notificationId`, if it is a string. */
  function IdOf(doc: Json): Option<string>
    requires doc.Obj?
  {
    var id, alt := Lookup(doc, "id"), Lookup(doc, "notificationId");
    if id.Some? && id.value.Str? then Some(CStr(id.value.s))
    else if alt.Some? && alt.value.Str? then Some(CStr(alt.value.s))
    else None
  }

  /** The record as JSON text: indented, compact if that is too long, or nothing. */
  function DataOf(doc: Json): CopyText.Field {
    var pretty, compact := JsonText.Text(JsonText.Pretty, 0, doc), JsonText.Text(JsonText.Compact, 0, doc);
    if |CopyText.Escaped(pretty)| <= VarcharSize - 1 then CopyText.Value(pretty)
    else if |CopyText.Escaped(compact)| <= VarcharSize - 1 then CopyText.Value(compact)
    else CopyText.Null
  }

  /** The columns that have a cell of their own. */
  function Stored(columns: seq<Column>): seq<Column> {
    if columns == [] then []
    else (if columns[0].name == "id" then [] else [columns[0]]) + Stored(columns[1..])
  }

  function CellsOf(b: Build, columns: seq<Column>, doc: Json): Option<seq<CopyText.Field>>
    requires doc.Obj?
  {
    if columns == [] then Some([])
    else
      var init, last := columns[..|columns| - 1], columns[|columns| - 1];
      if CellsOf(b, init, doc).Some? && CellOf(b, last, doc).Some?
      then Some(CellsOf(b, init, doc).value + [CellOf(b, last, doc).value]) else None
  }

  /** None when the record cannot be loaded. */
  function RowOf(b: Build, columns: seq<Column>, doc: Json): Option<CopyText.Row> {
    if !doc.Obj? then None
    else
      match (IdOf(doc), CellsOf(b, Stored(columns), doc))
      case (Some(id), Some(cells)) => Some([CopyText.Value(id)] + cells + [DataOf(doc)])
      case _ => None
  }

  // ---- The loading table ----------------------------------------------------------------------

  function ExpandedName(name: string): string {
    var p := TokenEnd(name);
    if p < |name| then name[..p] + "__" + name[p + 1..] else name
  }

  /** The first slash of a name becomes two underscores. */
  lemma ExpandsFirstSlash(a: string, b: string)
    requires '/' !in a
    ensures ExpandedName(a) == a && ExpandedName(a + "/" + b) == a + "__" + b
  {
    TokenEndOf(a, "");
    assert a + "" == a;
    TokenEndOf(a, "/" + b);
    assert a + "/" + b == a + ("/" + b);
  }

  function ExpandedNames(columns: seq<Column>): seq<string> {
    if columns == [] then [] else [ExpandedName(columns[0].name)] + ExpandedNames(columns[1..])
  }

  /** The column names of CREATE TABLE, in order. */
  function LoadingColumns(columns: seq<Column>): seq<string> {
    ["id"] + ExpandedNames(Stored(columns)) + ["data"]
  }

  lemma {:induction false} ExpandedNamesAt(columns: seq<Column>, k: nat)
    ensures |ExpandedNames(columns)| == |columns|
    ensures k < |columns| ==> ExpandedNames(columns)[k] == ExpandedName(columns[k].name)
  {
    if columns != [] {
      ExpandedNamesAt(columns[1..], if k > 0 then k - 1 else 0);
    }
  }

  lemma CellsSnoc(b: Build, columns: seq<Column>, column: Column, doc: Json)
    requires doc.Obj?
    ensures CellsOf(b, columns + [column], doc) ==
      if CellsOf(b, columns, doc).Some? && CellOf(b, column, doc).Some?
      then Some(CellsOf(b, columns, doc).value + [CellOf(b, column, doc).value]) else None
  {
    var all := columns + [column];
    assert all[..|all| - 1] == columns;
  }

  lemma {:induction false} CellsAt(b: Build, columns: seq<Column>, doc: Json, k: nat)
    requires doc.Obj? && CellsOf(b, columns, doc).Some?
    ensures |CellsOf(b, columns, doc).value| == |columns|
    ensures k < |columns| ==> CellOf(b, columns[k], doc) == Some(CellsOf(b, columns, doc).value[k])
  {
    if columns != [] {
      var init := columns[..|columns| - 1];
      assert columns == init + [columns[|init|]];
      CellsSnoc(b, init, columns[|init|], doc);
      CellsAt(b, init, doc, k);
    }
  }

  /** A cell that cannot be written spoils the row. */
  lemma {:induction false} CellsNeedAll(b: Build, columns: seq<Column>, doc: Json, k: nat)
    requires doc.Obj? && k < |columns| && CellOf(b, columns[k], doc).None?
    ensures CellsOf(b, columns, doc).None?
  {
    if k < |columns| - 1 {
      CellsNeedAll(b, columns[..|columns| - 1], doc, k);
    }
  }

  lemma RowParts(b: Build, columns: seq<Column>, doc: Json)
    requires RowOf(b, columns, doc).Some?
    ensures doc.Obj? && IdOf(doc).Some? && CellsOf(b, Stored(columns), doc).Some?
    ensures RowOf(b, columns, doc).value ==
      [CopyText.Value(IdOf(doc).value)] + CellsOf(b, Stored(columns), doc).value + [DataOf(doc)]
  {
  }

  lemma Framing<T>(first: T, middle: seq<T>, last: T, k: nat)
    ensures |[first] + middle + [last]| == |middle| + 2
    ensures k < |middle| ==> ([first] + middle + [last])[k + 1] == middle[k]
  {
  }

  /** A row has the loading table's columns, in its order. */
  lemma RowMatchesTable(b: Build, columns: seq<Column>, doc: Json, k: nat)
    requires RowOf(b, columns, doc).Some?
    ensures |RowOf(b, columns, doc).value| == |LoadingColumns(columns)| == |Stored(columns)| + 2
    ensures k < |Stored(columns)| ==>
      LoadingColumns(columns)[k + 1] == ExpandedName(Stored(columns)[k].name) &&
      CellOf(b, Stored(columns)[k], doc) == Some(RowOf(b, columns, doc).value[k + 1])
  {
    RowParts(b, columns, doc);
    ExpandedNamesAt(Stored(columns), k);
    CellsAt(b, Stored(columns), doc, k);
    Framing("id", ExpandedNames(Stored(columns)), "data", k);
    Framing(CopyText.Value(IdOf(doc).value), CellsOf(b, Stored(columns), doc).value, DataOf(doc), k);
  }

  lemma RowIdAndData(b: Build, columns: seq<Column>, doc: Json)
    requires RowOf(b, columns, doc).Some?
    ensures
      var row := RowOf(b, columns, doc).value;
      && doc.Obj? && IdOf(doc).Some? && |row| == |Stored(columns)| + 2
      && row[0] == CopyText.Value(IdOf(doc).value) && row[|row| - 1] == DataOf(doc)
  {
    RowParts(b, columns, doc);
    RowMatchesTable(b, columns, doc, 0);
  }

  predicate HasString(doc: Json, name: string, s: string)
    requires doc.Obj?
  {
    Member(name, Str(s)) in doc.members
  }

  lemma StringMember(doc: Json, name: string, s: string)
    requires doc.Obj? && UniqueNames(doc.members) && '/' !in name
    ensures HasString(doc, name, s) <==> Lookup(doc, name) == Some(Str(s))
  {
    var k := FindMember(doc.members, name);
    if HasString(doc, name, s) {
      var i :| 0 <= i < |doc.members| && doc.members[i] == Member(name, Str(s));
      FindUnique(doc.members, i);
    }
    if k < |doc.members| {
      assert doc.members[k] in doc.members && doc.members[k] == Member(name, doc.members[k].value);
    }
  }

  /** The first field is the record's `id`, or, only where that is no string, its `notificationId`; up to a NUL. */
  ghost predicate Identifies(doc: Json, field: CopyText.Field)
    requires doc.Obj?
  {
    && (forall s :: HasString(doc, "id", s) ==> field == CopyText.Value(CStr(s)))
    && ((forall s :: !HasString(doc, "id", s)) ==>
        exists s :: HasString(doc, "notificationId", s) && field == CopyText.Value(CStr(s)))
  }

  /** The last field is the record as indented text, if that has at most 67108863 characters with its escapes, else as
      compact text, if that has, else nothing. */
  predicate Prints(doc: Json, field: CopyText.Field) {
    var pretty, compact := JsonText.Text(JsonText.Pretty, 0, doc), JsonText.Text(JsonText.Compact, 0, doc);
    && (|CopyText.Escaped(pretty)| <= 67_108_863 ==> field == CopyText.Value(pretty))
    && (|CopyText.Escaped(pretty)| > 67_108_863 ==>
        field == if |CopyText.Escaped(compact)| <= 67_108_863 then CopyText.Value(compact) else CopyText.Null)
  }

  /** What stands at both ends of a row, and when the default build has a row. */
  lemma RowEnds(b: Build, columns: seq<Column>, doc: Json)
    requires doc.Obj? && UniqueNames(doc.members)
    ensures RowOf(b, columns, doc).Some? ==>
      var row := RowOf(b, columns, doc).value;
      |row| >= 2 && Identifies(doc, row[0]) && Prints(doc, row[|row| - 1])
    ensures IdOf(doc).Some? <==> exists s :: HasString(doc, "id", s) || HasString(doc, "notificationId", s)
  {
    forall s
      ensures HasString(doc, "id", s) <==> Lookup(doc, "id") == Some(Str(s))
      ensures HasString(doc, "notificationId", s) <==> Lookup(doc, "notificationId") == Some(Str(s))
    {
      StringMember(doc, "id", s);
      StringMember(doc, "notificationId", s);
    }
    if IdOf(doc).Some? {
      assert exists s :: Lookup(doc, "id") == Some(Str(s)) || Lookup(doc, "notificationId") == Some(Str(s));
    }
    if RowOf(b, columns, doc).Some? {
      RowIdAndData(b, columns, doc);
    }
  }

  // ---- Writing --------------------------------------------------------------------------------

  /** Fields that are each followed by a tab. */
  function Tabbed(fields: seq<CopyText.Field>): string {
    if fields == [] then ""
    else Tabbed(fields[..|fields| - 1]) + (CopyText.EncodedField(fields[|fields| - 1]) + "\t")
  }

  lemma TabbedSnoc(fields: seq<CopyText.Field>, f: CopyText.Field)
    ensures Tabbed(fields + [f]) == Tabbed(fields) + (CopyText.EncodedField(f) + "\t")
  {
    assert (fields + [f])[..|fields|] == fields;
  }

  lemma {:induction false} TabbedRow(fields: seq<CopyText.Field>, tail: CopyText.Row)
    requires tail != []
    ensures CopyText.EncodedFields(fields + tail) == Tabbed(fields) + CopyText.EncodedFields(tail)
  {
    if fields == [] {
      assert fields + tail == tail;
    } else {
      var n := |fields| - 1;
      var f := fields[n];
      assert fields + tail == fields[..n] + ([f] + tail);
      TabbedRow(fields[..n], [f] + tail);
      assert ([f] + tail)[1..] == tail;
      Assoc(Tabbed(fields[..n]), CopyText.EncodedField(f) + "\t", CopyText.EncodedFields(tail));
    }
  }

  lemma PlainNat(n: nat)
    ensures CopyText.Plain(NatText(n))
  {
    assert forall c :: IsDigit(c) ==> CopyText.EscapedChar(c) == [c];
  }

  lemma PlainDec(m: nat)
    ensures CopyText.Plain(JsonText.UnsignedDecText(JsonText.Handler, m))
  {
    assert forall c :: IsDigit(c) ==> CopyText.EscapedChar(c) == [c];
  }

  lemma SignUnescaped(digits: string)
    requires CopyText.Plain(digits)
    ensures CopyText.Escaped(digits) == digits && CopyText.Escaped("-" + digits) == "-" + digits
  {
    CopyText.PlainUnchanged(digits);
    CopyText.PlainUnchanged("-" + digits);
  }

  lemma NumberTextUnescaped(m: int)
    ensures CopyText.Escaped(JsonText.DecText(JsonText.Handler, m)) == JsonText.DecText(JsonText.Handler, m)
  {
    var size := if m < 0 then -m else m;
    PlainDec(size);
    SignUnescaped(JsonText.UnsignedDecText(JsonText.Handler, size));
  }

  lemma IntTextUnescaped(i: int)
    ensures CopyText.Escaped(IntText(i)) == IntText(i)
  {
    var size := if i < 0 then -i else i;
    PlainNat(size);
    SignUnescaped(NatText(size));
  }

  lemma NumericUnescaped(m: int)
    ensures CopyText.Escaped(NumericText(m)) == NumericText(m)
  {
    NumberTextUnescaped(m);
    CopyText.PlainUnchanged("0");
  }

  /** Text of a value for a column of a numeric or boolean type. */
  method WriteTyped(b: Build, ctype: ColumnType, v: Json) returns (ok: bool, s: string)
    requires ctype in {BigInt, Boolean, Numeric}
    ensures ok <==> Typed(b, ctype, v).Some?
    ensures ok ==> Typed(b, ctype, v) == Some(s) && CopyText.Escaped(s) == s
  {
    ok, s := true, "";
    match ctype {
      case BigInt =>
        var i := ReadInt(b, v);
        if i.None? {
          return false, s;
        }
        IntTextUnescaped(i.value);
        s := IntText(i.value);
      case Boolean =>
        var t := ReadBool(b, v);
        if t.None? {
          return false, s;
        }
        CopyText.PlainUnchanged("1");
        CopyText.PlainUnchanged("0");
        s := if t.value then "1" else "0";
      case Numeric =>
        var d := ReadDouble(b, v);
        if d.None? {
          return false, s;
        }
        NumericUnescaped(d.value);
        s := JsonText.DecText(JsonText.Handler, d.value);
        if d.value > TenToTheTenth * JsonText.Million {
          s := "0";
        }
    }
  }

  /** Text of a value for a textual column. */
  method WriteText(v: Json) returns (s: string)
    ensures s == CopyText.EncodedField(Bounded(ValueText(v)))
  {
    s := CopyText.EncodeCopy(ValueText(v));
    if |s| >= VarcharSize - 1 {
      s := "\\N";
    }
  }

  /** Appends one cell and its tab. */
  method WriteCell(b: Build, column: Column, doc: Json, copyBuffer: string) returns (ok: bool, out: string)
    requires doc.Obj?
    ensures ok <==> CellOf(b, column, doc).Some?
    ensures ok ==> out == copyBuffer + (CopyText.EncodedField(CellOf(b, column, doc).value) + "\t")
  {
    ok := true;
    var found := Lookup(doc, column.source);
    var s;
    if found.None? || found.value.Null? {
      s := "\\N";
    } else if column.ctype in {BigInt, Boolean, Numeric} {
      ok, s := WriteTyped(b, column.ctype, found.value);
    } else {
      s := WriteText(found.value);
    }
    out := copyBuffer + (s + "\t");
  }

  lemma {:induction false} StoredSnoc(columns: seq<Column>, c: Column)
    ensures Stored(columns + [c]) == Stored(columns) + (if c.name == "id" then [] else [c])
  {
    if columns == [] {
      assert columns + [c] == [c] && [c][1..] == [];
    } else {
      assert (columns + [c])[1..] == columns[1..] + [c];
      StoredSnoc(columns[1..], c);
    }
  }

  lemma {:induction false} StoredHas(columns: seq<Column>, i: nat) returns (k: nat)
    requires i < |columns| && columns[i].name != "id"
    ensures k < |Stored(columns)| && Stored(columns)[k] == columns[i]
  {
    if i == 0 {
      k := 0;
    } else {
      k := StoredHas(columns[1..], i - 1);
      k := if columns[0].name == "id" then k else k + 1;
    }
  }

  /** The stored columns are those with another name than `id`. */
  lemma {:induction false} StoredExactly(columns: seq<Column>)
    ensures forall k :: 0 <= k < |Stored(columns)| ==> Stored(columns)[k] in columns && Stored(columns)[k].name != "id"
    ensures forall i :: 0 <= i < |columns| && columns[i].name != "id" ==> columns[i] in Stored(columns)
  {
    if columns != [] {
      StoredExactly(columns[1..]);
      assert columns == [columns[0]] + columns[1..];
      forall k | 0 <= k < |Stored(columns)|
        ensures Stored(columns)[k] in columns && Stored(columns)[k].name != "id"
      {
        assert Stored(columns)[k] in Stored(columns);
        assert Stored(columns)[k] == columns[0] || Stored(columns)[k] in Stored(columns[1..]);
      }
    }
  }

  /** The tabbed text of a row and its last field make the row's line. */
  lemma RowLine(id: CopyText.Field, cells: seq<CopyText.Field>, data: CopyText.Field)
    ensures CopyText.EncodedRow([id] + cells + [data]) ==
      Tabbed([id] + cells) + (CopyText.EncodedField(data) + "\n")
  {
    TabbedRow([id] + cells, [data]);
    Assoc(Tabbed([id] + cells), CopyText.EncodedField(data), "\n");
  }

  /** The `data` field, encoded. */
  method WriteData(doc: Json) returns (data: string)
    ensures data == CopyText.EncodedField(DataOf(doc))
  {
    var jsonText := JsonText.Text(JsonText.Pretty, 0, doc);
    JsonText.TextHasNoNul(JsonText.Pretty, 0, doc);
    CStrOfClean(jsonText);
    data := CopyText.EncodeCopy(jsonText);
    if |data| > VarcharSize - 1 {
      jsonText := JsonText.Text(JsonText.Compact, 0, doc);
      JsonText.TextHasNoNul(JsonText.Compact, 0, doc);
      CStrOfClean(jsonText);
      data := CopyText.EncodeCopy(jsonText);
      if |data| > VarcharSize - 1 {
        data := "\\N";
      }
    }
  }

  /** The buffer after the cells of these columns. */
  function CellsText(b: Build, start: string, fields: seq<CopyText.Field>, columns: seq<Column>, doc: Json): string
    requires doc.Obj? && CellsOf(b, Stored(columns), doc).Some?
  {
    start + Tabbed(fields + CellsOf(b, Stored(columns), doc).value)
  }

  lemma CellsTextSnoc(start: string, fields: seq<CopyText.Field>, cells: seq<CopyText.Field>, cell: CopyText.Field)
    ensures start + Tabbed(fields + (cells + [cell])) ==
      (start + Tabbed(fields + cells)) + (CopyText.EncodedField(cell) + "\t")
  {
    TabbedSnoc(fields + cells, cell);
    assert fields + (cells + [cell]) == fields + cells + [cell];
    Assoc(start, Tabbed(fields + cells), CopyText.EncodedField(cell) + "\t");
  }

  lemma StoredStep(columns: seq<Column>, i: nat)
    requires i < |columns|
    ensures Stored(columns[..i + 1]) ==
      if columns[i].name == "id" then Stored(columns[..i]) else Stored(columns[..i]) + [columns[i]]
  {
    assert columns[..i + 1] == columns[..i] + [columns[i]];
    StoredSnoc(columns[..i], columns[i]);
    assert Stored(columns[..i]) + [] == Stored(columns[..i]);
  }

  lemma CellsTextStep(b: Build, start: string, fields: seq<CopyText.Field>, columns: seq<Column>, i: nat, doc: Json)
    requires doc.Obj? && i < |columns| && CellsOf(b, Stored(columns[..i]), doc).Some?
    requires columns[i].name == "id" || CellOf(b, columns[i], doc).Some?
    ensures CellsOf(b, Stored(columns[..i + 1]), doc).Some?
    ensures CellsText(b, start, fields, columns[..i + 1], doc) ==
      if columns[i].name == "id" then CellsText(b, start, fields, columns[..i], doc)
      else CellsText(b, start, fields, columns[..i], doc) + (CopyText.EncodedField(CellOf(b, columns[i], doc).value) + "\t")
  {
    StoredStep(columns, i);
    if columns[i].name != "id" {
      CellsSnoc(b, Stored(columns[..i]), columns[i], doc);
      CellsTextSnoc(start, fields, CellsOf(b, Stored(columns[..i]), doc).value, CellOf(b, columns[i], doc).value);
    }
  }

  lemma MissingCell(b: Build, columns: seq<Column>, i: nat, doc: Json)
    requires doc.Obj? && i < |columns| && columns[i].name != "id" && CellOf(b, columns[i], doc).None?
    ensures CellsOf(b, Stored(columns), doc).None?
  {
    var k := StoredHas(columns, i);
    CellsNeedAll(b, Stored(columns), doc, k);
  }

  /** Appends the cells of all columns but `id`. */
  method WriteCells(b: Build, columns: seq<Column>, doc: Json, copyBuffer: string, ghost start: string, ghost fields: seq<CopyText.Field>)
    returns (ok: bool, out: string)
    requires doc.Obj? && copyBuffer == start + Tabbed(fields)
    ensures ok <==> CellsOf(b, Stored(columns), doc).Some?
    ensures ok ==> out == CellsText(b, start, fields, columns, doc)
  {
    out := copyBuffer;
    assert fields + [] == fields;
    var i := 0;
    while i < |columns|
      invariant i <= |columns|
      invariant CellsOf(b, Stored(columns[..i]), doc).Some?
      invariant out == CellsText(b, start, fields, columns[..i], doc)
    {
      if columns[i].name != "id" {
        ok, out := WriteCell(b, columns[i], doc, out);
        if !ok {
          MissingCell(b, columns, i, doc);
          return;
        }
      }
      CellsTextStep(b, start, fields, columns, i, doc);
      i := i + 1;
    }
    assert columns[..i] == columns;
    ok := true;
  }

  /** Appends a record's row to the copy buffer; fails when the record has no identifier or a value that the
      column's accessor does not accept. */
  method WriteTuple(b: Build, columns: seq<Column>, doc: Json, copyBuffer: string) returns (ok: bool, out: string)
    ensures ok <==> RowOf(b, columns, doc).Some?
    ensures ok ==> out == copyBuffer + CopyText.EncodedRow(RowOf(b, columns, doc).value)
  {
    ok, out := false, copyBuffer;
    if !doc.Obj? || IdOf(doc).None? {
      return;
    }
    var id := IdOf(doc).value;
    var idenc := CopyText.EncodeCopy(id);
    CStrOfClean(id);
    out := out + (idenc + "\t");
    TabbedSnoc([], CopyText.Value(id));
    assert [] + [CopyText.Value(id)] == [CopyText.Value(id)] && Tabbed([]) + (idenc + "\t") == idenc + "\t";
    ok, out := WriteCells(b, columns, doc, out, copyBuffer, [CopyText.Value(id)]);
    if !ok {
      return;
    }
    ghost var cells := CellsOf(b, Stored(columns), doc).value;
    var data := WriteData(doc);
    RowLine(CopyText.Value(id), cells, DataOf(doc));
    Assoc(copyBuffer, Tabbed([CopyText.Value(id)] + cells), data + "\n");
    out := out + (data + "\n");
  }
}
