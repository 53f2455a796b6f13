/** What the cells of pass 2 say about the values that pass 1 counted: when a column can be written, when it says what
    the records say, and when its texts fit. */
module Cells {
  import opened Wrappers
  import opened Decimal
  import opened CStrings
  import opened JsonTree
  import opened JsonPointer
  import opened TypeStats
  import opened Records
  import opened Rows
  import opened Inference
  import opened Staging
  import opened Loading
  import CopyText
  import JsonText

  // ---- When a column can be written ------------------------------------------------------------

  /** The accessor for a column type reads the value. */
  predicate Accepts(b: Build, t: ColumnType, v: Json) {
    b.Release? || v.Null? ||
    match t
    case BigInt => v.Int? && Small(v.i)
    case Boolean => v.Bool?
    case Numeric => v.Number()
    case _ => true
  }

  lemma CellIffAccepted(b: Build, column: Column, doc: Json)
    requires doc.Obj?
    ensures CellOf(b, column, doc).Some? <==>
      (Lookup(doc, column.source).Some? ==> Accepts(b, column.ctype, Lookup(doc, column.source).value))
  {
  }

  lemma {:induction false} AcceptedCells(b: Build, columns: seq<Column>, doc: Json)
    requires doc.Obj? && forall i :: 0 <= i < |columns| ==> CellOf(b, columns[i], doc).Some?
    ensures CellsOf(b, columns, doc).Some?
    decreases |columns|
  {
    if columns != [] {
      AcceptedCells(b, columns[..|columns| - 1], doc);
    }
  }

  lemma CellsIffAll(b: Build, columns: seq<Column>, doc: Json)
    requires doc.Obj?
    ensures CellsOf(b, columns, doc).Some? <==> forall i :: 0 <= i < |columns| ==> CellOf(b, columns[i], doc).Some?
  {
    if i :| 0 <= i < |columns| && CellOf(b, columns[i], doc).None? {
      CellsNeedAll(b, columns, doc, i);
    } else {
      AcceptedCells(b, columns, doc);
    }
  }

  /** The integers of a bigint column fit the accessor's 32 bits. */
  ghost predicate SmallIntegers(r: Rules, recs: seq<Json>, column: Column)
    requires LoadableRecords(r, recs)
  {
    column.ctype.BigInt? ==>
      forall n, i :: 0 <= n < |recs| && Found(r, recs, n, column.source) == Some(Int(i)) ==> Small(i)
  }

  /** Every record has a cell for the column. */
  ghost predicate ColumnLoads(b: Build, r: Rules, recs: seq<Json>, column: Column)
    requires LoadableRecords(r, recs)
  {
    forall n :: 0 <= n < |recs| ==> CellOf(b, column, Cleansed(r, recs[n], "")).Some?
  }

  lemma ColumnLoadsIffAccepted(b: Build, r: Rules, recs: seq<Json>, column: Column)
    requires LoadableRecords(r, recs)
    ensures ColumnLoads(b, r, recs, column) <==>
      forall n :: 0 <= n < |recs| && Found(r, recs, n, column.source).Some? ==>
        Accepts(b, column.ctype, Found(r, recs, n, column.source).value)
  {
    forall n | 0 <= n < |recs|
      ensures CellOf(b, column, Cleansed(r, recs[n], "")).Some? <==>
        (Found(r, recs, n, column.source).Some? ==> Accepts(b, column.ctype, Found(r, recs, n, column.source).value))
    {
      CellIffAccepted(b, column, Cleansed(r, recs[n], ""));
    }
  }

  predicate IsTyped(t: ColumnType) {
    t in {BigInt, Boolean, Numeric}
  }

  /** A mixed field has no textual column. */
  lemma MixedIsTyped(r: Rules, recs: seq<Json>, st: SourceType, columns: seq<Column>, i: nat)
    requires LoadableRecords(r, recs) && IsColumns(columns, Tally(map[], AllObserved(r, recs)), st) && i < |columns|
    requires PlainField(r, recs, columns[i].source) && MixesNumbersAndBooleans(r, recs, columns[i].source)
    ensures IsTyped(columns[i].ctype)
  {
    var obs, field := AllObserved(r, recs), columns[i].source;
    TallyAt(map[], obs, field);
    MixIsCounted(r, recs, field);
    CountersTellKinds(NoCounts, ValuesOf(obs, field));
  }

  /** For a typed column, values of the right kind and small integers are just those the accessor reads. */
  lemma TypedIffAccepted(t: ColumnType, v: Json)
    requires IsTyped(t)
    ensures Accepts(Debug, t, v) <==> Suits(t, v) && (t.BigInt? && v.Int? ==> Small(v.i))
  {
  }

  /** With the assertions, pass 2 can write a column chosen by pass 1 for every record if and only if its field does
      not mix numbers and booleans and, where the column is bigint, stays within 32 bits; without them it always can. */
  lemma ColumnLoadsIff(b: Build, r: Rules, recs: seq<Json>, st: SourceType, columns: seq<Column>, i: nat)
    requires LoadableRecords(r, recs) && IsColumns(columns, Tally(map[], AllObserved(r, recs)), st) && i < |columns|
    requires PlainField(r, recs, columns[i].source)
    ensures ColumnLoads(b, r, recs, columns[i]) <==>
      b.Release? || (!MixesNumbersAndBooleans(r, recs, columns[i].source) && SmallIntegers(r, recs, columns[i]))
  {
    var column := columns[i];
    if b.Debug? && IsTyped(column.ctype) {
      TypedColumnLoads(r, recs, column);
      AllSuitIff(r, recs, st, columns, i);
    } else {
      ColumnLoadsIffAccepted(b, r, recs, column);
      if MixesNumbersAndBooleans(r, recs, column.source) {
        MixedIsTyped(r, recs, st, columns, i);
      }
    }
  }

  ghost predicate AllSuit(r: Rules, recs: seq<Json>, column: Column)
    requires LoadableRecords(r, recs)
  {
    forall n :: 0 <= n < |recs| && Found(r, recs, n, column.source).Some? ==>
      Suits(column.ctype, Found(r, recs, n, column.source).value)
  }

  lemma AllSuitIff(r: Rules, recs: seq<Json>, st: SourceType, columns: seq<Column>, i: nat)
    requires LoadableRecords(r, recs) && IsColumns(columns, Tally(map[], AllObserved(r, recs)), st) && i < |columns|
    requires PlainField(r, recs, columns[i].source) && IsTyped(columns[i].ctype)
    ensures AllSuit(r, recs, columns[i]) == !MixesNumbersAndBooleans(r, recs, columns[i].source)
  {
    ColumnsSuitRecords(r, recs, st, columns, i);
    assert columns[i].ctype !in {Id, TimestampTz};
  }

  lemma TypedColumnLoads(r: Rules, recs: seq<Json>, column: Column)
    requires LoadableRecords(r, recs) && IsTyped(column.ctype)
    ensures ColumnLoads(Debug, r, recs, column) <==> AllSuit(r, recs, column) && SmallIntegers(r, recs, column)
  {
    ColumnLoadsIffAccepted(Debug, r, recs, column);
    forall n | 0 <= n < |recs| && Found(r, recs, n, column.source).Some?
      ensures
        var v := Found(r, recs, n, column.source).value;
        Accepts(Debug, column.ctype, v) <==> Suits(column.ctype, v) && (column.ctype.BigInt? && v.Int? ==> Small(v.i))
    {
      TypedIffAccepted(column.ctype, Found(r, recs, n, column.source).value);
    }
  }

  ghost predicate PlainColumns(r: Rules, recs: seq<Json>, columns: seq<Column>)
    requires LoadableRecords(r, recs)
  {
    forall i :: 0 <= i < |columns| && columns[i].name != "id" ==> PlainField(r, recs, columns[i].source)
  }

  ghost predicate HaveIds(r: Rules, recs: seq<Json>)
    requires LoadableRecords(r, recs)
  {
    forall n :: 0 <= n < |recs| ==> IdOf(Cleansed(r, recs[n], "")).Some?
  }

  lemma RowIffCells(b: Build, columns: seq<Column>, doc: Json)
    requires doc.Obj?
    ensures RowOf(b, columns, doc).Some? <==>
      IdOf(doc).Some? && forall i :: 0 <= i < |columns| && columns[i].name != "id" ==> CellOf(b, columns[i], doc).Some?
  {
    CellsIffAll(b, Stored(columns), doc);
    StoredExactly(columns);
  }

  lemma AllLoadIffColumns(b: Build, r: Rules, recs: seq<Json>, columns: seq<Column>)
    requires LoadableRecords(r, recs)
    ensures AllLoad(Job(b, Load, r, columns), recs) <==>
      HaveIds(r, recs) && forall i :: 0 <= i < |columns| && columns[i].name != "id" ==> ColumnLoads(b, r, recs, columns[i])
  {
    forall n | 0 <= n < |recs|
      ensures RowOf(b, columns, Cleansed(r, recs[n], "")).Some? <==>
        IdOf(Cleansed(r, recs[n], "")).Some? &&
        forall i :: 0 <= i < |columns| && columns[i].name != "id" ==> CellOf(b, columns[i], Cleansed(r, recs[n], "")).Some?
    {
      RowIffCells(b, columns, Cleansed(r, recs[n], ""));
    }
  }

  /** With the columns of pass 1, pass 2 loads all records if and only if every record has an id and, in a build with
      assertions, every stored column's field stays unmixed and, where the column is bigint, within 32 bits. */
  lemma InferredColumnsLoadIff(b: Build, r: Rules, recs: seq<Json>, st: SourceType, columns: seq<Column>)
    requires LoadableRecords(r, recs) && IsColumns(columns, Tally(map[], AllObserved(r, recs)), st)
    requires PlainColumns(r, recs, columns)
    ensures AllLoad(Job(b, Load, r, columns), recs) <==>
      && HaveIds(r, recs)
      && (b.Release? ||
          forall i :: 0 <= i < |columns| && columns[i].name != "id" ==>
            !MixesNumbersAndBooleans(r, recs, columns[i].source) && SmallIntegers(r, recs, columns[i]))
  {
    AllLoadIffColumns(b, r, recs, columns);
    forall i | 0 <= i < |columns| && columns[i].name != "id"
      ensures ColumnLoads(b, r, recs, columns[i]) <==>
        b.Release? || (!MixesNumbersAndBooleans(r, recs, columns[i].source) && SmallIntegers(r, recs, columns[i]))
    {
      ColumnLoadsIff(b, r, recs, st, columns, i);
    }
  }

  // ---- When a cell says what the value says ----------------------------------------------------

  /** The text is a numeral of so many millionths, as a reader of numbers has it. */
  predicate Numeral(text: string, millionths: int) {
    match JsonText.ParseNumber(text)
    case Fail => false
    case Done(v, rest) =>
      rest == "" && (v == Dec(millionths) || (v.Int? && v.i * 1_000_000 == millionths))
  }

  predicate IsTextual(t: ColumnType) {
    t.Id? || t.TimestampTz? || t.Varchar?
  }

  /** The column has a form for values of this kind. */
  predicate Holds(t: ColumnType, v: Json) {
    match v
    case Bool(_) => t.Boolean? || IsTextual(t)
    case Int(_) => !t.Boolean?
    case Dec(_) => t.Numeric? || IsTextual(t)
    case Str(_) => IsTextual(t)
    case _ => false
  }

  /** The text says what the value says: 1 or 0, or true or false, for a boolean; a numeral of the same number; the
      characters of a string up to a NUL. */
  predicate StandsFor(t: ColumnType, v: Json, text: string) {
    Holds(t, v) &&
    match v
    case Bool(x) => text == (if t.Boolean? then (if x then "1" else "0") else if x then "true" else "false")
    case Int(i) => if t.BigInt? then JsonText.ParseNumber(text) == JsonText.Done(v, "") else Numeral(text, i * 1_000_000)
    case Dec(m) => Numeral(text, m)
    case Str(x) => text <= x && NUL !in text && (text == x || x[|text|] == NUL)
    case _ => false
  }

  predicate FieldSays(t: ColumnType, v: Option<Json>, field: CopyText.Field) {
    if v.None? || v.value.Null? then field == CopyText.Null
    else field.Value? && StandsFor(t, v.value, field.text)
  }

  /** The cell says what the value says, and is empty where the record has no value. */
  predicate Says(b: Build, column: Column, doc: Json)
    requires doc.Obj?
  {
    CellOf(b, column, doc).Some? && FieldSays(column.ctype, Lookup(doc, column.source), CellOf(b, column, doc).value)
  }

  /** What a column can hold: 32 bits, ten digits before the point, or 67108862 characters with their escapes. */
  predicate WithinLimit(t: ColumnType, v: Json) {
    match v
    case Int(i) =>
      if t.BigInt? then -2_147_483_648 <= i <= 2_147_483_647
      else if t.Numeric? then i <= 10_000_000_000
      else |JsonText.DecText(JsonText.Handler, i * 1_000_000)| <= 67_108_862
    case Dec(m) =>
      if t.Numeric? then m <= 10_000_000_000_000_000 else |JsonText.DecText(JsonText.Handler, m)| <= 67_108_862
    case Str(x) => |CopyText.Escaped(CStr(x))| <= 67_108_862
    case _ => true
  }

  lemma CutIffWide(i: int)
    ensures Small(Low32(i)) && (Low32(i) == i <==> Small(i))
  {
  }

  lemma NumberStands(v: Json)
    requires v.Number()
    ensures Numeral(NumberText(v), Millionths(v)) && CStr(NumberText(v)) == NumberText(v)
  {
    var m := Millionths(v);
    JsonText.NumberReads(JsonText.Handler, 0, Dec(m), "");
    JsonText.NumberHasNoNul(JsonText.Handler, 0, Dec(m));
    assert NumberText(v) == JsonText.Text(JsonText.Handler, 0, Dec(m));
    assert NumberText(v) + "" == NumberText(v);
    CStrOfClean(NumberText(v));
  }

  /** GetInt gives a numeral of the integer exactly if it is small. */
  lemma ReadsOwnInteger(b: Build, i: int)
    ensures (Typed(b, BigInt, Int(i)).Some? && StandsFor(BigInt, Int(i), Typed(b, BigInt, Int(i)).value)) <==> Small(i)
  {
    CutIffWide(i);
    IntegerReads(i);
    IntegerReads(Low32(i));
  }

  lemma IntegerReads(i: int)
    ensures JsonText.ParseNumber(IntText(i)) == JsonText.Done(Int(i), "")
  {
    JsonText.NumberReads(JsonText.Handler, 0, Int(i), "");
    assert IntText(i) + "" == IntText(i);
  }

  lemma ZeroReads()
    ensures JsonText.ParseNumber("0") == JsonText.Done(Int(0), "")
  {
    IntegerReads(0);
  }

  lemma ReadsOwnNumber(b: Build, v: Json)
    requires v.Number()
    ensures Typed(b, Numeric, v).Some?
    ensures StandsFor(Numeric, v, Typed(b, Numeric, v).value) <==> WithinLimit(Numeric, v)
  {
    NumberStands(v);
    ZeroReads();
  }

  lemma BoundedValue(text: string)
    requires CStr(text) == text && CopyText.Escaped(text) == text
    ensures Bounded(text) == if |text| <= 67_108_862 then CopyText.Value(text) else CopyText.Null
  {
  }

  lemma NumberAsText(t: ColumnType, v: Json)
    requires IsTextual(t) && v.Number()
    ensures FieldSays(t, Some(v), Bounded(NumberText(v))) <==> WithinLimit(t, v)
  {
    NumberStands(v);
    NumberTextUnescaped(Millionths(v));
    BoundedValue(NumberText(v));
  }

  lemma BooleanAsText(t: ColumnType, x: bool)
    requires IsTextual(t)
    ensures FieldSays(t, Some(Bool(x)), Bounded(ValueText(Bool(x))))
  {
    var text := ValueText(Bool(x));
    CStrOfClean(text);
    CopyText.PlainUnchanged(text);
    BoundedValue(text);
  }

  lemma StringAsText(t: ColumnType, x: string)
    requires IsTextual(t)
    ensures FieldSays(t, Some(Str(x)), Bounded(ValueText(Str(x)))) <==> WithinLimit(t, Str(x))
  {
    var field := Bounded(ValueText(Str(x)));
    assert field == if |CopyText.Escaped(CStr(x))| <= 67_108_862 then CopyText.Value(CStr(x)) else CopyText.Null;
  }

  lemma ReadsOwnText(t: ColumnType, v: Json)
    requires IsTextual(t) && v.Scalar() && !v.Null?
    ensures FieldSays(t, Some(v), Bounded(ValueText(v))) <==> WithinLimit(t, v)
  {
    match v
    case Bool(x) => BooleanAsText(t, x);
    case Str(x) => StringAsText(t, x);
    case _ => NumberAsText(t, v);
  }

  /** A cell says what its value says exactly if the value is of a kind that the column holds and within its limit. */
  lemma SaysIff(b: Build, column: Column, doc: Json)
    requires doc.Obj?
    ensures Says(b, column, doc) <==>
      var v := Lookup(doc, column.source);
      v.Some? && !v.value.Null? ==> Holds(column.ctype, v.value) && WithinLimit(column.ctype, v.value)
  {
    var found := Lookup(doc, column.source);
    if found.Some? && !found.value.Null? && Holds(column.ctype, found.value) {
      var v := found.value;
      if IsTextual(column.ctype) {
        ReadsOwnText(column.ctype, v);
      } else if column.ctype.BigInt? && v.Int? {
        ReadsOwnInteger(b, v.i);
      } else if column.ctype.Numeric? {
        ReadsOwnNumber(b, v);
      }
    }
  }

  /** Every record's cell of the column is the value's own. */
  ghost predicate ColumnSays(b: Build, r: Rules, recs: seq<Json>, column: Column)
    requires LoadableRecords(r, recs)
  {
    forall n :: 0 <= n < |recs| ==> Says(b, column, Cleansed(r, recs[n], ""))
  }

  /** Every value found stays within the column's limit. */
  ghost predicate ColumnWithinLimit(r: Rules, recs: seq<Json>, column: Column)
    requires LoadableRecords(r, recs)
  {
    forall n :: 0 <= n < |recs| && Found(r, recs, n, column.source).Some? && !Found(r, recs, n, column.source).value.Null? ==>
      WithinLimit(column.ctype, Found(r, recs, n, column.source).value)
  }

  ghost predicate ColumnOwns(r: Rules, recs: seq<Json>, column: Column)
    requires LoadableRecords(r, recs)
  {
    forall n :: 0 <= n < |recs| && Found(r, recs, n, column.source).Some? && !Found(r, recs, n, column.source).value.Null? ==>
      Holds(column.ctype, Found(r, recs, n, column.source).value)
  }

  lemma ColumnSaysParts(b: Build, r: Rules, recs: seq<Json>, column: Column)
    requires LoadableRecords(r, recs)
    ensures ColumnSays(b, r, recs, column) <==> ColumnOwns(r, recs, column) && ColumnWithinLimit(r, recs, column)
  {
    forall n | 0 <= n < |recs|
      ensures Says(b, column, Cleansed(r, recs[n], "")) <==>
        (Found(r, recs, n, column.source).Some? && !Found(r, recs, n, column.source).value.Null? ==>
          Holds(column.ctype, Found(r, recs, n, column.source).value) &&
          WithinLimit(column.ctype, Found(r, recs, n, column.source).value))
    {
      SaysIff(b, column, Cleansed(r, recs[n], ""));
    }
  }

  /** A column chosen by pass 1 has a text for every value of a plain field exactly if the field is unmixed. */
  lemma OwnsIffUnmixed(r: Rules, recs: seq<Json>, st: SourceType, columns: seq<Column>, i: nat)
    requires LoadableRecords(r, recs) && IsColumns(columns, Tally(map[], AllObserved(r, recs)), st) && i < |columns|
    requires PlainField(r, recs, columns[i].source)
    ensures ColumnOwns(r, recs, columns[i]) == !MixesNumbersAndBooleans(r, recs, columns[i].source)
  {
    if IsTyped(columns[i].ctype) {
      AllSuitIff(r, recs, st, columns, i);
      TypedOwns(r, recs, columns[i]);
    } else if MixesNumbersAndBooleans(r, recs, columns[i].source) {
      MixedIsTyped(r, recs, st, columns, i);
    }
  }

  lemma TypedOwns(r: Rules, recs: seq<Json>, column: Column)
    requires LoadableRecords(r, recs) && IsTyped(column.ctype)
    ensures ColumnOwns(r, recs, column) == AllSuit(r, recs, column)
  {
    forall v: Json | !v.Null?
      ensures Holds(column.ctype, v) <==> Suits(column.ctype, v)
    {
    }
  }

  /** In any build, every cell of a column chosen by pass 1 is the value's own text, and empty where there is none, if
      and only if the plain field does not mix numbers and booleans and stays within the column's limit. */
  lemma ColumnSaysIff(b: Build, r: Rules, recs: seq<Json>, st: SourceType, columns: seq<Column>, i: nat)
    requires LoadableRecords(r, recs) && IsColumns(columns, Tally(map[], AllObserved(r, recs)), st) && i < |columns|
    requires PlainField(r, recs, columns[i].source)
    ensures ColumnSays(b, r, recs, columns[i]) <==>
      !MixesNumbersAndBooleans(r, recs, columns[i].source) && ColumnWithinLimit(r, recs, columns[i])
  {
    ColumnSaysParts(b, r, recs, columns[i]);
    OwnsIffUnmixed(r, recs, st, columns, i);
  }

  /** Every cell of every row the server stores is what its record says. */
  ghost predicate RowsSay(r: Rules, recs: seq<Json>, columns: seq<Column>, rows: Batch)
    requires LoadableRecords(r, recs) && |rows| == |recs|
    requires forall n :: 0 <= n < |rows| ==> |rows[n]| == |Stored(columns)| + 2
  {
    forall n, k :: 0 <= n < |recs| && 0 <= k < |Stored(columns)| ==> RowSays(r, recs[n], Stored(columns)[k], rows[n], k)
  }

  /** The fields of all stored columns are unmixed and within their columns' limits. */
  ghost predicate FieldsFit(r: Rules, recs: seq<Json>, columns: seq<Column>)
    requires LoadableRecords(r, recs)
  {
    forall k :: 0 <= k < |Stored(columns)| ==>
      !MixesNumbersAndBooleans(r, recs, Stored(columns)[k].source) && ColumnWithinLimit(r, recs, Stored(columns)[k])
  }

  lemma RowsHaveCells(b: Build, r: Rules, recs: seq<Json>, columns: seq<Column>)
    requires LoadableRecords(r, recs) && AllLoad(Job(b, Load, r, columns), recs)
    ensures forall n :: 0 <= n < |recs| ==> |RowsOf(Job(b, Load, r, columns), recs)[n]| == |Stored(columns)| + 2
  {
    forall n | 0 <= n < |recs|
      ensures |RowsOf(Job(b, Load, r, columns), recs)[n]| == |Stored(columns)| + 2
    {
      assert RowFor(Job(b, Load, r, columns), recs[n]) == Some(RowsOf(Job(b, Load, r, columns), recs)[n]);
      RowMatchesTable(b, columns, Cleansed(r, recs[n], ""), 0);
    }
  }

  lemma StoredColumnSaysIff(b: Build, r: Rules, recs: seq<Json>, st: SourceType, columns: seq<Column>, k: nat)
    requires LoadableRecords(r, recs) && IsColumns(columns, Tally(map[], AllObserved(r, recs)), st)
    requires PlainColumns(r, recs, columns) && k < |Stored(columns)|
    ensures ColumnSays(b, r, recs, Stored(columns)[k]) <==>
      !MixesNumbersAndBooleans(r, recs, Stored(columns)[k].source) && ColumnWithinLimit(r, recs, Stored(columns)[k])
  {
    StoredExactly(columns);
    var i :| 0 <= i < |columns| && columns[i] == Stored(columns)[k];
    ColumnSaysIff(b, r, recs, st, columns, i);
  }

  lemma ColumnSaysInRows(b: Build, r: Rules, recs: seq<Json>, columns: seq<Column>, k: nat)
    requires LoadableRecords(r, recs) && AllLoad(Job(b, Load, r, columns), recs) && k < |Stored(columns)|
    requires forall n :: 0 <= n < |recs| ==> |RowsOf(Job(b, Load, r, columns), recs)[n]| == |Stored(columns)| + 2
    ensures ColumnSays(b, r, recs, Stored(columns)[k]) <==>
      forall n :: 0 <= n < |recs| ==>
        RowSays(r, recs[n], Stored(columns)[k], RowsOf(Job(b, Load, r, columns), recs)[n], k)
  {
    forall n | 0 <= n < |recs|
      ensures RowSays(r, recs[n], Stored(columns)[k], RowsOf(Job(b, Load, r, columns), recs)[n], k) <==>
        Says(b, Stored(columns)[k], Cleansed(r, recs[n], ""))
    {
      RowSaysCell(b, r, recs, columns, n, k);
    }
  }

  /** The same for the rows the server stores: in any build, all their cells are the records' own values, in their
      columns, if and only if all stored fields are unmixed and within their columns' limits. */
  lemma StoredRowsSayIff(b: Build, r: Rules, recs: seq<Json>, st: SourceType, columns: seq<Column>)
    requires LoadableRecords(r, recs) && IsColumns(columns, Tally(map[], AllObserved(r, recs)), st)
    requires PlainColumns(r, recs, columns) && AllLoad(Job(b, Load, r, columns), recs)
    ensures
      var rows := RowsOf(Job(b, Load, r, columns), recs);
      (forall n :: 0 <= n < |recs| ==> |rows[n]| == |Stored(columns)| + 2) &&
      (RowsSay(r, recs, columns, rows) <==> FieldsFit(r, recs, columns))
  {
    RowsHaveCells(b, r, recs, columns);
    forall k | 0 <= k < |Stored(columns)|
      ensures
        (!MixesNumbersAndBooleans(r, recs, Stored(columns)[k].source) && ColumnWithinLimit(r, recs, Stored(columns)[k])) <==>
        forall n :: 0 <= n < |recs| ==>
          RowSays(r, recs[n], Stored(columns)[k], RowsOf(Job(b, Load, r, columns), recs)[n], k)
    {
      StoredColumnSaysIff(b, r, recs, st, columns, k);
      ColumnSaysInRows(b, r, recs, columns, k);
    }
  }

  /** The field at the place of a column is the record's own value. */
  predicate RowSays(r: Rules, rec: Json, column: Column, row: CopyText.Row, k: nat)
    requires Cleansed(r, rec, "").Obj? && k + 1 < |row|
  {
    FieldSays(column.ctype, Lookup(Cleansed(r, rec, ""), column.source), row[k + 1])
  }

  lemma RowSaysCell(b: Build, r: Rules, recs: seq<Json>, columns: seq<Column>, n: nat, k: nat)
    requires LoadableRecords(r, recs) && AllLoad(Job(b, Load, r, columns), recs) && n < |recs| && k < |Stored(columns)|
    ensures k + 1 < |RowsOf(Job(b, Load, r, columns), recs)[n]|
    ensures RowSays(r, recs[n], Stored(columns)[k], RowsOf(Job(b, Load, r, columns), recs)[n], k) <==>
      Says(b, Stored(columns)[k], Cleansed(r, recs[n], ""))
  {
    assert RowFor(Job(b, Load, r, columns), recs[n]) == Some(RowsOf(Job(b, Load, r, columns), recs)[n]);
    RowMatchesTable(b, columns, Cleansed(r, recs[n], ""), k);
  }

  // ---- When the texts of a varchar column fit --------------------------------------------------

  /** The width of a varchar column. */
  function Width(column: Column): nat {
    if column.length < 16 then 16 else column.length
  }

  /** The cell's text, if it has one, fits a width. */
  predicate CellFits(cell: Option<CopyText.Field>, width: nat) {
    cell.Some? && cell.value.Value? ==> |cell.value.text| <= width
  }

  /** The record's cell fits the column. */
  ghost predicate FitsAt(b: Build, r: Rules, recs: seq<Json>, column: Column, n: nat)
    requires LoadableRecords(r, recs) && n < |recs|
  {
    CellFits(CellOf(b, column, Cleansed(r, recs[n], "")), Width(column))
  }

  /** The texts of a varchar column chosen by pass 1 fit its width if and only if those of the numbers among them do:
      the width was taken from the strings. */
  lemma VarcharFitsIff(b: Build, r: Rules, recs: seq<Json>, st: SourceType, columns: seq<Column>, i: nat)
    requires LoadableRecords(r, recs) && IsColumns(columns, Tally(map[], AllObserved(r, recs)), st) && i < |columns|
    requires PlainField(r, recs, columns[i].source) && columns[i].ctype.Varchar?
    ensures (forall n :: 0 <= n < |recs| ==> FitsAt(b, r, recs, columns[i], n)) <==>
      (forall n :: 0 <= n < |recs| && FindsNumber(r, recs, n, columns[i].source) ==> FitsAt(b, r, recs, columns[i], n))
  {
    ColumnsSuitRecords(r, recs, st, columns, i);
    forall n | 0 <= n < |recs| && !FindsNumber(r, recs, n, columns[i].source)
      ensures FitsAt(b, r, recs, columns[i], n)
    {
      FitsUnlessNumber(b, r, recs, columns[i], n);
    }
  }

  lemma FitsUnlessNumber(b: Build, r: Rules, recs: seq<Json>, column: Column, n: nat)
    requires LoadableRecords(r, recs) && n < |recs| && column.ctype.Varchar? && !FindsNumber(r, recs, n, column.source)
    requires forall s :: Found(r, recs, n, column.source) == Some(Str(s)) ==> |s| <= column.length
    ensures FitsAt(b, r, recs, column, n)
  {
    var v := Found(r, recs, n, column.source);
    if v.Some? && v.value.Str? {
      assert v == Some(Str(v.value.s));
    }
    OtherTextFits(b, column, Cleansed(r, recs[n], ""));
  }

  lemma OtherTextFits(b: Build, column: Column, doc: Json)
    requires doc.Obj? && column.ctype.Varchar?
    requires
      var v := Lookup(doc, column.source);
      v.Some? ==> !v.value.Number() && (v.value.Str? ==> |v.value.s| <= column.length)
    ensures CellFits(CellOf(b, column, doc), Width(column))
  {
  }

  ghost predicate FindsNumber(r: Rules, recs: seq<Json>, n: nat, field: string)
    requires LoadableRecords(r, recs) && n < |recs|
  {
    Found(r, recs, n, field).Some? && Found(r, recs, n, field).value.Number()
  }

  // ---- Inputs ----------------------------------------------------------------------------------

  function OneField(v: Json): Json {
    Obj([Member("f", v)])
  }

  /** Records with one member each, under the same name. */
  function OneFields(vals: seq<Json>): (recs: seq<Json>)
    ensures |recs| == |vals| && forall k :: 0 <= k < |vals| ==> recs[k] == OneField(vals[k])
    decreases |vals|
  {
    if vals == [] then [] else [OneField(vals[0])] + OneFields(vals[1..])
  }

  /** Nothing is listed. */
  predicate NothingListed(r: Rules) {
    !r.Cuts("") && !r.Drops("/f")
  }

  lemma OneFieldObserved(r: Rules, v: Json)
    requires NothingListed(r) && v.Scalar()
    ensures Observed(r, OneField(v), "", 0, true) == [Observation("f", v)]
  {
    var rec := OneField(v);
    assert Sorted(rec.members) == rec.members;
    assert Ordered(rec) == rec && ChildCount(rec) == 1;
    assert "" + "/" + "f" == "/f" && "/f"[1..] == "f";
    assert ObservedBelow(r, rec, "", 0, 0) == [];
    assert ObservedBelow(r, rec, "", 0, 1) == [] + Observed(r, v, "/f", 1, true);
  }

  lemma OneFieldFound(r: Rules, v: Json)
    requires NothingListed(r) && v.Scalar() && Clean(v)
    ensures Clean(OneField(v)) && Lookup(Cleansed(r, OneField(v), ""), "f") == Some(v)
  {
    var rec := OneField(v);
    assert CleanName("f");
    assert Sorted(rec.members) == rec.members;
    LookupMember(r, rec, 0);
    assert "" + "/" + "f" == "/f";
  }

  predicate Scalars(vals: seq<Json>) {
    forall k :: 0 <= k < |vals| ==> vals[k].Scalar() && Clean(vals[k])
  }

  lemma {:induction false} OneFieldsObserved(r: Rules, vals: seq<Json>)
    requires NothingListed(r) && Scalars(vals)
    ensures ValuesOf(AllObserved(r, OneFields(vals)), "f") == vals
    decreases |vals|
  {
    if vals != [] {
      OneFieldsObserved(r, vals[1..]);
      OneFieldObserved(r, vals[0]);
      var obs := AllObserved(r, OneFields(vals[1..]));
      assert OneFields(vals)[1..] == OneFields(vals[1..]);
      assert AllObserved(r, OneFields(vals)) == [Observation("f", vals[0])] + obs;
      assert ([Observation("f", vals[0])] + obs)[1..] == obs;
      assert vals == [vals[0]] + vals[1..];
    }
  }

  /** The column that pass 1 chooses for such records. */
  lemma OneFieldColumn(r: Rules, vals: seq<Json>, st: SourceType, columns: seq<Column>) returns (i: nat)
    requires NothingListed(r) && Keeps(st, "f") && Scalars(vals) && vals != []
    requires IsColumns(columns, Tally(map[], AllObserved(r, OneFields(vals))), st)
    ensures i < |columns| && columns[i] == ColumnFor("f", CountAll(NoCounts, vals))
  {
    OneFieldsObserved(r, vals);
    TallyAt(map[], AllObserved(r, OneFields(vals)), "f");
    i :| 0 <= i < |columns| && columns[i].source == "f";
  }

  lemma CountTwo(v: Json, w: Json)
    ensures CountAll(NoCounts, [v, w]) == Counted(Counted(NoCounts, v), w)
    ensures CountAll(NoCounts, [v]) == Counted(NoCounts, v)
  {
    var c := Counted(NoCounts, v);
    assert [v, w][1..] == [w] && [w][1..] == [] && [v][1..] == [];
    assert CountAll(c, [w]) == CountAll(Counted(c, w), []);
  }

  /** What pass 2 writes for such a record. */
  lemma OneFieldCell(b: Build, r: Rules, column: Column, v: Json)
    requires NothingListed(r) && v.Scalar() && Clean(v) && !v.Null? && column.source == "f"
    ensures
      var doc := Cleansed(r, OneField(v), "");
      doc.Obj? &&
      CellOf(b, column, doc) ==
        if IsTyped(column.ctype) then
          (match Typed(b, column.ctype, v) case Some(s) => Some(CopyText.Value(s)) case None => None)
        else Some(Bounded(ValueText(v)))
  {
    OneFieldFound(r, v);
  }

  lemma OneColumn(r: Rules, v: Json, st: SourceType, columns: seq<Column>) returns (i: nat)
    requires NothingListed(r) && Keeps(st, "f") && v.Scalar() && Clean(v)
    requires IsColumns(columns, Tally(map[], AllObserved(r, OneFields([v]))), st)
    ensures i < |columns| && columns[i] == ColumnFor("f", Counted(NoCounts, v))
  {
    CountTwo(v, v);
    i := OneFieldColumn(r, [v], st, columns);
  }

  lemma TwoColumn(r: Rules, v: Json, w: Json, st: SourceType, columns: seq<Column>) returns (i: nat)
    requires NothingListed(r) && Keeps(st, "f") && v.Scalar() && Clean(v) && w.Scalar() && Clean(w)
    requires IsColumns(columns, Tally(map[], AllObserved(r, OneFields([v, w]))), st)
    ensures i < |columns| && columns[i] == ColumnFor("f", Counted(Counted(NoCounts, v), w))
  {
    CountTwo(v, w);
    i := OneFieldColumn(r, [v, w], st, columns);
  }

  /** An integer beyond 32 bits: pass 1 chooses bigint; the default build stores its low 32 bits, which is another
      number, and a build with assertions ends. */
  lemma WideIntegerIsCut(r: Rules, w: int, st: SourceType, columns: seq<Column>, slot: Json -> int) returns (i: nat)
    requires NothingListed(r) && Keeps(st, "f") && !Small(w)
    requires IsColumns(columns, Tally(map[], AllObserved(r, OneFields([Int(w)]))), st)
    ensures i < |columns| && columns[i].source == "f" && columns[i].ctype.BigInt?
    ensures
      var doc := Cleansed(r, OneField(Int(w)), "");
      && doc.Obj? && CellOf(Release(slot), columns[i], doc) == Some(CopyText.Value(IntText(Low32(w))))
      && CellOf(Debug, columns[i], doc) == None
    ensures Low32(w) != w && JsonText.ParseNumber(IntText(Low32(w))) == JsonText.Done(Int(Low32(w)), "")
  {
    CutIffWide(w);
    IntegerReads(Low32(w));
    i := OneColumn(r, Int(w), st, columns);
    OneFieldCell(Release(slot), r, columns[i], Int(w));
    OneFieldCell(Debug, r, columns[i], Int(w));
  }

  /** 5000000000 is stored as 705032704. */
  lemma FiveBillion()
    ensures !Small(5_000_000_000) && Low32(5_000_000_000) == 705_032_704
  {
  }

  /** An integer in one record and a boolean in another: pass 1 chooses bigint; the default build stores what is in the
      number part of the boolean, and one with assertions ends. */
  lemma BooleanIsReadAsNumber(r: Rules, n: int, t: bool, st: SourceType, columns: seq<Column>, slot: Json -> int)
    returns (i: nat)
    requires NothingListed(r) && Keeps(st, "f")
    requires IsColumns(columns, Tally(map[], AllObserved(r, OneFields([Int(n), Bool(t)]))), st)
    ensures i < |columns| && columns[i].source == "f" && columns[i].ctype.BigInt?
    ensures
      var doc := Cleansed(r, OneField(Bool(t)), "");
      && doc.Obj? && CellOf(Release(slot), columns[i], doc) == Some(CopyText.Value(IntText(Low32(slot(Bool(t))))))
      && CellOf(Debug, columns[i], doc) == None
  {
    i := TwoColumn(r, Int(n), Bool(t), st, columns);
    OneFieldCell(Release(slot), r, columns[i], Bool(t));
    OneFieldCell(Debug, r, columns[i], Bool(t));
  }

  /** A number with a fraction, above 10000000000: pass 1 chooses numeric, and pass 2 stores 0 in any build. */
  lemma LargeNumberIsZeroed(b: Build, r: Rules, m: int, st: SourceType, columns: seq<Column>) returns (i: nat)
    requires NothingListed(r) && Keeps(st, "f") && m > TenToTheTenth * JsonText.Million
    requires IsColumns(columns, Tally(map[], AllObserved(r, OneFields([Dec(m)]))), st)
    ensures i < |columns| && columns[i].source == "f" && columns[i].ctype.Numeric?
    ensures
      var doc := Cleansed(r, OneField(Dec(m)), "");
      doc.Obj? && CellOf(b, columns[i], doc) == Some(CopyText.Value("0"))
  {
    i := OneColumn(r, Dec(m), st, columns);
    OneFieldCell(b, r, columns[i], Dec(m));
  }

  /** A uuid in one record and a number in another: pass 1 chooses uuid, and pass 2 writes the number's text. */
  lemma NumberInUuidColumn(b: Build, r: Rules, uuid: string, v: Json, st: SourceType, columns: seq<Column>)
    returns (i: nat)
    requires NothingListed(r) && Keeps(st, "f") && IsUuid(uuid) && v.Number()
    requires IsColumns(columns, Tally(map[], AllObserved(r, OneFields([Str(uuid), v]))), st)
    ensures i < |columns| && columns[i].source == "f" && columns[i].ctype.Id?
    ensures
      var doc := Cleansed(r, OneField(v), "");
      doc.Obj? && CellOf(b, columns[i], doc) == Some(Bounded(NumberText(v)))
  {
    UuidClean(uuid);
    UuidSelected(uuid, v);
    i := TwoColumn(r, Str(uuid), v, st, columns);
    OneFieldCell(b, r, columns[i], v);
  }

  lemma UuidSelected(uuid: string, v: Json)
    requires IsUuid(uuid) && v.Number()
    ensures SelectType(Counted(Counted(NoCounts, Str(uuid)), v)).Id?
  {
  }

  lemma UuidClean(uuid: string)
    requires IsUuid(uuid)
    ensures Clean(Str(uuid))
  {
    assert !IsHex(NUL) && NUL != '-';
  }

  lemma {:induction false} NatTextLength(n: nat, k: nat)
    requires n >= Pow10(k)
    ensures |NatText(n)| > k
  {
    if k > 0 {
      NatTextLength(n / 10, k - 1);
    }
  }

  /** A string in one record and a number in another: where pass 1 chooses varchar, its width is that of the string,
      and pass 2 writes the number's text, of whatever length. */
  lemma NumberOutgrowsVarchar(b: Build, r: Rules, s: string, v: Json, st: SourceType, columns: seq<Column>)
    returns (i: nat)
    requires NothingListed(r) && Keeps(st, "f") && Clean(Str(s)) && v.Number() && ShortText(s, v)
    requires IsColumns(columns, Tally(map[], AllObserved(r, OneFields([Str(s), v]))), st)
    ensures i < |columns| && columns[i].source == "f" && columns[i].ctype.Varchar? && Width(columns[i]) == 16
    ensures
      var doc := Cleansed(r, OneField(v), "");
      doc.Obj? && CellOf(b, columns[i], doc) == Some(Bounded(NumberText(v)))
  {
    i := TwoColumn(r, Str(s), v, st, columns);
    OneFieldCell(b, r, columns[i], v);
  }

  predicate ShortText(s: string, v: Json) {
    var c := Counted(Counted(NoCounts, Str(s)), v);
    SelectType(c).Varchar? && c.maxLength <= 16
  }

  /** For instance "abc" and 12345678901, whose text has more than 17 characters. */
  lemma LongNumber()
    ensures ShortText("abc", Int(12_345_678_901)) && |NumberText(Int(12_345_678_901))| > 17
  {
    assert |"abc"| == 3;
    assert Pow10(10) == 10_000_000_000 by {
      assert Pow10(5) == 100_000;
    }
    NatTextLength(12_345_678_901, 10);
    assert Millionths(Int(12_345_678_901)) / JsonText.Million == 12_345_678_901;
  }
}
