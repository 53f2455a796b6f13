/** A table update end to end (src/update.cpp, stage_merge): pages staged into rows, rows stored in the loading table,
    the table replaced and its history extended. */
module Updates {
  import opened Wrappers
  import opened Identifiers
  import opened JsonTree
  import opened TypeStats
  import opened Records
  import opened Rows
  import opened Inference
  import opened Staging
  import opened Loading
  import opened Cells
  import CopyText
  import JsonText
  import Normalization
  import History
  import Database
  import StageMerge

  // ---- The loading table as the server stores it -----------------------------------------------

  /** The cells of a row that are not null, under the names of their columns. */
  function StoredCells(names: seq<string>, row: CopyText.Row): Database.TableRow
    decreases |names|
  {
    if names == [] || row == [] then map[]
    else
      var rest := StoredCells(names[1..], row[1..]);
      if row[0].Value? then rest[names[0] := row[0].text] else rest
  }

  function StoredRows(names: seq<string>, rows: Batch): (stored: seq<Database.TableRow>)
    ensures |stored| == |rows| && forall i :: 0 <= i < |rows| ==> stored[i] == StoredCells(names, rows[i])
  {
    seq(|rows|, i requires 0 <= i < |rows| => StoredCells(names, rows[i]))
  }

  function LoadedTable(columns: seq<Column>, rows: Batch): Database.Table {
    var names := AllTruncated(LoadingColumns(columns));
    Database.Table(set n | n in names, {}, StoredRows(names, rows))
  }

  lemma {:induction false} StoredOnly(names: seq<string>, row: CopyText.Row, name: string)
    requires name in StoredCells(names, row)
    ensures name in names
    decreases |names|
  {
    if names != [] && row != [] && name in StoredCells(names[1..], row[1..]) {
      StoredOnly(names[1..], row[1..], name);
    }
  }

  lemma {:induction false} StoredAt(names: seq<string>, row: CopyText.Row, k: nat)
    requires |names| == |row| && k < |names| && NoDuplicates(names)
    ensures names[k] in StoredCells(names, row) <==> row[k].Value?
    ensures row[k].Value? ==> StoredCells(names, row)[names[k]] == row[k].text
    decreases |names|
  {
    if k > 0 {
      assert NoDuplicates(names[1..]);
      StoredAt(names[1..], row[1..], k - 1);
    } else if row[0].Null? && names[0] in StoredCells(names[1..], row[1..]) {
      StoredOnly(names[1..], row[1..], names[0]);
    }
  }

  lemma {:induction false} SnapshotAt(rows: seq<Database.TableRow>, i: nat)
    requires i < |rows|
    ensures |StageMerge.Snapshot(rows)| == |rows|
    ensures StageMerge.Snapshot(rows)[i] ==
      History.LoadingRow(if "id" in rows[i] then rows[i]["id"] else "",
                         if "data" in rows[i] then Some(rows[i]["data"]) else None)
  {
    if |rows| > 1 {
      var init := rows[..|rows| - 1];
      SnapshotAt(init, if i < |init| then i else 0);
    } else {
      assert rows[..0] == [] && StageMerge.Snapshot(rows[..0]) == [];
    }
  }

  // ---- What merge_table reads ------------------------------------------------------------------

  function TextOf(f: CopyText.Field): Option<string> {
    if f.Value? then Some(f.text) else None
  }

  /** The id and the text of a record, as the history sees them. */
  function RecordRow(rules: Rules, rec: Json): History.LoadingRow
    requires Cleansed(rules, rec, "").Obj? && IdOf(Cleansed(rules, rec, "")).Some?
  {
    var doc := Cleansed(rules, rec, "");
    History.LoadingRow(IdOf(doc).value, TextOf(DataOf(doc)))
  }

  ghost predicate Identified(rules: Rules, recs: seq<Json>) {
    forall i :: 0 <= i < |recs| ==>
      Cleansed(rules, recs[i], "").Obj? && IdOf(Cleansed(rules, recs[i], "")).Some?
  }

  ghost function RecordRows(rules: Rules, recs: seq<Json>): (rows: seq<History.LoadingRow>)
    requires Identified(rules, recs)
    ensures |rows| == |recs| && forall i :: 0 <= i < |recs| ==> rows[i] == RecordRow(rules, recs[i])
  {
    seq(|recs|, i requires 0 <= i < |recs| => RecordRow(rules, recs[i]))
  }

  lemma NamesOfTable(columns: seq<Column>)
    ensures
      var names := AllTruncated(LoadingColumns(columns));
      && |names| == |Stored(columns)| + 2
      && names[0] == "id" && names[|names| - 1] == "data"
  {
    ExpandedNamesAt(Stored(columns), 0);
  }

  /** A stored row has the record's id, and its text unless that is too long. */
  lemma StoredRecord(b: Build, columns: seq<Column>, doc: Json)
    requires Creatable(LoadingColumns(columns)) && RowOf(b, columns, doc).Some?
    ensures
      var cells := StoredCells(AllTruncated(LoadingColumns(columns)), RowOf(b, columns, doc).value);
      && doc.Obj? && IdOf(doc).Some?
      && "id" in cells && cells["id"] == IdOf(doc).value
      && ("data" in cells <==> DataOf(doc).Value?) && ("data" in cells ==> cells["data"] == DataOf(doc).text)
  {
    var names, row := AllTruncated(LoadingColumns(columns)), RowOf(b, columns, doc).value;
    NamesOfTable(columns);
    RowIdAndData(b, columns, doc);
    StoredAt(names, row, 0);
    StoredAt(names, row, |names| - 1);
  }

  /** What merge_table reads of a table that was staged from records: the id and the text of each, in order. */
  lemma SnapshotOfRecords(b: Build, rules: Rules, columns: seq<Column>, recs: seq<Json>)
    requires Creatable(LoadingColumns(columns)) && AllLoad(Job(b, Load, rules, columns), recs)
    ensures Identified(rules, recs)
    ensures StageMerge.Snapshot(LoadedTable(columns, RowsOf(Job(b, Load, rules, columns), recs)).rows) ==
      RecordRows(rules, recs)
  {
    var rows := RowsOf(Job(b, Load, rules, columns), recs);
    var stored := LoadedTable(columns, rows).rows;
    forall i | 0 <= i < |recs|
      ensures Cleansed(rules, recs[i], "").Obj? && IdOf(Cleansed(rules, recs[i], "")).Some?
      ensures |StageMerge.Snapshot(stored)| == |recs| && StageMerge.Snapshot(stored)[i] == RecordRow(rules, recs[i])
    {
      assert RowFor(Job(b, Load, rules, columns), recs[i]) == Some(rows[i]);
      StoredRecord(b, columns, Cleansed(rules, recs[i], ""));
      SnapshotAt(stored, i);
    }
    assert recs == [] ==> stored == [] && StageMerge.Snapshot(stored) == [];
  }

  // ---- The update ------------------------------------------------------------------------------

  /** Whether add_pkey_and_indexes adds a primary key. */
  predicate CallsForKey(columns: seq<Column>) {
    columns == [] || exists i :: 0 <= i < |columns| && columns[i].name == "id"
  }

  ghost function StagedTable(b: Build, rules: Rules, columns: seq<Column>, recs: seq<Json>): Option<Database.Table> {
    if Creatable(LoadingColumns(columns)) && AllLoad(Job(b, Load, rules, columns), recs)
    then Some(LoadedTable(columns, RowsOf(Job(b, Load, rules, columns), recs))) else None
  }

  /** stage_merge: both passes over the pages, and the transaction that replaces the table. */
  method UpdateTable(b: Build, conn: StageMerge.Connection, rules: Rules, st: SourceType, pages: seq<Json>,
                     table: string, record: bool, now: int, faultAt: nat)
    returns (committed: bool, u: StageMerge.Update, columns: seq<Column>)
    requires Readable(pages)
    modifies conn
    ensures IsColumns(columns, Tally(map[], AllObserved(rules, TableRecords(pages))), st)
    ensures u == StageMerge.Update(table, if SomeInner(pages) then None else StagedTable(b, rules, columns, TableRecords(pages)),
                                   columns == [] || exists i :: 0 <= i < |columns| && columns[i].name == "id",
                                   record, now, faultAt)
    ensures committed <==> StageMerge.Outcome(old(conn.db), u).Some?
    ensures conn.db == if committed then StageMerge.Outcome(old(conn.db), u).value else old(conn.db)
  {
    var ok, rows;
    ok, columns, rows := StageTable(b, rules, st, pages);
    u := StageMerge.Update(table, if ok then Some(LoadedTable(columns, rows)) else None, CallsForKey(columns),
                           record, now, faultAt);
    committed := conn.StageMerge(u);
  }

  // ---- What the table says ---------------------------------------------------------------------

  /** The row holds, under the name, a text that says what the value says, and nothing where there is no value. */
  predicate HoldsValue(row: Database.TableRow, name: string, t: ColumnType, v: Option<Json>) {
    if v.None? || v.value.Null? then name !in row
    else name in row && StandsFor(t, v.value, row[name])
  }

  /** The name of the k-th stored column on the server. */
  function ColumnName(columns: seq<Column>, k: nat): string
    requires k < |Stored(columns)|
  {
    Truncated(ExpandedName(Stored(columns)[k].name))
  }

  lemma CellHolds(columns: seq<Column>, row: CopyText.Row, k: nat, v: Option<Json>)
    requires Creatable(LoadingColumns(columns)) && |row| == |Stored(columns)| + 2 && k < |Stored(columns)|
    ensures
      var stored, t := StoredCells(AllTruncated(LoadingColumns(columns)), row), Stored(columns)[k].ctype;
      HoldsValue(stored, ColumnName(columns, k), t, v) <==> FieldSays(t, v, row[k + 1])
  {
    var names := AllTruncated(LoadingColumns(columns));
    NamesOfTable(columns);
    ExpandedNamesAt(Stored(columns), k);
    Framing("id", ExpandedNames(Stored(columns)), "data", k);
    StoredAt(names, row, k + 1);
  }

  ghost predicate RowHolds(r: Rules, rec: Json, columns: seq<Column>, row: Database.TableRow, k: nat)
    requires Cleansed(r, rec, "").Obj? && k < |Stored(columns)|
  {
    HoldsValue(row, ColumnName(columns, k), Stored(columns)[k].ctype,
               Lookup(Cleansed(r, rec, ""), Stored(columns)[k].source))
  }

  /** Every record has its row, and every column of it says what the record says. */
  ghost predicate TableSays(r: Rules, recs: seq<Json>, columns: seq<Column>, t: Database.Table)
    requires LoadableRecords(r, recs)
  {
    |t.rows| == |recs| &&
    forall n, k :: 0 <= n < |recs| && 0 <= k < |Stored(columns)| ==> RowHolds(r, recs[n], columns, t.rows[n], k)
  }

  lemma LoadedTableSays(b: Build, r: Rules, recs: seq<Json>, columns: seq<Column>)
    requires LoadableRecords(r, recs) && Creatable(LoadingColumns(columns)) && AllLoad(Job(b, Load, r, columns), recs)
    requires forall n :: 0 <= n < |recs| ==> |RowsOf(Job(b, Load, r, columns), recs)[n]| == |Stored(columns)| + 2
    ensures
      var rows := RowsOf(Job(b, Load, r, columns), recs);
      TableSays(r, recs, columns, LoadedTable(columns, rows)) == RowsSay(r, recs, columns, rows)
  {
    var rows := RowsOf(Job(b, Load, r, columns), recs);
    forall n, k | 0 <= n < |recs| && 0 <= k < |Stored(columns)|
      ensures RowHolds(r, recs[n], columns, LoadedTable(columns, rows).rows[n], k) <==>
        RowSays(r, recs[n], Stored(columns)[k], rows[n], k)
    {
      CellHolds(columns, rows[n], k, Lookup(Cleansed(r, recs[n], ""), Stored(columns)[k].source));
    }
  }

  /** After a committed update, in any build, the public table says of every record, in every column that pass 1 chose,
      what the record says, if and only if all fields are unmixed and within their columns' limits. */
  lemma PublicTableSaysIff(b: Build, db: Database.Db, r: Rules, recs: seq<Json>, st: SourceType, columns: seq<Column>,
                           u: StageMerge.Update)
    requires Database.Tidy(db) && StageMerge.LoadingFree(db, u.table)
    requires LoadableRecords(r, recs) && IsColumns(columns, Tally(map[], AllObserved(r, recs)), st) && PlainColumns(r, recs, columns)
    requires u.staged == StagedTable(b, r, columns, recs) && StageMerge.Outcome(db, u).Some?
    ensures
      var after := StageMerge.Outcome(db, u).value;
      u.table in after.tables && (TableSays(r, recs, columns, after.tables[u.table]) <==> FieldsFit(r, recs, columns))
  {
    StageMerge.CommittedTable(db, u);
    StoredRowsSayIff(b, r, recs, st, columns);
    LoadedTableSays(b, r, recs, columns);
  }

  // ---- Reordering ------------------------------------------------------------------------------

  lemma SameRecordRow(rules: Rules, a: Json, b: Json)
    requires Clean(a) && Clean(b) && Normalization.SameUpToOrder(a, b)
    requires Cleansed(rules, a, "").Obj? && IdOf(Cleansed(rules, a, "")).Some?
    ensures Cleansed(rules, b, "") == Cleansed(rules, a, "") && RecordRow(rules, b) == RecordRow(rules, a)
  {
    Normalization.NormalizationIsCanonical(rules, a, b, "");
  }

  /** Each record of the second run is one of the first, up to the order of members at any depth. */
  ghost predicate OnlyReordered(first: seq<Json>, second: seq<Json>) {
    forall i :: 0 <= i < |second| ==> exists j :: 0 <= j < |first| && Normalization.SameUpToOrder(first[j], second[i])
  }

  lemma ReorderedRows(rules: Rules, first: seq<Json>, second: seq<Json>)
    requires Identified(rules, first) && Identified(rules, second) && OnlyReordered(first, second)
    requires (forall i :: 0 <= i < |first| ==> Clean(first[i])) && forall i :: 0 <= i < |second| ==> Clean(second[i])
    ensures forall i :: 0 <= i < |second| ==> RecordRows(rules, second)[i] in RecordRows(rules, first)
  {
    forall i | 0 <= i < |second|
      ensures RecordRows(rules, second)[i] in RecordRows(rules, first)
    {
      var j :| 0 <= j < |first| && Normalization.SameUpToOrder(first[j], second[i]);
      SameRecordRow(rules, first[j], second[i]);
      assert RecordRows(rules, first)[j] == RecordRows(rules, second)[i];
    }
  }

  /** The run that an update of these records is for its history. */
  ghost function RunFor(rules: Rules, recs: seq<Json>, time: int): History.Run
    requires Identified(rules, recs)
  {
    History.Run(time, RecordRows(rules, recs), true)
  }

  /** Reordering members, at any depth and in any record, never creates a history row: a run that stages only
      reordered records of the run before it leaves the history as it was. */
  lemma ReorderingAddsNothing(rules: Rules, runs: seq<History.Run>, first: seq<Json>, t: int, second: seq<Json>, u: int)
    requires Identified(rules, first) && Identified(rules, second) && OnlyReordered(first, second)
    requires (forall i :: 0 <= i < |first| ==> Clean(first[i])) && forall i :: 0 <= i < |second| ==> Clean(second[i])
    requires History.WellFormed(runs + [RunFor(rules, first, t)])
    ensures History.HistoryOf(runs + [RunFor(rules, first, t)] + [RunFor(rules, second, u)]) ==
      History.HistoryOf(runs + [RunFor(rules, first, t)])
  {
    ReorderedRows(rules, first, second);
    History.RepeatedRunAddsNothing(runs, RunFor(rules, first, t), RunFor(rules, second, u));
  }

  lemma CommittedStages(b: Build, db: Database.Db, rules: Rules, columns: seq<Column>, recs: seq<Json>, u: StageMerge.Update)
    requires u.staged == StagedTable(b, rules, columns, recs) && StageMerge.Outcome(db, u).Some?
    ensures u.staged.Some? && Identified(rules, recs)
    ensures StageMerge.Snapshot(u.staged.value.rows) == RecordRows(rules, recs)
  {
    SnapshotOfRecords(b, rules, columns, recs);
  }

  lemma UpdateExtends(b: Build, db: Database.Db, earlier: seq<History.Run>, rules: Rules, columns: seq<Column>, recs: seq<Json>,
                      u: StageMerge.Update)
    requires u.table in db.history && db.history[u.table] == History.HistoryOf(earlier) && u.record
    requires u.staged == StagedTable(b, rules, columns, recs) && StageMerge.Outcome(db, u).Some?
    ensures Identified(rules, recs)
    ensures
      var after := StageMerge.Outcome(db, u).value;
      u.table in after.history && after.history[u.table] == History.HistoryOf(earlier + [RunFor(rules, recs, u.now)])
  {
    CommittedStages(b, db, rules, columns, recs, u);
    StageMerge.OutcomeHistory(db, u, u.table);
    StageMerge.HistorySnoc(earlier, RunFor(rules, recs, u.now));
  }

  /** The same for two updates in a row: staging the records again, reordered, leaves the history table as it was. */
  lemma ReorderedUpdateAddsNothing(b: Build, db: Database.Db, earlier: seq<History.Run>, rules: Rules,
                                   columns: seq<Column>, first: seq<Json>, u: StageMerge.Update,
                                   columns': seq<Column>, second: seq<Json>, u': StageMerge.Update)
    requires u.table == u'.table && u.table in db.history && db.history[u.table] == History.HistoryOf(earlier)
    requires u.record && u.staged == StagedTable(b, rules, columns, first) && StageMerge.Outcome(db, u).Some?
    requires u'.record && u'.staged == StagedTable(b, rules, columns', second)
    requires StageMerge.Outcome(StageMerge.Outcome(db, u).value, u').Some?
    requires (forall i :: 0 <= i < |first| ==> Clean(first[i])) && forall i :: 0 <= i < |second| ==> Clean(second[i])
    requires OnlyReordered(first, second)
    requires Identified(rules, first) && History.WellFormed(earlier + [RunFor(rules, first, u.now)])
    ensures
      var after := StageMerge.Outcome(db, u).value;
      StageMerge.Outcome(after, u').value.history == after.history
  {
    var after := StageMerge.Outcome(db, u).value;
    UpdateExtends(b, db, earlier, rules, columns, first, u);
    UpdateExtends(b, after, earlier + [RunFor(rules, first, u.now)], rules, columns', second, u');
    ReorderingAddsNothing(rules, earlier, first, u.now, second, u'.now);
    OthersKept(after, u');
  }

  lemma OthersKept(db: Database.Db, u: StageMerge.Update)
    requires u.table in db.history && StageMerge.Outcome(db, u).Some?
    requires
      var after := StageMerge.Outcome(db, u).value;
      u.table in after.history && after.history[u.table] == db.history[u.table]
    ensures StageMerge.Outcome(db, u).value.history == db.history
  {
    var a := StageMerge.Staged(db, u).value;
    var b := StageMerge.HistoryMerged(a, u, StageMerge.LatestBefore(db, u)).value;
    StageMerge.DroppedKeepsHistory(b, b.recorded);
    assert a.history == db.history;
    assert u.record ==> b.history == db.history[u.table := b.history[u.table]];
    assert db.history[u.table := db.history[u.table]] == db.history;
  }

  // ---- What the history shows ------------------------------------------------------------------

  /** The run that a committed update adds to those of its table. */
  lemma UpdateIsRun(b: Build, db: Database.Db, before: seq<StageMerge.Action>, rules: Rules, columns: seq<Column>, recs: seq<Json>,
                    u: StageMerge.Update)
    requires u.record && u.staged == StagedTable(b, rules, columns, recs)
    requires StageMerge.Outcome(StageMerge.AfterAll(db, before), u).Some?
    ensures Identified(rules, recs)
    ensures StageMerge.RunsOf(db, before + [StageMerge.Replace(u)], u.table) ==
      StageMerge.RunsOf(db, before, u.table) + [RunFor(rules, recs, u.now)]
  {
    var all := before + [StageMerge.Replace(u)];
    assert all[..|before|] == before && all[|before|] == StageMerge.Replace(u);
    CommittedStages(b, StageMerge.AfterAll(db, before), rules, columns, recs, u);
  }

  /** After any sequence of updates, the history as of a committed update that staged these records shows each of
      them: the row in force holds its normalized text, and that text is JSON for the normalized record. */
  lemma HistoryShowsRecords(db: Database.Db, earlier: seq<History.Run>, actions: seq<StageMerge.Action>, table: string,
                            n: nat, rules: Rules, recs: seq<Json>, k: nat)
    requires table in db.history && db.history[table] == History.HistoryOf(earlier)
    requires History.WellFormed(earlier + StageMerge.RunsOf(db, actions, table))
    requires n < |StageMerge.RunsOf(db, actions, table)| && Identified(rules, recs) && k < |recs|
    requires
      var run := StageMerge.RunsOf(db, actions, table)[n];
      run.committed && run.snapshot == RecordRows(rules, recs)
    requires DataOf(Cleansed(rules, recs[k], "")).Value?
    ensures
      var doc, run := Cleansed(rules, recs[k], ""), StageMerge.RunsOf(db, actions, table)[n];
      table in StageMerge.AfterAll(db, actions).history &&
      (exists row :: History.InForce(StageMerge.AfterAll(db, actions).history[table], IdOf(doc).value, run.time, row)) &&
      forall row :: History.InForce(StageMerge.AfterAll(db, actions).history[table], IdOf(doc).value, run.time, row) ==>
        row.data == DataOf(doc).text && JsonText.ParseDocument(false, row.data) == JsonText.Done(doc, "")
  {
    var doc, runs := Cleansed(rules, recs[k], ""), StageMerge.RunsOf(db, actions, table);
    assert runs[n].snapshot[k] == RecordRow(rules, recs[k]);
    assert (earlier + runs)[|earlier| + n] == runs[n];
    History.DataInOf(runs[n].snapshot, k);
    StageMerge.HistoryShowsEveryUpdate(db, earlier, actions, table, n, IdOf(doc).value);
    DataIsJson(doc);
  }
}
