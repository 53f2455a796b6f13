/** Which rows the processing of foreign keys deletes, told by the rows themselves. */
module DeletedRows {
  import opened Wrappers
  import opened Database
  import opened ForeignKeys
  import opened EnforcedKeys

  /** a is b with some elements left out. */
  predicate Subsequence<T(==)>(a: seq<T>, b: seq<T>)
    decreases |b|
  {
    a == [] || (b != [] && ((a[0] == b[0] && Subsequence(a[1..], b[1..])) || Subsequence(a, b[1..])))
  }

  lemma {:induction false} SubsequenceOfAll<T>(a: seq<T>)
    ensures Subsequence(a, a)
  {
    if a != [] {
      SubsequenceOfAll(a[1..]);
    }
  }

  lemma {:induction false} SubsequenceMore<T>(a: seq<T>, b: seq<T>)
    requires a != [] && Subsequence(a, b)
    ensures Subsequence(a[1..], b)
    decreases |b|
  {
    if !(a[0] == b[0] && Subsequence(a[1..], b[1..])) {
      SubsequenceMore(a, b[1..]);
    }
  }

  lemma {:induction false} SubsequenceTransitive<T>(a: seq<T>, b: seq<T>, c: seq<T>)
    requires Subsequence(a, b) && Subsequence(b, c)
    ensures Subsequence(a, c)
    decreases |b| + |c|
  {
    if a != [] {
      if b[0] == c[0] && Subsequence(b[1..], c[1..]) {
        if a[0] == b[0] && Subsequence(a[1..], b[1..]) {
          SubsequenceTransitive(a[1..], b[1..], c[1..]);
        } else {
          SubsequenceTransitive(a, b[1..], c[1..]);
        }
      } else {
        SubsequenceTransitive(a, b, c[1..]);
      }
    }
  }

  // ---- Rows without a target -------------------------------------------------------------------

  /** The row references a value that is not among those of the referenced column, none of which is null. */
  predicate Doomed(tables: map<string, Table>, ref: Reference, table: string, row: TableRow)
    requires Readable(tables, ref)
  {
    && table == ref.referencingTable && ref.referencingColumn in row
    && var targets := tables[ref.referencedTable].rows;
       (forall i :: 0 <= i < |targets| ==>
          ref.referencedColumn in targets[i] && targets[i][ref.referencedColumn] != row[ref.referencingColumn])
  }

  /** Among the rows that stay, the row's reference has a target. */
  predicate KeepsTarget(tables: map<string, Table>, ref: Reference, c: Reference, row: TableRow)
    requires Readable(tables, ref) && Readable(tables, c) && c.referencingColumn in row
  {
    var targets := tables[c.referencedTable].rows;
    exists j :: 0 <= j < |targets| && !Doomed(tables, ref, c.referencedTable, targets[j]) &&
      c.referencedColumn in targets[j] && targets[j][c.referencedColumn] == row[c.referencingColumn]
  }

  /** No constraint stands in the way: what stays references what stays. */
  predicate Deletable(db: Db, ref: Reference)
    requires Readable(db.tables, ref)
  {
    forall c, i :: c in db.enforced && Readable(db.tables, c.ref) && 0 <= i < |db.tables[c.ref.referencingTable].rows| ==>
      var row := db.tables[c.ref.referencingTable].rows[i];
      c.ref.referencingColumn in row && !Doomed(db.tables, ref, c.ref.referencingTable, row) ==>
        KeepsTarget(db.tables, ref, c.ref, row)
  }

  /** The key's DELETE is carried out: its table of exceptions was made, it is not struck, and it is allowed. */
  predicate CarriedOut(db: Db, ref: Reference, f: Faults) {
    && !f.create && !f.delete && Readable(db.tables, ref) && HasColumn(db.tables, ref.referencingTable, "id")
    && Deletable(db, ref)
  }

  /** The row goes when the key is processed. */
  predicate Goes(db: Db, ref: Reference, f: Faults, table: string, row: TableRow) {
    CarriedOut(db, ref, f) && Doomed(db.tables, ref, table, row)
  }

  lemma {:induction false} KeptInOrder(rows: seq<TableRow>, column: string, values: set<string>)
    ensures Subsequence(KeptRows(rows, column, values), rows)
  {
    if rows != [] {
      var rest := KeptRows(rows[1..], column, values);
      KeptInOrder(rows[1..], column, values);
      assert [rows[0]] + rest != [] && ([rows[0]] + rest)[1..] == rest;
      assert [] + rest == rest;
    }
  }

  lemma {:induction false} KeptCount(rows: seq<TableRow>, column: string, values: set<string>, row: TableRow)
    ensures multiset(KeptRows(rows, column, values))[row] ==
      if column in row && row[column] in values then 0 else multiset(rows)[row]
  {
    if rows != [] {
      KeptCount(rows[1..], column, values, row);
      assert rows == [rows[0]] + rows[1..];
    }
  }

  lemma DoomedIff(tables: map<string, Table>, ref: Reference, row: TableRow)
    requires Readable(tables, ref) && row in tables[ref.referencingTable].rows
    ensures Doomed(tables, ref, ref.referencingTable, row) <==>
      ref.referencingColumn in row && row[ref.referencingColumn] in Exceptions(tables, ref)
  {
    var rows := tables[ref.referencingTable].rows;
    var k :| 0 <= k < |rows| && rows[k] == row;
    if ref.referencingColumn in row {
      assert row[ref.referencingColumn] in ValuesIn(tables[ref.referencingTable], ref.referencingColumn);
    }
  }

  /** The rows left by the DELETE. */
  lemma PrunedRows(tables: map<string, Table>, ref: Reference, table: string, row: TableRow)
    requires Readable(tables, ref) && table in tables
    ensures
      var pruned := Pruned(tables, ref);
      && table in pruned && pruned[table].columns == tables[table].columns && pruned[table].keys == tables[table].keys
      && Subsequence(pruned[table].rows, tables[table].rows)
      && multiset(pruned[table].rows)[row] ==
           if Doomed(tables, ref, table, row) then 0 else multiset(tables[table].rows)[row]
  {
    var t := tables[table];
    if table == ref.referencingTable {
      KeptInOrder(t.rows, ref.referencingColumn, Exceptions(tables, ref));
      KeptCount(t.rows, ref.referencingColumn, Exceptions(tables, ref), row);
      if row in t.rows {
        DoomedIff(tables, ref, row);
      } else {
        assert row !in multiset(t.rows);
      }
    } else {
      SubsequenceOfAll(t.rows);
    }
  }

  lemma PrunedHas(tables: map<string, Table>, ref: Reference, table: string, row: TableRow)
    requires Readable(tables, ref) && table in tables
    ensures table in Pruned(tables, ref)
    ensures row in Pruned(tables, ref)[table].rows <==> row in tables[table].rows && !Doomed(tables, ref, table, row)
  {
    PrunedRows(tables, ref, table, row);
    assert row in Pruned(tables, ref)[table].rows <==> row in multiset(Pruned(tables, ref)[table].rows);
    assert row in tables[table].rows <==> row in multiset(tables[table].rows);
  }

  predicate HasTarget(tables: map<string, Table>, c: Reference, row: TableRow)
    requires Readable(tables, c) && c.referencingColumn in row
  {
    exists t :: t in tables[c.referencedTable].rows && c.referencedColumn in t &&
      t[c.referencedColumn] == row[c.referencingColumn]
  }

  lemma SatisfiedByRows(tables: map<string, Table>, c: Reference)
    requires Readable(tables, c)
    ensures Satisfied(tables, c) <==>
      forall row :: row in tables[c.referencingTable].rows && c.referencingColumn in row ==> HasTarget(tables, c, row)
  {
    var from, to := tables[c.referencingTable], tables[c.referencedTable];
    forall row | row in from.rows && c.referencingColumn in row
      ensures row[c.referencingColumn] in ValuesIn(from, c.referencingColumn)
      ensures HasTarget(tables, c, row) <==> row[c.referencingColumn] in ValuesIn(to, c.referencedColumn)
    {
      var k :| 0 <= k < |from.rows| && from.rows[k] == row;
      TargetValue(tables, c, row);
    }
    forall v | v in ValuesIn(from, c.referencingColumn)
      ensures exists row :: row in from.rows && c.referencingColumn in row && row[c.referencingColumn] == v
    {
      var k :| 0 <= k < |from.rows| && c.referencingColumn in from.rows[k] && from.rows[k][c.referencingColumn] == v;
      assert from.rows[k] in from.rows;
    }
  }

  lemma TargetValue(tables: map<string, Table>, c: Reference, row: TableRow)
    requires Readable(tables, c) && c.referencingColumn in row
    ensures HasTarget(tables, c, row) <==>
      row[c.referencingColumn] in ValuesIn(tables[c.referencedTable], c.referencedColumn)
  {
    var to := tables[c.referencedTable];
    if t :| t in to.rows && c.referencedColumn in t && t[c.referencedColumn] == row[c.referencingColumn] {
      var k :| 0 <= k < |to.rows| && to.rows[k] == t;
    }
    if row[c.referencingColumn] in ValuesIn(to, c.referencedColumn) {
      var k :| 0 <= k < |to.rows| && c.referencedColumn in to.rows[k] && to.rows[k][c.referencedColumn] == row[c.referencingColumn];
      assert to.rows[k] in to.rows;
    }
  }

  lemma KeepsTargetIff(tables: map<string, Table>, ref: Reference, c: Reference, row: TableRow)
    requires Readable(tables, ref) && Readable(tables, c) && c.referencingColumn in row
    ensures Readable(Pruned(tables, ref), c)
    ensures KeepsTarget(tables, ref, c, row) <==> HasTarget(Pruned(tables, ref), c, row)
  {
    var to := tables[c.referencedTable];
    forall t
      ensures t in Pruned(tables, ref)[c.referencedTable].rows <==> t in to.rows && !Doomed(tables, ref, c.referencedTable, t)
    {
      PrunedHas(tables, ref, c.referencedTable, t);
    }
    if t :| t in Pruned(tables, ref)[c.referencedTable].rows && c.referencedColumn in t && t[c.referencedColumn] == row[c.referencingColumn] {
      var k :| 0 <= k < |to.rows| && to.rows[k] == t;
    }
  }

  lemma PrunedSatisfiedIff(tables: map<string, Table>, ref: Reference, c: Reference)
    requires Readable(tables, ref) && Readable(tables, c)
    ensures Satisfied(Pruned(tables, ref), c) <==>
      forall i :: 0 <= i < |tables[c.referencingTable].rows| ==>
        var row := tables[c.referencingTable].rows[i];
        c.referencingColumn in row && !Doomed(tables, ref, c.referencingTable, row) ==> KeepsTarget(tables, ref, c, row)
  {
    var from := tables[c.referencingTable];
    forall row
      ensures row in Pruned(tables, ref)[c.referencingTable].rows <==>
        row in from.rows && !Doomed(tables, ref, c.referencingTable, row)
    {
      PrunedHas(tables, ref, c.referencingTable, row);
    }
    assert Readable(Pruned(tables, ref), c);
    SatisfiedByRows(Pruned(tables, ref), c);
    forall row | c.referencingColumn in row
      ensures KeepsTarget(tables, ref, c, row) <==> HasTarget(Pruned(tables, ref), c, row)
    {
      KeepsTargetIff(tables, ref, c, row);
    }
  }

  lemma DeletableIff(db: Db, ref: Reference)
    requires Readable(db.tables, ref) && AllSatisfied(db.tables, db.enforced)
    ensures AllSatisfied(Pruned(db.tables, ref), db.enforced) <==> Deletable(db, ref)
  {
    forall c | c in db.enforced
      ensures Readable(db.tables, c.ref)
      ensures Satisfied(Pruned(db.tables, ref), c.ref) <==>
        forall i :: 0 <= i < |db.tables[c.ref.referencingTable].rows| ==>
          var row := db.tables[c.ref.referencingTable].rows[i];
          c.ref.referencingColumn in row && !Doomed(db.tables, ref, c.ref.referencingTable, row) ==>
            KeepsTarget(db.tables, ref, c.ref, row)
    {
      assert Satisfied(db.tables, c.ref);
      PrunedSatisfiedIff(db.tables, ref, c.ref);
    }
  }

  // ---- One key, and any loop -------------------------------------------------------------------

  lemma TablesAfterKey(db: Db, ref: Reference, f: Faults)
    requires AllSatisfied(db.tables, db.enforced)
    ensures AfterKey(db, ref, f).tables == if CarriedOut(db, ref, f) then Pruned(db.tables, ref) else db.tables
    ensures AllSatisfied(AfterKey(db, ref, f).tables, AfterKey(db, ref, f).enforced)
  {
    if Readable(db.tables, ref) {
      DeletableIff(db, ref);
    }
  }

  /** The table is what it was but for its rows, of which some may be left out. */
  predicate OnlyRowsGone(before: map<string, Table>, after: map<string, Table>, table: string) {
    (table in before <==> table in after) &&
    (table in before ==>
      && after[table].columns == before[table].columns && after[table].keys == before[table].keys
      && Subsequence(after[table].rows, before[table].rows))
  }

  function Count(tables: map<string, Table>, table: string, row: TableRow): nat {
    if table in tables then multiset(tables[table].rows)[row] else 0
  }

  /** One key under force, with any swallowed failures: rows stay in order, and a row goes, with all its copies, if and
      only if the DELETE is carried out and the row is not null in the referencing column and has no target there. */
  lemma KeyDeletesRows(db: Db, ref: Reference, f: Faults, table: string, row: TableRow)
    requires AllSatisfied(db.tables, db.enforced)
    ensures
      var after := AfterKey(db, ref, f);
      && AllSatisfied(after.tables, after.enforced) && OnlyRowsGone(db.tables, after.tables, table)
      && Count(after.tables, table, row) == if Goes(db, ref, f, table, row) then 0 else Count(db.tables, table, row)
  {
    TablesAfterKey(db, ref, f);
    if table in db.tables {
      if CarriedOut(db, ref, f) {
        PrunedRows(db.tables, ref, table, row);
      } else {
        SubsequenceOfAll(db.tables[table].rows);
      }
    }
  }

  /** The loop comes to key i, and the row goes there. */
  predicate GoesAt(db: Db, refs: seq<Reference>, fs: seq<Faults>, i: nat, table: string, row: TableRow)
    requires |fs| == |refs| && i < |refs|
  {
    (forall j :: 0 <= j < i ==> !fs[j].dropTemp) &&
    Goes(AfterKeys(db, refs[..i], fs[..i]), refs[i], fs[i], table, row)
  }

  ghost predicate GoesInLoop(db: Db, refs: seq<Reference>, fs: seq<Faults>, table: string, row: TableRow)
    requires |fs| == |refs|
  {
    exists i :: 0 <= i < |refs| && GoesAt(db, refs, fs, i, table, row)
  }

  lemma GoesLater(db: Db, refs: seq<Reference>, fs: seq<Faults>, i: nat, table: string, row: TableRow)
    requires |fs| == |refs| && 0 < i < |refs|
    ensures GoesAt(db, refs, fs, i, table, row) <==>
      !fs[0].dropTemp && GoesAt(AfterKey(db, refs[0], fs[0]), refs[1..], fs[1..], i - 1, table, row)
  {
    assert refs[..i][1..] == refs[1..][..i - 1] && fs[..i][1..] == fs[1..][..i - 1];
    assert forall j :: 0 < j < i ==> fs[j] == fs[1..][j - 1];
  }

  lemma GoesFirstOrLater(db: Db, refs: seq<Reference>, fs: seq<Faults>, table: string, row: TableRow)
    requires |fs| == |refs| && refs != []
    ensures GoesInLoop(db, refs, fs, table, row) <==>
      Goes(db, refs[0], fs[0], table, row) ||
      (!fs[0].dropTemp && GoesInLoop(AfterKey(db, refs[0], fs[0]), refs[1..], fs[1..], table, row))
  {
    var after := AfterKey(db, refs[0], fs[0]);
    assert AfterKeys(db, refs[..0], fs[..0]) == db;
    assert GoesAt(db, refs, fs, 0, table, row) <==> Goes(db, refs[0], fs[0], table, row);
    forall i | 0 < i < |refs|
      ensures GoesAt(db, refs, fs, i, table, row) <==> !fs[0].dropTemp && GoesAt(after, refs[1..], fs[1..], i - 1, table, row)
    {
      GoesLater(db, refs, fs, i, table, row);
    }
    if i :| 0 <= i < |refs[1..]| && GoesAt(after, refs[1..], fs[1..], i, table, row) {
      assert !fs[0].dropTemp ==> GoesAt(db, refs, fs, i + 1, table, row);
    }
  }

  /** Any keys in any order, with any swallowed failures: a row goes if and only if, when the turn of some key came, its
      DELETE was carried out and the row had no target for it. */
  lemma {:induction false} LoopDeletesRows(db: Db, refs: seq<Reference>, fs: seq<Faults>, table: string, row: TableRow)
    requires AllSatisfied(db.tables, db.enforced) && |fs| == |refs|
    ensures
      var after := AfterKeys(db, refs, fs);
      && AllSatisfied(after.tables, after.enforced) && OnlyRowsGone(db.tables, after.tables, table)
      && Count(after.tables, table, row) ==
           if GoesInLoop(db, refs, fs, table, row) then 0 else Count(db.tables, table, row)
    decreases |refs|
  {
    if refs == [] {
      if table in db.tables {
        SubsequenceOfAll(db.tables[table].rows);
      }
    } else {
      var first, after := AfterKey(db, refs[0], fs[0]), AfterKeys(db, refs, fs);
      KeyDeletesRows(db, refs[0], fs[0], table, row);
      GoesFirstOrLater(db, refs, fs, table, row);
      if !fs[0].dropTemp {
        LoopDeletesRows(first, refs[1..], fs[1..], table, row);
        if table in db.tables {
          SubsequenceTransitive(after.tables[table].rows, first.tables[table].rows, db.tables[table].rows);
        }
      }
    }
  }
}
