/** Which of the configured foreign keys are enforced and recorded, where no statement fails for reasons of its own. */
module EnforcedKeys {
  import opened Wrappers
  import opened Identifiers
  import opened Database
  import opened ForeignKeys

  // ---- Under force, which keys are enforced ----------------------------------------------------

  /** The tables without the rows whose reference has no target. */
  function Pruned(tables: map<string, Table>, ref: Reference): map<string, Table>
    requires Readable(tables, ref)
  {
    var t := tables[ref.referencingTable];
    tables[ref.referencingTable := t.(rows := KeptRows(t.rows, ref.referencingColumn, Exceptions(tables, ref)))]
  }

  /** The DELETE succeeds and leaves every reference of the key with a target. */
  ghost predicate Cleans(db: Db, ref: Reference)
    requires Readable(db.tables, ref)
  {
    && HasColumn(db.tables, ref.referencingTable, "id")
    && AllSatisfied(Pruned(db.tables, ref), db.enforced)
    && Satisfied(Pruned(db.tables, ref), ref)
  }

  /** Both columns are there, the referenced one is a key, the name as cut is free, and either every reference has a
      target or the DELETE helps. */
  ghost predicate Enforceable(db: Db, ref: Reference) {
    && Readable(db.tables, ref) && ref.referencedColumn in db.tables[ref.referencedTable].keys
    && !NameTaken(db.enforced, ref.referencingTable, CutConstraint(ref).name)
    && (Satisfied(db.tables, ref) || Cleans(db, ref))
  }

  lemma {:induction false} NothingDeleted(rows: seq<TableRow>, column: string)
    ensures KeptRows(rows, column, {}) == rows
  {
    if rows != [] {
      NothingDeleted(rows[1..], column);
    }
  }

  /** The DELETE succeeds if and only if every constraint that references the table still finds its targets. */
  lemma DeleteAllowedIff(db: Db, ref: Reference)
    requires AllSatisfied(db.tables, db.enforced) && Readable(db.tables, ref)
    ensures AllSatisfied(Pruned(db.tables, ref), db.enforced) <==>
      forall c :: c in db.enforced && c.ref.referencedTable == ref.referencingTable ==>
        Satisfied(Pruned(db.tables, ref), c.ref)
  {
    var t, values := db.tables[ref.referencingTable], Exceptions(db.tables, ref);
    forall c | c in db.enforced && c.ref.referencedTable != ref.referencingTable
      ensures Satisfied(Pruned(db.tables, ref), c.ref)
    {
      assert Satisfied(db.tables, c.ref);
      ValuesKept(t, ref.referencingColumn, values, c.ref.referencingColumn);
    }
  }

  lemma SatisfiedHasNoExceptions(tables: map<string, Table>, ref: Reference)
    requires Satisfied(tables, ref)
    ensures Pruned(tables, ref) == tables
  {
    var t := tables[ref.referencingTable];
    assert Exceptions(tables, ref) == {};
    NothingDeleted(t.rows, ref.referencingColumn);
    assert t.(rows := t.rows) == t;
  }

  /** What the DELETE leaves of a database in which every constraint holds. */
  lemma DeleteResult(db: Db, ref: Reference)
    requires AllSatisfied(db.tables, db.enforced)
    ensures AfterDelete(db, ref, NoFaults) ==
      if Readable(db.tables, ref) && HasColumn(db.tables, ref.referencingTable, "id") &&
         AllSatisfied(Pruned(db.tables, ref), db.enforced)
      then db.(tables := Pruned(db.tables, ref))
      else db
  {
  }

  lemma AddsIffEnforceable(db: Db, ref: Reference)
    requires AllSatisfied(db.tables, db.enforced)
    ensures Adds(AfterDelete(db, ref, NoFaults), ref, NoFaults) <==> Enforceable(db, ref)
  {
    DeleteResult(db, ref);
    if Satisfied(db.tables, ref) {
      SatisfiedHasNoExceptions(db.tables, ref);
    }
  }

  /** One key under force, without faults, on any database in which every constraint holds: its constraint is added if
      and only if the key is enforceable, and recorded if and only if moreover its name fits and its column is not
      listed; every constraint holds again. */
  lemma KeyResult(db: Db, ref: Reference)
    requires AllSatisfied(db.tables, db.enforced)
    ensures
      var after := AfterKey(db, ref, NoFaults);
      && AllSatisfied(after.tables, after.enforced)
      && after.enforced == (if Enforceable(db, ref) then db.enforced + {CutConstraint(ref)} else db.enforced)
      && after.recorded ==
           (if Enforceable(db, ref) && Fits(ref) && Unlisted(db, ref)
            then db.recorded + [Constraint(ConstraintName(ref), ref)] else db.recorded)
  {
    AddsIffEnforceable(db, ref);
    DeleteResult(db, ref);
  }

  predicate Quiet(fs: seq<Faults>) {
    forall i :: 0 <= i < |fs| ==> fs[i] == NoFaults
  }

  /** Keys under force, without faults. */
  function Processed(db: Db, refs: seq<Reference>): Db {
    if refs == [] then db
    else AfterKey(Processed(db, refs[..|refs| - 1]), refs[|refs| - 1], NoFaults)
  }

  lemma {:induction false} ProcessedFirst(db: Db, refs: seq<Reference>)
    requires refs != []
    ensures Processed(db, refs) == Processed(AfterKey(db, refs[0], NoFaults), refs[1..])
    decreases |refs|
  {
    var front := refs[..|refs| - 1];
    if |refs| > 1 {
      ProcessedFirst(db, front);
      assert front[1..] == refs[1..][..|refs| - 2];
    } else {
      assert front == [] && refs[1..] == [];
    }
  }

  lemma {:induction false} QuietIsProcessed(db: Db, refs: seq<Reference>, fs: seq<Faults>)
    requires |fs| == |refs| && Quiet(fs)
    ensures AfterKeys(db, refs, fs) == Processed(db, refs)
    decreases |refs|
  {
    if refs != [] {
      ProcessedFirst(db, refs);
      QuietIsProcessed(AfterKey(db, refs[0], NoFaults), refs[1..], fs[1..]);
    }
  }

  /** The loop adds the constraint at key i. */
  ghost predicate EnforcedAt(db: Db, refs: seq<Reference>, i: nat, c: Constraint)
    requires i < |refs|
  {
    c == CutConstraint(refs[i]) && Enforceable(Processed(db, refs[..i]), refs[i])
  }

  /** The loop records the constraint at key i. */
  ghost predicate RecordedAt(db: Db, refs: seq<Reference>, i: nat, c: Constraint)
    requires i < |refs|
  {
    && c == Constraint(ConstraintName(refs[i]), refs[i]) && Fits(refs[i])
    && Enforceable(Processed(db, refs[..i]), refs[i]) && Unlisted(Processed(db, refs[..i]), refs[i])
  }

  ghost predicate Enforced(db: Db, refs: seq<Reference>, c: Constraint) {
    c in db.enforced || exists i :: 0 <= i < |refs| && EnforcedAt(db, refs, i, c)
  }

  ghost predicate Recorded(db: Db, refs: seq<Reference>, c: Constraint) {
    c in db.recorded || exists i :: 0 <= i < |refs| && RecordedAt(db, refs, i, c)
  }

  lemma EnforcedLast(db: Db, refs: seq<Reference>, c: Constraint)
    requires refs != []
    ensures
      var n := |refs| - 1;
      Enforced(db, refs, c) == (Enforced(db, refs[..n], c) || EnforcedAt(db, refs, n, c))
  {
    var n := |refs| - 1;
    forall i | 0 <= i < n
      ensures EnforcedAt(db, refs[..n], i, c) == EnforcedAt(db, refs, i, c)
    {
      assert refs[..n][..i] == refs[..i];
    }
  }

  lemma RecordedLast(db: Db, refs: seq<Reference>, c: Constraint)
    requires refs != []
    ensures
      var n := |refs| - 1;
      Recorded(db, refs, c) == (Recorded(db, refs[..n], c) || RecordedAt(db, refs, n, c))
  {
    var n := |refs| - 1;
    forall i | 0 <= i < n
      ensures RecordedAt(db, refs[..n], i, c) == RecordedAt(db, refs, i, c)
    {
      assert refs[..n][..i] == refs[..i];
    }
  }

  lemma {:induction false} ProcessedResult(db: Db, refs: seq<Reference>, c: Constraint)
    requires AllSatisfied(db.tables, db.enforced)
    ensures AllSatisfied(Processed(db, refs).tables, Processed(db, refs).enforced)
    ensures c in Processed(db, refs).enforced <==> Enforced(db, refs, c)
    ensures c in Processed(db, refs).recorded <==> Recorded(db, refs, c)
    decreases |refs|
  {
    if refs != [] {
      var before, last := refs[..|refs| - 1], refs[|refs| - 1];
      ProcessedResult(db, before, c);
      KeyResult(Processed(db, before), last);
      EnforcedLast(db, refs, c);
      RecordedLast(db, refs, c);
    }
  }

  /** Any keys in any order, under force and without faults: every constraint holds afterwards, and what is enforced
      and recorded is what was, and the keys that were enforceable, and recordable, when their turn came. */
  lemma KeysEnforcedIff(db: Db, refs: seq<Reference>, fs: seq<Faults>, c: Constraint)
    requires AllSatisfied(db.tables, db.enforced) && |fs| == |refs| && Quiet(fs)
    ensures
      var after := AfterKeys(db, refs, fs);
      && AllSatisfied(after.tables, after.enforced)
      && (c in after.enforced <==> c in db.enforced || exists i :: 0 <= i < |refs| && EnforcedAt(db, refs, i, c))
      && (c in after.recorded <==> c in db.recorded || exists i :: 0 <= i < |refs| && RecordedAt(db, refs, i, c))
  {
    QuietIsProcessed(db, refs, fs);
    ProcessedResult(db, refs, c);
  }

  predicate SameColumn(a: Reference, b: Reference) {
    a.referencingTable == b.referencingTable && a.referencingColumn == b.referencingColumn
  }

  /** No column has two keys. */
  predicate Distinct(refs: seq<Reference>) {
    forall i, j :: 0 <= i < j < |refs| ==> !SameColumn(refs[i], refs[j])
  }

  /** So for one key of a loop whose keys are on different columns, none of them enforced or listed before. */
  lemma KeyEnforcedIff(db: Db, refs: seq<Reference>, fs: seq<Faults>, i: nat)
    requires AllSatisfied(db.tables, db.enforced) && |fs| == |refs| && Quiet(fs) && i < |refs| && Distinct(refs)
    requires CutConstraint(refs[i]) !in db.enforced && Unlisted(db, refs[i])
    ensures
      var after, before := AfterKeys(db, refs, fs), AfterKeys(db, refs[..i], fs[..i]);
      && (CutConstraint(refs[i]) in after.enforced <==> Enforceable(before, refs[i]))
      && (CutConstraint(refs[i]) in after.recorded <==> Enforceable(before, refs[i]) && Fits(refs[i]))
  {
    var c := CutConstraint(refs[i]);
    QuietIsProcessed(db, refs[..i], fs[..i]);
    KeysEnforcedIff(db, refs, fs, c);
    UnlistedBefore(db, refs, i);
    forall j | 0 <= j < |refs| && j != i
      ensures refs[j] != refs[i]
    {
      assert !SameColumn(refs[if j < i then j else i], refs[if j < i then i else j]);
    }
    assert EnforcedAt(db, refs, i, c) <==> Enforceable(Processed(db, refs[..i]), refs[i]);
    if Fits(refs[i]) {
      assert RecordedAt(db, refs, i, c) <==> Enforceable(Processed(db, refs[..i]), refs[i]);
    }
  }

  lemma UnlistedBefore(db: Db, refs: seq<Reference>, i: nat)
    requires AllSatisfied(db.tables, db.enforced) && i < |refs| && Distinct(refs) && Unlisted(db, refs[i])
    ensures Unlisted(Processed(db, refs[..i]), refs[i])
  {
    forall c | c in Processed(db, refs[..i]).recorded
      ensures !SameColumn(c.ref, refs[i])
    {
      ProcessedResult(db, refs[..i], c);
      if c !in db.recorded {
        var j :| 0 <= j < |refs[..i]| && RecordedAt(db, refs[..i], j, c);
        assert !SameColumn(refs[j], refs[i]);
      }
    }
  }

  // ---- In which setting every key is enforced --------------------------------------------------

  /** What a key needs: both columns exist, and the referenced one is a key without nulls. */
  predicate Referable(tables: map<string, Table>, ref: Reference) {
    && Readable(tables, ref) && ref.referencingTable != ref.referencedTable
    && HasColumn(tables, ref.referencingTable, "id")
    && ref.referencedColumn in tables[ref.referencedTable].keys
    && forall i :: 0 <= i < |tables[ref.referencedTable].rows| ==> ref.referencedColumn in tables[ref.referencedTable].rows[i]
  }

  lemma {:induction false} KeptRowsAre(rows: seq<TableRow>, column: string, values: set<string>, row: TableRow)
    ensures row in KeptRows(rows, column, values) <==> row in rows && !(column in row && row[column] in values)
  {
    if rows != [] {
      assert rows == [rows[0]] + rows[1..];
      KeptRowsAre(rows[1..], column, values, row);
    }
  }

  lemma ValuesKept(t: Table, column: string, values: set<string>, other: string)
    ensures
      var kept := t.(rows := KeptRows(t.rows, column, values));
      && ValuesIn(kept, other) <= ValuesIn(t, other)
      && ValuesIn(kept, column) == ValuesIn(t, column) - values
  {
    var kept := t.(rows := KeptRows(t.rows, column, values));
    forall i | 0 <= i < |kept.rows|
      ensures kept.rows[i] in t.rows && !(column in kept.rows[i] && kept.rows[i][column] in values)
    {
      assert kept.rows[i] in kept.rows;
      KeptRowsAre(t.rows, column, values, kept.rows[i]);
    }
    forall v | v in ValuesIn(t, column) - values
      ensures v in ValuesIn(kept, column)
    {
      var i :| 0 <= i < |t.rows| && column in t.rows[i] && t.rows[i][column] == v;
      KeptRowsAre(t.rows, column, values, t.rows[i]);
      var j :| 0 <= j < |kept.rows| && kept.rows[j] == t.rows[i];
    }
    forall v | v in ValuesIn(kept, other)
      ensures v in ValuesIn(t, other)
    {
      var i :| 0 <= i < |kept.rows| && other in kept.rows[i] && kept.rows[i][other] == v;
      var j :| 0 <= j < |t.rows| && t.rows[j] == kept.rows[i];
    }
  }

  /** Deleting exceptions satisfies the key and disturbs no constraint on another referenced table. */
  lemma DeleteSucceeds(db: Db, ref: Reference)
    requires Referable(db.tables, ref) && AllSatisfied(db.tables, db.enforced)
    requires forall c :: c in db.enforced ==> c.ref.referencedTable != ref.referencingTable
    ensures
      var after := AfterDelete(db, ref, NoFaults);
      && after == db.(tables := Pruned(db.tables, ref))
      && Satisfied(after.tables, ref) && AllSatisfied(after.tables, db.enforced)
  {
    var t, values := db.tables[ref.referencingTable], Exceptions(db.tables, ref);
    ValuesKept(t, ref.referencingColumn, values, ref.referencingColumn);
    forall c | c in db.enforced
      ensures Satisfied(Pruned(db.tables, ref), c.ref)
    {
      ValuesKept(t, ref.referencingColumn, values, c.ref.referencingColumn);
      assert Satisfied(db.tables, c.ref);
    }
  }

  /** No earlier key references a later key's referencing table, and (table, column) pairs are distinct. */
  predicate Ordered(refs: seq<Reference>) {
    && (forall i, j :: 0 <= i < j < |refs| ==> refs[i].referencedTable != refs[j].referencingTable)
    && (forall i, j :: 0 <= i < j < |refs| ==>
        refs[i].referencingTable != refs[j].referencingTable || refs[i].referencingColumn != refs[j].referencingColumn)
  }

  function CutConstraints(refs: seq<Reference>): set<Constraint> {
    set i | 0 <= i < |refs| :: CutConstraint(refs[i])
  }

  /** On one table no two constraint names are cut to the same identifier. */
  predicate CutNamesDiffer(refs: seq<Reference>) {
    forall i, j :: 0 <= i < j < |refs| && refs[i].referencingTable == refs[j].referencingTable ==>
      CutConstraint(refs[i]).name != CutConstraint(refs[j]).name
  }

  /** The state before key k: the first k keys are enforced, and recorded where their names fit. */
  ghost predicate Progress(db: Db, refs: seq<Reference>, k: nat) {
    && k <= |refs| && AllSatisfied(db.tables, db.enforced) && db.enforced == CutConstraints(refs[..k])
    && (forall c :: c in db.recorded <==> exists i :: 0 <= i < k && Fits(refs[i]) && c == CutConstraint(refs[i]))
    && forall i :: k <= i < |refs| ==> Referable(db.tables, refs[i])
  }

  lemma ReferableAfterDelete(db: Db, ref: Reference, other: Reference)
    requires Referable(db.tables, ref) && Referable(db.tables, other)
    ensures Referable(Pruned(db.tables, ref), other)
  {
    var t, values := db.tables[ref.referencingTable], Exceptions(db.tables, ref);
    forall row | row in KeptRows(t.rows, ref.referencingColumn, values)
      ensures row in t.rows
    {
      KeptRowsAre(t.rows, ref.referencingColumn, values, row);
    }
    var rows := KeptRows(t.rows, ref.referencingColumn, values);
    if other.referencedTable == ref.referencingTable {
      forall i | 0 <= i < |rows|
        ensures other.referencedColumn in rows[i]
      {
        assert rows[i] in t.rows;
      }
    }
  }

  lemma CutConstraintsSnoc(refs: seq<Reference>, ref: Reference)
    ensures CutConstraints(refs + [ref]) == CutConstraints(refs) + {CutConstraint(ref)}
  {
    var all := refs + [ref];
    forall c | c in CutConstraints(refs)
      ensures c in CutConstraints(all)
    {
      var i :| 0 <= i < |refs| && c == CutConstraint(refs[i]);
      assert all[i] == refs[i];
    }
    assert all[|refs|] == ref;
  }

  lemma KeyDeletes(db: Db, refs: seq<Reference>, k: nat)
    requires Progress(db, refs, k) && k < |refs| && Ordered(refs)
    ensures
      var deleted := AfterDelete(db, refs[k], NoFaults);
      && Progress(deleted, refs, k) && Satisfied(deleted.tables, refs[k])
      && deleted.enforced == db.enforced && deleted.recorded == db.recorded
  {
    var ref := refs[k];
    forall c | c in db.enforced
      ensures c.ref.referencedTable != ref.referencingTable
    {
      var i :| 0 <= i < |refs[..k]| && c == CutConstraint(refs[..k][i]);
      assert refs[..k][i] == refs[i];
    }
    DeleteSucceeds(db, ref);
    forall i | k <= i < |refs|
      ensures Referable(AfterDelete(db, ref, NoFaults).tables, refs[i])
    {
      ReferableAfterDelete(db, ref, refs[i]);
    }
  }

  lemma KeyAdds(db: Db, refs: seq<Reference>, k: nat)
    requires Progress(db, refs, k) && k < |refs| && Ordered(refs) && CutNamesDiffer(refs)
    requires Satisfied(db.tables, refs[k])
    ensures Adds(db, refs[k], NoFaults)
    ensures
      var added := AddForeignKey(db, refs[k], ConstraintName(refs[k])).value;
      Inserts(added, refs[k], NoFaults) <==> Fits(refs[k])
  {
    var ref := refs[k];
    forall c | c in db.enforced && c.ref.referencingTable == ref.referencingTable
      ensures c.name != CutConstraint(ref).name
    {
      var i :| 0 <= i < |refs[..k]| && c == CutConstraint(refs[..k][i]);
      assert refs[..k][i] == refs[i];
    }
    assert Referable(db.tables, ref);
    forall c | c in db.recorded
      ensures c.ref.referencingTable != ref.referencingTable || c.ref.referencingColumn != ref.referencingColumn
    {
      var i :| 0 <= i < k && Fits(refs[i]) && c == CutConstraint(refs[i]);
    }
  }

  lemma KeyEnforced(db: Db, refs: seq<Reference>, k: nat)
    requires Progress(db, refs, k) && k < |refs| && Ordered(refs) && CutNamesDiffer(refs)
    ensures Progress(AfterKey(db, refs[k], NoFaults), refs, k + 1)
  {
    var ref, deleted := refs[k], AfterDelete(db, refs[k], NoFaults);
    KeyDeletes(db, refs, k);
    KeyAdds(deleted, refs, k);
    assert refs[..k + 1] == refs[..k] + [ref];
    CutConstraintsSnoc(refs[..k], ref);
    var after := AfterKey(db, ref, NoFaults);
    assert after.recorded == if Fits(ref) then deleted.recorded + [CutConstraint(ref)] else deleted.recorded;
    RecordedSnoc(deleted, refs, k, after);
  }

  lemma RecordedSnoc(db: Db, refs: seq<Reference>, k: nat, after: Db)
    requires Progress(db, refs, k) && k < |refs|
    requires after.recorded == if Fits(refs[k]) then db.recorded + [CutConstraint(refs[k])] else db.recorded
    ensures forall c :: c in after.recorded <==> exists i :: 0 <= i < k + 1 && Fits(refs[i]) && c == CutConstraint(refs[i])
  {
    forall c
      ensures c in after.recorded <==> exists i :: 0 <= i < k + 1 && Fits(refs[i]) && c == CutConstraint(refs[i])
    {
      if i :| 0 <= i < k + 1 && Fits(refs[i]) && c == CutConstraint(refs[i]) {
        assert i == k || c in db.recorded;
      }
    }
  }

  lemma {:induction false} RemainingKeysEnforced(db: Db, refs: seq<Reference>, k: nat, fs: seq<Faults>)
    requires Progress(db, refs, k) && Ordered(refs) && CutNamesDiffer(refs)
    requires |fs| == |refs| - k && Quiet(fs)
    ensures Progress(AfterKeys(db, refs[k..], fs), refs, |refs|)
    decreases |refs| - k
  {
    if k < |refs| {
      KeyEnforced(db, refs, k);
      assert refs[k..][1..] == refs[k + 1..];
      RemainingKeysEnforced(AfterKey(db, refs[k], NoFaults), refs, k + 1, fs[1..]);
    }
  }

  lemma {:induction false} NamesStayUnique(db: Db, refs: seq<Reference>, fs: seq<Faults>)
    requires |fs| == |refs| && NamesUnique(db)
    ensures NamesUnique(AfterKeys(db, refs, fs))
    decreases |refs|
  {
    if refs != [] && !fs[0].dropTemp {
      NamesStayUnique(AfterKey(db, refs[0], fs[0]), refs[1..], fs[1..]);
    }
  }

  predicate Setting(db: Db, refs: seq<Reference>, fs: seq<Faults>) {
    && db.enforced == {} && db.recorded == [] && Ordered(refs)
    && (forall i :: 0 <= i < |refs| ==> Referable(db.tables, refs[i]))
    && |fs| == |refs| && Quiet(fs)
  }

  /** Under force, without faults: every enabled key ends up enforced and satisfied if and only if no two constraint
      names of a table are cut to the same identifier; and then a key is recorded if and only if its name fits. */
  lemma EveryKeyEnforcedIff(db: Db, refs: seq<Reference>, fs: seq<Faults>)
    requires Setting(db, refs, fs)
    ensures
      var after := AfterKeys(db, refs, fs);
      && ((forall i :: 0 <= i < |refs| ==> CutConstraint(refs[i]) in after.enforced && Satisfied(after.tables, refs[i])) <==>
          CutNamesDiffer(refs))
      && (CutNamesDiffer(refs) ==>
          && after.enforced == CutConstraints(refs)
          && forall i :: 0 <= i < |refs| ==> (CutConstraint(refs[i]) in after.recorded <==> Fits(refs[i])))
  {
    var after := AfterKeys(db, refs, fs);
    assert refs[..0] == [] && refs[0..] == refs && refs[..|refs|] == refs;
    if CutNamesDiffer(refs) {
      RemainingKeysEnforced(db, refs, 0, fs);
      AllEnforced(after, refs);
    } else {
      var i, j :| 0 <= i < j < |refs| && refs[i].referencingTable == refs[j].referencingTable &&
        CutConstraint(refs[i]).name == CutConstraint(refs[j]).name;
      NamesStayUnique(db, refs, fs);
      assert CutConstraint(refs[i]) != CutConstraint(refs[j]);
    }
  }

  lemma AllEnforced(after: Db, refs: seq<Reference>)
    requires Progress(after, refs, |refs|) && Ordered(refs)
    ensures after.enforced == CutConstraints(refs)
    ensures forall i :: 0 <= i < |refs| ==> CutConstraint(refs[i]) in after.enforced && Satisfied(after.tables, refs[i])
    ensures forall i :: 0 <= i < |refs| ==> (CutConstraint(refs[i]) in after.recorded <==> Fits(refs[i]))
  {
    assert refs[..|refs|] == refs;
    forall i | 0 <= i < |refs|
      ensures CutConstraint(refs[i]) in after.enforced && Satisfied(after.tables, refs[i])
      ensures CutConstraint(refs[i]) in after.recorded <==> Fits(refs[i])
    {
      assert CutConstraint(refs[i]) in after.enforced;
      if CutConstraint(refs[i]) in after.recorded {
        var j :| 0 <= j < |refs| && Fits(refs[j]) && CutConstraint(refs[i]) == CutConstraint(refs[j]);
        assert refs[i] == refs[j];
      }
    }
  }

  /** Names that fit are not cut, and those of one table differ. */
  lemma FittingNamesDiffer(refs: seq<Reference>)
    requires Ordered(refs) && forall i :: 0 <= i < |refs| ==> Fits(refs[i])
    ensures CutNamesDiffer(refs)
  {
    forall i, j | 0 <= i < j < |refs| && refs[i].referencingTable == refs[j].referencingTable
      ensures CutConstraint(refs[i]).name != CutConstraint(refs[j]).name
    {
      if ConstraintName(refs[i]) == ConstraintName(refs[j]) {
        NamesDiffer(refs[i], refs[j]);
      }
    }
  }

  function Colliding(p: string): seq<Reference> {
    [Reference("u_t", p + "a", "u_s", "id"), Reference("u_t", p + "b", "u_s", "id")]
  }

  /** Two keys of one table whose names are cut alike, although their columns are short enough: at most one of the two
      is enforced. */
  lemma CutNamesCanCollide(p: string, db: Db)
    requires |p| == 61 && db.enforced == {} && db.recorded == []
    requires db.tables == map["u_t" := Table({"id", p + "a", p + "b"}, {"id"}, []), "u_s" := Table({"id"}, {"id"}, [])]
    ensures Setting(db, Colliding(p), [NoFaults, NoFaults]) && !CutNamesDiffer(Colliding(p))
    ensures exists i :: 0 <= i < 2 && CutConstraint(Colliding(p)[i]) !in AfterKeys(db, Colliding(p), [NoFaults, NoFaults]).enforced
  {
    var refs := Colliding(p);
    CutAlike(p, "a");
    CutAlike(p, "b");
    assert (p + "a")[61] != (p + "b")[61];
    NamesStayUnique(db, refs, [NoFaults, NoFaults]);
    assert CutConstraint(refs[0]).name == CutConstraint(refs[1]).name && CutConstraint(refs[0]) != CutConstraint(refs[1]);
  }

  lemma CutAlike(p: string, last: string)
    requires |p| == 61
    ensures Truncated(ConstraintName(Reference("u_t", p + last, "u_s", "id"))) == "t_" + p
  {
    assert AfterFirstUnderscore("u_t") == "t";
    assert ("t" + "_" + (p + last) + "_fk")[..63] == "t_" + p;
  }

  /** A recorded constraint name always fits the catalog column. */
  ghost predicate RecordedFit(db: Db) {
    forall c :: c in db.recorded ==> |c.name| <= NameLimit && c.name == ConstraintName(c.ref)
  }

  lemma {:induction false} LongNameNeverRecorded(db: Db, refs: seq<Reference>, fs: seq<Faults>)
    requires |fs| == |refs| && RecordedFit(db)
    ensures RecordedFit(AfterKeys(db, refs, fs))
    decreases |refs|
  {
    if refs != [] && !fs[0].dropTemp {
      LongNameNeverRecorded(AfterKey(db, refs[0], fs[0]), refs[1..], fs[1..]);
    }
  }

  /** Every key is recorded exactly when every constraint name fits. */
  lemma EveryKeyRecordedIffNamesFit(db: Db, refs: seq<Reference>, fs: seq<Faults>)
    requires Setting(db, refs, fs)
    ensures (forall i :: 0 <= i < |refs| ==> CutConstraint(refs[i]) in AfterKeys(db, refs, fs).recorded) <==>
      (forall i :: 0 <= i < |refs| ==> Fits(refs[i]))
  {
    if forall i :: 0 <= i < |refs| ==> Fits(refs[i]) {
      FittingNamesDiffer(refs);
      EveryKeyEnforcedIff(db, refs, fs);
    } else {
      var i :| 0 <= i < |refs| && !Fits(refs[i]);
      LongNameNeverRecorded(db, refs, fs);
      assert CutConstraint(refs[i]) !in AfterKeys(db, refs, fs).recorded;
    }
  }

  /** The failing case: a key whose name is too long is enforced but never recorded, so its referenced table can no
      longer be dropped. */
  lemma LongNameBlocksDrop(db: Db, ref: Reference)
    requires db.enforced == {} && db.recorded == [] && Referable(db.tables, ref) && !Fits(ref)
    ensures
      var after := AfterKeys(db, [ref], [NoFaults]);
      && after.recorded == [] && after.enforced == {Constraint(Truncated(ConstraintName(ref)), ref)}
      && DropTable(after, ref.referencedTable).None?
  {
    DeleteSucceeds(db, ref);
    var after := AfterKey(db, ref, NoFaults);
    assert AfterKeys(after, [ref][1..], [NoFaults][1..]) == after;
    assert Constraint(Truncated(ConstraintName(ref)), ref) in after.enforced;
  }
  // ---- The order of the keys decides -----------------------------------------------------------

  predicate MissesTarget(tables: map<string, Table>, ref: Reference, row: TableRow)
    requires Readable(tables, ref)
  {
    ref.referencingColumn in row && row[ref.referencingColumn] !in ValuesIn(tables[ref.referencedTable], ref.referencedColumn)
  }

  /** Two keys that can be enforced: the first references the table of the second, where row k has no target for the
      second key, while some row has it as its target by the first. */
  ghost predicate Entangled(db: Db, first: Reference, second: Reference, k: nat) {
    && db.enforced == {} && db.recorded == [] && Referable(db.tables, first) && Referable(db.tables, second)
    && first.referencedTable == second.referencingTable && first.referencingTable != second.referencedTable
    && Satisfied(db.tables, first)
    && UniqueColumn(db.tables[second.referencingTable].rows, first.referencedColumn)
    && k < |db.tables[second.referencingTable].rows|
    && MissesTarget(db.tables, second, db.tables[second.referencingTable].rows[k])
    && db.tables[second.referencingTable].rows[k][first.referencedColumn]
         in ValuesIn(db.tables[first.referencingTable], first.referencingColumn)
  }

  /** The row of a value in a unique column is the only one. */
  lemma PruningLosesValue(db: Db, first: Reference, second: Reference, k: nat)
    requires Entangled(db, first, second, k)
    ensures !Satisfied(db.tables, second) && !Satisfied(Pruned(db.tables, second), first)
  {
    var t, values := db.tables[second.referencingTable], Exceptions(db.tables, second);
    var row := t.rows[k];
    assert row[second.referencingColumn] in ValuesIn(t, second.referencingColumn);
    var kept := KeptRows(t.rows, second.referencingColumn, values);
    forall i | 0 <= i < |kept|
      ensures first.referencedColumn in kept[i] ==> kept[i][first.referencedColumn] != row[first.referencedColumn]
    {
      KeptRowsAre(t.rows, second.referencingColumn, values, kept[i]);
      var j :| 0 <= j < |t.rows| && t.rows[j] == kept[i];
      assert j != k;
    }
  }

  /** The constraint of the first key keeps the row from being deleted, and the second key is not enforced. */
  lemma EarlierKeyBlocks(db: Db, first: Reference, second: Reference, k: nat)
    requires Entangled(db, first, second, k)
    ensures Processed(db, [first, second]).enforced == {CutConstraint(first)}
  {
    var after := AfterKey(db, first, NoFaults);
    assert [first, second][..1] == [first] && [first][..0] == [];
    assert Processed(db, [first]) == after;
    KeyResult(db, first);
    DeleteResult(db, first);
    SatisfiedHasNoExceptions(db.tables, first);
    assert after.tables == db.tables && after.enforced == {CutConstraint(first)};
    PruningLosesValue(db, first, second, k);
    KeyResult(after, second);
    assert CutConstraint(first) in after.enforced;
  }

  /** The order of the keys decides whether both are enforced, although no names are cut alike. */
  lemma OrderDecides(db: Db, first: Reference, second: Reference, k: nat)
    requires Entangled(db, first, second, k)
    ensures CutNamesDiffer([first, second])
    ensures Processed(db, [first, second]).enforced == {CutConstraint(first)}
    ensures Processed(db, [second, first]).enforced == {CutConstraint(first), CutConstraint(second)}
  {
    EarlierKeyBlocks(db, first, second, k);
    var refs, fs := [second, first], [NoFaults, NoFaults];
    QuietIsProcessed(db, refs, fs);
    EveryKeyEnforcedIff(db, refs, fs);
    assert CutConstraints(refs) == {CutConstraint(first), CutConstraint(second)} by {
      assert refs[0] == second && refs[1] == first;
    }
  }

  /** Such tables: a row of u_b lacks its target in u_a, and a row of u_c refers to it. */
  lemma OrderCanDecide() returns (db: Db, first: Reference, second: Reference)
    ensures Entangled(db, first, second, 0)
  {
    first, second := Reference("u_c", "b", "u_b", "id"), Reference("u_b", "a", "u_a", "id");
    var rowB: TableRow, rowC: TableRow := map["id" := "b1", "a" := "a1"], map["id" := "c1", "b" := "b1"];
    var a, b, c := Table({"id"}, {"id"}, []), Table({"id", "a"}, {"id"}, [rowB]), Table({"id", "b"}, {"id"}, [rowC]);
    db := Db(map["u_a" := a, "u_b" := b, "u_c" := c], map[], {}, []);
    assert b.rows[0]["id"] in ValuesIn(b, "id") && c.rows[0]["b"] in ValuesIn(c, "b");
    assert ValuesIn(a, "id") == {};
  }
}
