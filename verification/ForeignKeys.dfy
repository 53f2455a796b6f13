/** process_foreign_keys of src/update.cpp: each statement may fail and the failure is swallowed. */
module ForeignKeys {
  import opened Wrappers
  import opened Identifiers
  import opened Database

  /** Which statements fail although they could succeed. */
  datatype Faults = Faults(create: bool, delete: bool, dropTemp: bool, add: bool, insert: bool)

  const NoFaults := Faults(false, false, false, false, false)

  /** Referencing values without a target: NOT IN over the referenced column, which is empty-handed when that
      column holds a null. */
  function Exceptions(tables: map<string, Table>, ref: Reference): set<string>
    requires Readable(tables, ref)
  {
    var target := tables[ref.referencedTable];
    if exists i :: 0 <= i < |target.rows| && ref.referencedColumn !in target.rows[i] then {}
    else ValuesIn(tables[ref.referencingTable], ref.referencingColumn) - ValuesIn(target, ref.referencedColumn)
  }

  /** CREATE TEMPORARY TABLE temp_foreign_key_exceptions, which lists the ids of the referencing rows too. */
  function Found(db: Db, ref: Reference, f: Faults): Option<set<string>> {
    if f.create || !Readable(db.tables, ref) || !HasColumn(db.tables, ref.referencingTable, "id") then None
    else Some(Exceptions(db.tables, ref))
  }

  function AfterDelete(db: Db, ref: Reference, f: Faults): Db {
    match Found(db, ref, f)
    case None => db
    case Some(values) =>
      var deleted := DeleteRows(db, ref.referencingTable, ref.referencingColumn, values);
      if f.delete || deleted.None? then db else deleted.value
  }

  predicate Adds(db: Db, ref: Reference, f: Faults) {
    !f.add && AddForeignKey(db, ref, ConstraintName(ref)).Some?
  }

  predicate Inserts(db: Db, ref: Reference, f: Faults) {
    !f.insert && InsertCatalog(db, ref, ConstraintName(ref)).Some?
  }

  function AfterConstraint(db: Db, ref: Reference, f: Faults): Db {
    if !Adds(db, ref, f) then db
    else
      var added := AddForeignKey(db, ref, ConstraintName(ref)).value;
      if Inserts(added, ref, f) then InsertCatalog(added, ref, ConstraintName(ref)).value else added
  }

  /** One key under force. */
  function AfterKey(db: Db, ref: Reference, f: Faults): Db {
    var deleted := AfterDelete(db, ref, f);
    if f.dropTemp then deleted else AfterConstraint(deleted, ref, f)
  }

  /** The constraint the server enforces for a key: identifiers are cut. */
  function CutConstraint(ref: Reference): Constraint {
    Constraint(Truncated(ConstraintName(ref)), ref)
  }

  /** All keys; a failing DROP of the temporary table ends the processing. */
  function AfterKeys(db: Db, refs: seq<Reference>, fs: seq<Faults>): Db
    requires |fs| == |refs|
    decreases |refs|
  {
    if refs == [] then db
    else if fs[0].dropTemp then AfterKey(db, refs[0], fs[0])
    else AfterKeys(AfterKey(db, refs[0], fs[0]), refs[1..], fs[1..])
  }

  class Session {
    var db: Db

    constructor (db: Db)
      ensures this.db == db
    {
      this.db := db;
    }

    /** Returns whether the loop went through all keys. */
    method ProcessForeignKeys(refs: seq<Reference>, force: bool, fs: seq<Faults>) returns (done: bool)
      requires |fs| == |refs|
      modifies this
      ensures db == if force then AfterKeys(old(db), refs, fs) else old(db)
      ensures done <==> forall i :: 0 <= i < |fs| ==> !fs[i].dropTemp
    {
      var i := 0;
      assert refs[0..] == refs && fs[0..] == fs;
      while i < |refs|
        invariant i <= |refs|
        invariant forall k :: 0 <= k < i ==> !fs[k].dropTemp
        invariant if force then AfterKeys(db, refs[i..], fs[i..]) == AfterKeys(old(db), refs, fs) else db == old(db)
      {
        var ref, f := refs[i], fs[i];
        assert refs[i..][1..] == refs[i + 1..] && fs[i..][1..] == fs[i + 1..];
        if force {
          ProcessKey(ref, f);
        }
        if f.dropTemp {
          return false;
        }
        i := i + 1;
      }
      done := true;
    }

    method ProcessKey(ref: Reference, f: Faults)
      modifies this
      ensures db == AfterKey(old(db), ref, f)
    {
      var exceptions := Found(db, ref, f);
      if exceptions.Some? && !f.delete {
        var deleted := DeleteRows(db, ref.referencingTable, ref.referencingColumn, exceptions.value);
        if deleted.Some? {
          db := deleted.value;
        }
      }
      if f.dropTemp {
        return;
      }
      var constraintName := MakeForeignKeyConstraintName(ref.referencingTable, ref.referencingColumn);
      var added := AddForeignKey(db, ref, constraintName);
      if f.add || added.None? {
        return;
      }
      db := added.value;
      var inserted := InsertCatalog(db, ref, constraintName);
      if f.insert || inserted.None? {
        return;
      }
      db := inserted.value;
    }
  }

  // ---- The catalog stays in step ---------------------------------------------------------------

  lemma DeleteKeepsSound(db: Db, ref: Reference, f: Faults)
    requires Sound(db)
    ensures Sound(AfterDelete(db, ref, f))
    ensures AfterDelete(db, ref, f).enforced == db.enforced && AfterDelete(db, ref, f).recorded == db.recorded
  {
  }

  /** The constraint step keeps the catalog in step, except exactly when the constraint is added and its record is
      not: its name is longer than the catalog column, or the INSERT fails. */
  lemma ConstraintStepSound(db: Db, ref: Reference, f: Faults)
    requires Sound(db)
    ensures Synced(AfterConstraint(db, ref, f)) <==> (Adds(db, ref, f) ==> Fits(ref) && !f.insert)
    ensures Synced(AfterConstraint(db, ref, f)) ==> Sound(AfterConstraint(db, ref, f))
  {
  }

  /** One key, any swallowed failures. */
  lemma KeyStepSound(db: Db, ref: Reference, f: Faults)
    requires Sound(db)
    ensures Synced(AfterKey(db, ref, f)) <==>
      (!f.dropTemp && Adds(AfterDelete(db, ref, f), ref, f) ==> Fits(ref) && !f.insert)
    ensures Synced(AfterKey(db, ref, f)) ==> Sound(AfterKey(db, ref, f))
  {
    DeleteKeepsSound(db, ref, f);
    ConstraintStepSound(AfterDelete(db, ref, f), ref, f);
  }

  /** At every key the loop reaches, a constraint that is added is recorded: its name fits and its INSERT succeeds. */
  predicate AddedAreRecorded(db: Db, refs: seq<Reference>, fs: seq<Faults>)
    requires |fs| == |refs|
    decreases |refs|
  {
    refs == [] ||
    (!fs[0].dropTemp ==>
      (Adds(AfterDelete(db, refs[0], fs[0]), refs[0], fs[0]) ==> Fits(refs[0]) && !fs[0].insert) &&
      AddedAreRecorded(AfterKey(db, refs[0], fs[0]), refs[1..], fs[1..]))
  }

  /** An enforced constraint that is not in the catalog. */
  ghost predicate Orphan(db: Db, c: Constraint) {
    c in db.enforced && c !in db.recorded
  }

  lemma OrphanStays(db: Db, ref: Reference, f: Faults, c: Constraint)
    requires Orphan(db, c)
    ensures Orphan(AfterKey(db, ref, f), c)
  {
    var deleted := AfterDelete(db, ref, f);
    assert deleted.enforced == db.enforced && deleted.recorded == db.recorded;
    if !f.dropTemp && Adds(deleted, ref, f) && Fits(ref) {
      assert !NameTaken(deleted.enforced, ref.referencingTable, ConstraintName(ref));
      assert Constraint(ConstraintName(ref), ref) != c;
    }
  }

  /** No later key of the loop records it. */
  lemma {:induction false} OrphanRemains(db: Db, refs: seq<Reference>, fs: seq<Faults>, c: Constraint)
    requires |fs| == |refs| && Orphan(db, c)
    ensures Orphan(AfterKeys(db, refs, fs), c)
    decreases |refs|
  {
    if refs != [] {
      OrphanStays(db, refs[0], fs[0], c);
      if !fs[0].dropTemp {
        OrphanRemains(AfterKey(db, refs[0], fs[0]), refs[1..], fs[1..], c);
      }
    }
  }

  lemma LostRecordLeavesOrphan(db: Db, ref: Reference, f: Faults)
    requires Sound(db) && !f.dropTemp && Adds(AfterDelete(db, ref, f), ref, f) && !(Fits(ref) && !f.insert)
    ensures Orphan(AfterKey(db, ref, f), Constraint(Truncated(ConstraintName(ref)), ref))
  {
    DeleteKeepsSound(db, ref, f);
    var deleted, c := AfterDelete(db, ref, f), Constraint(Truncated(ConstraintName(ref)), ref);
    assert c !in deleted.enforced;
    assert c !in deleted.recorded;
  }

  /** Any keys in any order, with any swallowed failures: the catalog is in step afterwards if and only if every
      constraint that the loop adds is recorded. */
  lemma {:induction false} KeysSoundIff(db: Db, refs: seq<Reference>, fs: seq<Faults>)
    requires Sound(db) && |fs| == |refs|
    ensures Synced(AfterKeys(db, refs, fs)) <==> AddedAreRecorded(db, refs, fs)
    ensures AddedAreRecorded(db, refs, fs) ==> Sound(AfterKeys(db, refs, fs))
    decreases |refs|
  {
    if refs != [] {
      var ref, f := refs[0], fs[0];
      KeyStepSound(db, ref, f);
      if !f.dropTemp {
        if Adds(AfterDelete(db, ref, f), ref, f) && !(Fits(ref) && !f.insert) {
          var c := Constraint(Truncated(ConstraintName(ref)), ref);
          LostRecordLeavesOrphan(db, ref, f);
          OrphanRemains(AfterKey(db, ref, f), refs[1..], fs[1..], c);
          assert Orphan(AfterKeys(db, refs, fs), c);
        } else {
          KeysSoundIff(AfterKey(db, ref, f), refs[1..], fs[1..]);
        }
      }
    }
  }
}
