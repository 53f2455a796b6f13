/** stage_merge of src/update.cpp: one transaction that replaces a table, extends its history and drops the recorded
    foreign keys; and whole sequences of what an update does to the database. */
module StageMerge {
  import opened Wrappers
  import opened Identifiers
  import opened History
  import opened Database
  import ForeignKeys

  function LoadingName(table: string): string {
    "ldp_" + table
  }

  /** What merge_table reads of the loading table. */
  function Snapshot(rows: seq<TableRow>): seq<LoadingRow> {
    if rows == [] then []
    else
      var row := rows[|rows| - 1];
      Snapshot(rows[..|rows| - 1]) +
      [LoadingRow(if "id" in row then row["id"] else "", if "data" in row then Some(row["data"]) else None)]
  }

  /** One update of a table: its staged rows unless staging failed, whether its columns call for a primary key,
      whether history is recorded, the transaction's time, and the statement at which a fault strikes, if any. */
  datatype Update =
    Update(table: string, staged: Option<Table>, keyed: bool, record: bool, now: int, faultAt: nat)

  // ---- The statements, in order ----------------------------------------------------------------

  /** Statement 1: staging creates and fills the loading table. */
  function Staged(db: Db, u: Update): Option<Db> {
    match DropTable(db, LoadingName(u.table))
    case None => None
    case Some(dropped) =>
      if u.faultAt == 1 || u.staged.None? then None
      else Some(dropped.(tables := dropped.tables[LoadingName(u.table) := u.staged.value]))
  }

  /** Statement 2: merge_table. */
  function HistoryMerged(db: Db, u: Update, latest: seq<HistoryRow>): Option<Db> {
    if !u.record then Some(db)
    else if u.faultAt == 2 || LoadingName(u.table) !in db.tables || u.table !in db.history then None
    else
      match Merged(db.history[u.table], latest, Snapshot(db.tables[LoadingName(u.table)].rows), u.now)
      case None => None
      case Some(h) => Some(db.(history := db.history[u.table := h]))
  }

  /** Statement 3: every recorded constraint is dropped. */
  function ConstraintsDropped(db: Db, refs: seq<Constraint>): Option<Db>
    decreases |refs|
  {
    if refs == [] then Some(db)
    else
      match DropConstraint(db, refs[0].ref.referencingTable, refs[0].name)
      case None => None
      case Some(dropped) => ConstraintsDropped(dropped, refs[1..])
  }

  function ConstraintsRemoved(db: Db, u: Update): Option<Db> {
    match ConstraintsDropped(db, db.recorded)
    case None => None
    case Some(dropped) => if u.faultAt == 3 then None else Some(dropped.(recorded := []))
  }

  /** Statements 4 and 5: drop_table and place_table. */
  function Placed(db: Db, u: Update): Option<Db> {
    match DropTable(db, u.table)
    case None => None
    case Some(dropped) => if u.faultAt == 4 || u.faultAt == 5 then None else RenameTable(dropped, LoadingName(u.table), u.table)
  }

  class Connection {
    var db: Db

    constructor (db: Db)
      ensures this.db == db
    {
      this.db := db;
    }

    method RemoveForeignKeyConstraints(u: Update) returns (ok: bool)
      modifies this
      ensures ok <==> ConstraintsRemoved(old(db), u).Some?
      ensures ok ==> db == ConstraintsRemoved(old(db), u).value
    {
      var refs := db.recorded;
      var i := 0;
      assert refs[0..] == refs;
      while i < |refs|
        invariant i <= |refs|
        invariant ConstraintsDropped(old(db), refs) == ConstraintsDropped(db, refs[i..])
      {
        assert refs[i..][0] == refs[i] && refs[i..][1..] == refs[i + 1..];
        var dropped := DropConstraint(db, refs[i].ref.referencingTable, refs[i].name);
        if dropped.None? {
          return false;
        }
        db := dropped.value;
        i := i + 1;
      }
      if u.faultAt == 3 {
        return false;
      }
      db := db.(recorded := []);
      ok := true;
    }

    /** The statements between BEGIN and COMMIT. */
    method Transact(u: Update, latest: seq<HistoryRow>) returns (ok: bool)
      modifies this
      ensures ok <==> Transacted(old(db), u, latest).Some?
      ensures ok ==> db == Transacted(old(db), u, latest).value
    {
      ok := false;
      var staged := Staged(db, u);
      if staged.None? {
        return;
      }
      db := staged.value;
      var merged := HistoryMerged(db, u, latest);
      if merged.None? {
        return;
      }
      db := merged.value;
      ok := RemoveForeignKeyConstraints(u);
      if !ok {
        return;
      }
      var placed := Placed(db, u);
      if placed.None? {
        return false;
      }
      db := placed.value;
    }

    /** Leaves the database untouched unless the transaction commits. */
    method StageMerge(u: Update) returns (committed: bool)
      modifies this
      ensures committed <==> Outcome(old(db), u).Some?
      ensures db == if committed then Outcome(old(db), u).value else old(db)
    {
      var latest := if u.record && u.table in db.history then LatestHistory(db.history[u.table]) else [];
      var saved := db;
      committed := Transact(u, latest);
      if !committed || u.faultAt == 6 {
        // The connection closes without COMMIT.
        db := saved;
        return false;
      }
      db := WithKey(db, u);
    }
  }

  function LatestBefore(db: Db, u: Update): seq<HistoryRow> {
    if u.record && u.table in db.history then LatestHistory(db.history[u.table]) else []
  }

  function Transacted(db: Db, u: Update, latest: seq<HistoryRow>): Option<Db> {
    match Staged(db, u)
    case None => None
    case Some(a) =>
      match HistoryMerged(a, u, latest)
      case None => None
      case Some(b) =>
        match ConstraintsRemoved(b, u)
        case None => None
        case Some(c) => Placed(c, u)
  }

  /** add_pkey_and_indexes. */
  function Keyed(t: Table, u: Update): Table {
    if u.keyed then WithPrimaryKey(t) else t
  }

  function WithKey(db: Db, u: Update): Db {
    if u.table in db.tables then db.(tables := db.tables[u.table := Keyed(db.tables[u.table], u)]) else db
  }

  /** The database after a committed update; a fault at statement 6 is one at COMMIT. */
  function Outcome(db: Db, u: Update): Option<Db> {
    match Transacted(db, u, LatestBefore(db, u))
    case None => None
    case Some(after) => if u.faultAt == 6 then None else Some(WithKey(after, u))
  }

  // ---- On a tidy database ----------------------------------------------------------------------

  /** These constraints can be dropped one after the other. */
  ghost predicate Droppable(db: Db, refs: seq<Constraint>) {
    && (forall c :: c in refs ==>
        c in db.enforced && Fits(c.ref) && c.name == ConstraintName(c.ref) && c.ref.referencingTable in db.tables)
    && NamesUnique(db) && CatalogKeys(refs)
  }

  lemma DropFirst(db: Db, refs: seq<Constraint>)
    requires Droppable(db, refs) && refs != []
    ensures
      var dropped := DropConstraint(db, refs[0].ref.referencingTable, refs[0].name);
      && dropped.Some? && dropped.value == db.(enforced := db.enforced - {refs[0]})
      && Droppable(dropped.value, refs[1..])
  {
    var c := refs[0];
    assert c in refs;
    assert refs == [c] + refs[1..];
    assert c !in refs[1..];
  }

  lemma {:induction false} AllDropped(db: Db, refs: seq<Constraint>)
    requires Droppable(db, refs)
    ensures ConstraintsDropped(db, refs) == Some(db.(enforced := set c | c in db.enforced && c !in refs))
    decreases |refs|
  {
    if refs == [] {
      assert (set c | c in db.enforced && c !in refs) == db.enforced;
    } else {
      DropFirst(db, refs);
      AllDropped(db.(enforced := db.enforced - {refs[0]}), refs[1..]);
      assert refs == [refs[0]] + refs[1..];
      assert (set c | c in db.enforced - {refs[0]} && c !in refs[1..]) == (set c | c in db.enforced && c !in refs);
    }
  }

  lemma TidyIsDroppable(db: Db)
    requires Tidy(db)
    ensures Droppable(db, db.recorded)
  {
    forall c | c in db.recorded
      ensures c.ref.referencingTable in db.tables
    {
      assert Satisfied(db.tables, c.ref);
    }
  }

  /** No foreign key mentions the loading table. */
  predicate LoadingFree(db: Db, table: string) {
    forall c :: c in db.enforced ==>
      c.ref.referencingTable != LoadingName(table) && c.ref.referencedTable != LoadingName(table)
  }

  /** The rows a run adds to the history of its table. */
  function HistoryAfter(db: Db, u: Update, staged: Table): Option<map<string, seq<HistoryRow>>> {
    if !u.record then Some(db.history)
    else if u.table !in db.history then None
    else
      match Merged(db.history[u.table], LatestBefore(db, u), Snapshot(staged.rows), u.now)
      case None => None
      case Some(h) => Some(db.history[u.table := h])
  }

  /** The unrecorded constraints of other tables. */
  function StraysElsewhere(db: Db, table: string): set<Constraint> {
    set c | c in Strays(db) && c.ref.referencingTable != table
  }

  /** On a tidy database an update commits unless staging fails, a fault strikes, the history's primary key is violated
      or an unrecorded constraint of another table references its table. What it leaves is the staged table in place
      of the old one, the merged history, and of the foreign keys the unrecorded ones of other tables. */
  lemma UpdateCommitsIff(db: Db, u: Update)
    requires Tidy(db) && LoadingFree(db, u.table)
    ensures Outcome(db, u).Some? <==>
      && u.staged.Some? && HistoryAfter(db, u, u.staged.value).Some? && !Struck(u)
      && !Blocked(Strays(db), u.table)
    ensures Outcome(db, u).Some? ==>
      Outcome(db, u).value ==
        Db((db.tables - {LoadingName(u.table)})[u.table := Keyed(u.staged.value, u)],
           HistoryAfter(db, u, u.staged.value).value, StraysElsewhere(db, u.table), [])
  {
    if u.staged.Some? && u.faultAt != 1 {
      var a := WithStaged(db, u);
      StagedOnTidy(db, u);
      MergedOnTidy(db, u);
      var merged := HistoryMerged(a, u, LatestBefore(db, u));
      if merged.Some? {
        RemovedOnTidy(db, merged.value, u);
        if u.faultAt != 3 {
          PlacedOnTidy(db, merged.value.(enforced := Strays(db), recorded := []), u);
        }
      }
    }
  }

  /** So on a sound database no foreign key ever blocks an update, and none is left. */
  lemma SoundUpdateCommits(db: Db, u: Update)
    requires Sound(db) && LoadingFree(db, u.table)
    ensures Outcome(db, u).Some? <==>
      u.staged.Some? && HistoryAfter(db, u, u.staged.value).Some? && !Struck(u)
    ensures Outcome(db, u).Some? ==>
      Outcome(db, u).value ==
        Db((db.tables - {LoadingName(u.table)})[u.table := Keyed(u.staged.value, u)],
           HistoryAfter(db, u, u.staged.value).value, {}, [])
  {
    SoundIsTidy(db);
    UpdateCommitsIff(db, u);
    assert StraysElsewhere(db, u.table) == {};
  }

  /** The ids are a key: no row lacks one, and no two rows share one. */
  predicate IdsAreKey(rows: seq<TableRow>) {
    forall i, j :: 0 <= i < |rows| && 0 <= j < |rows| ==>
      "id" in rows[i] && "id" in rows[j] && (rows[i]["id"] == rows[j]["id"] ==> i == j)
  }

  /** The table that a committed update leaves: the staged one, row for row, and `id` a primary key of it if and only if
      it was, or its columns call for one and the ids are a key. */
  lemma CommittedTable(db: Db, u: Update)
    requires Tidy(db) && LoadingFree(db, u.table) && Outcome(db, u).Some?
    ensures u.table in Outcome(db, u).value.tables && u.staged.Some?
    ensures
      var t, staged := Outcome(db, u).value.tables[u.table], u.staged.value;
      && t.columns == staged.columns && t.rows == staged.rows
      && (forall c :: c != "id" ==> (c in t.keys <==> c in staged.keys))
      && ("id" in t.keys <==> "id" in staged.keys || (u.keyed && "id" in staged.columns && IdsAreKey(staged.rows)))
  {
    UpdateCommitsIff(db, u);
    KeyIsUnique(u.staged.value.rows);
  }

  lemma KeyIsUnique(rows: seq<TableRow>)
    ensures UniqueColumn(rows, "id") <==> IdsAreKey(rows)
  {
    if IdsAreKey(rows) {
      forall i | 0 <= i < |rows|
        ensures "id" in rows[i]
      {
        assert "id" in rows[i] && "id" in rows[i];
      }
    }
    if UniqueColumn(rows, "id") {
      forall i, j | 0 <= i < |rows| && 0 <= j < |rows|
        ensures "id" in rows[i] && "id" in rows[j] && (rows[i]["id"] == rows[j]["id"] ==> i == j)
      {
        assert "id" in rows[i] && "id" in rows[j];
        if i < j {
          assert rows[i]["id"] != rows[j]["id"];
        }
      }
    }
  }

  function WithStaged(db: Db, u: Update): Db
    requires u.staged.Some?
  {
    db.(tables := (db.tables - {LoadingName(u.table)})[LoadingName(u.table) := u.staged.value])
  }

  lemma StagedOnTidy(db: Db, u: Update)
    requires LoadingFree(db, u.table) && u.staged.Some? && u.faultAt != 1
    ensures Staged(db, u) == Some(WithStaged(db, u))
  {
    NotBlocked(db, LoadingName(u.table));
  }

  lemma MergedOnTidy(db: Db, u: Update)
    requires u.staged.Some?
    ensures
      var merged, history := HistoryMerged(WithStaged(db, u), u, LatestBefore(db, u)), HistoryAfter(db, u, u.staged.value);
      && (merged.Some? <==> history.Some? && !(u.record && u.faultAt == 2))
      && (merged.Some? ==> merged.value == WithStaged(db, u).(history := history.value))
  {
  }

  lemma RemovedOnTidy(db: Db, b: Db, u: Update)
    requires Tidy(db) && LoadingFree(db, u.table) && u.staged.Some?
    requires b == WithStaged(db, u).(history := b.history)
    ensures ConstraintsRemoved(b, u) == if u.faultAt == 3 then None else Some(b.(enforced := Strays(db), recorded := []))
  {
    TidyIsDroppable(db);
    StillDroppable(db, b, LoadingName(u.table));
    AllDropped(b, b.recorded);
    assert (set c | c in b.enforced && c !in b.recorded) == Strays(db);
  }

  /** A fault strikes a statement that this update executes. */
  predicate Struck(u: Update) {
    u.faultAt == 1 || (u.record && u.faultAt == 2) || 3 <= u.faultAt <= 6
  }

  lemma NotBlocked(db: Db, loading: string)
    requires forall c :: c in db.enforced ==> c.ref.referencingTable != loading && c.ref.referencedTable != loading
    ensures DropTable(db, loading) == Some(db.(tables := db.tables - {loading}))
  {
    if loading in db.tables {
      assert (set c | c in db.enforced && c.ref.referencingTable != loading) == db.enforced;
    } else {
      assert db.tables - {loading} == db.tables;
    }
  }

  lemma StillDroppable(db: Db, b: Db, loading: string)
    requires Droppable(db, db.recorded) && b.enforced == db.enforced && b.recorded == db.recorded
    requires db.tables.Keys - {loading} <= b.tables.Keys
    requires forall c :: c in db.enforced ==> c.ref.referencingTable != loading
    ensures Droppable(b, b.recorded)
  {
  }

  lemma LoadingNameDiffers(table: string)
    ensures LoadingName(table) != table
  {
    assert |LoadingName(table)| == |table| + 4;
  }

  lemma DropOnTidy(db: Db, c: Db, table: string)
    requires Tidy(db) && c.enforced == Strays(db)
    requires table in db.tables ==> table in c.tables
    requires table !in db.tables ==> table !in c.tables
    ensures DropTable(c, table) ==
      if Blocked(Strays(db), table) then None
      else Some(c.(tables := c.tables - {table}, enforced := StraysElsewhere(db, table)))
  {
    if table !in db.tables {
      forall d | d in Strays(db)
        ensures d.ref.referencingTable != table && d.ref.referencedTable != table
      {
        assert Satisfied(db.tables, d.ref);
      }
      assert StraysElsewhere(db, table) == Strays(db) && c.tables - {table} == c.tables;
    }
    assert (set d | d in Strays(db) && d.ref.referencingTable != table) == StraysElsewhere(db, table);
  }

  lemma PlacedOnTidy(db: Db, c: Db, u: Update)
    requires Tidy(db) && u.staged.Some? && c.enforced == Strays(db) && c.recorded == []
    requires c.tables == (db.tables - {LoadingName(u.table)})[LoadingName(u.table) := u.staged.value]
    ensures Placed(c, u).Some? <==> u.faultAt != 4 && u.faultAt != 5 && !Blocked(Strays(db), u.table)
    ensures Placed(c, u).Some? ==>
      WithKey(Placed(c, u).value, u) ==
        c.(tables := (db.tables - {LoadingName(u.table)})[u.table := Keyed(u.staged.value, u)],
           enforced := StraysElsewhere(db, u.table))
  {
    LoadingNameDiffers(u.table);
    DropOnTidy(db, c, u.table);
    if Placed(c, u).Some? {
      var after := Placed(c, u).value;
      assert after.tables[u.table] == u.staged.value;
      assert after.tables[u.table := Keyed(u.staged.value, u)] ==
        (db.tables - {LoadingName(u.table)})[u.table := Keyed(u.staged.value, u)];
    }
  }

  // ---- Whatever the database -------------------------------------------------------------------

  /** History only grows, and its primary key holds, over any update. */
  lemma HistoryGrows(db: Db, u: Update, table: string)
    requires table in db.history && UniqueKeys(db.history[table])
    ensures
      var after := if Outcome(db, u).Some? then Outcome(db, u).value else db;
      table in after.history && UniqueKeys(after.history[table]) && db.history[table] <= after.history[table]
  {
    if Outcome(db, u).Some? {
      var a := Staged(db, u).value;
      var b := HistoryMerged(a, u, LatestBefore(db, u)).value;
      DroppedKeepsHistory(b, b.recorded);
      assert a.history == db.history;
      if u.record && table == u.table {
        var ins := History.Inserts(LatestBefore(db, u), Snapshot(a.tables[LoadingName(u.table)].rows), u.now);
        assert b.history[table] == db.history[table] + ins;
      }
    }
  }

  lemma {:induction false} DroppedKeepsHistory(db: Db, refs: seq<Constraint>)
    ensures ConstraintsDropped(db, refs).Some? ==>
      ConstraintsDropped(db, refs).value.history == db.history && ConstraintsDropped(db, refs).value.tables == db.tables
    decreases |refs|
  {
    if refs != [] {
      var dropped := DropConstraint(db, refs[0].ref.referencingTable, refs[0].name);
      if dropped.Some? {
        DroppedKeepsHistory(dropped.value, refs[1..]);
      }
    }
  }

  lemma {:induction false} DroppedKeepsOthers(db: Db, refs: seq<Constraint>, c: Constraint)
    requires c in db.enforced
    requires forall i :: 0 <= i < |refs| ==>
      refs[i].ref.referencingTable != c.ref.referencingTable || Truncated(refs[i].name) != c.name
    ensures ConstraintsDropped(db, refs).Some? ==> c in ConstraintsDropped(db, refs).value.enforced
    decreases |refs|
  {
    if refs != [] {
      var dropped := DropConstraint(db, refs[0].ref.referencingTable, refs[0].name);
      if dropped.Some? {
        DroppedKeepsOthers(dropped.value, refs[1..], c);
      }
    }
  }

  /** An enforced constraint that is not recorded stops every update of the table it references. */
  lemma UnrecordedConstraintBlocksUpdates(db: Db, u: Update, c: Constraint)
    requires c in db.enforced && c.ref.referencedTable == u.table && c.ref.referencingTable != u.table
    requires u.table in db.tables && LoadingFree(db, u.table)
    requires forall i :: 0 <= i < |db.recorded| ==>
      db.recorded[i].ref.referencingTable != c.ref.referencingTable || Truncated(db.recorded[i].name) != c.name
    ensures Outcome(db, u).None?
  {
    LoadingNameDiffers(u.table);
    NotBlocked(db, LoadingName(u.table));
    if Staged(db, u).Some? {
      var a := Staged(db, u).value;
      if HistoryMerged(a, u, LatestBefore(db, u)).Some? {
        var b := HistoryMerged(a, u, LatestBefore(db, u)).value;
        DroppedKeepsOthers(b, b.recorded, c);
        DroppedKeepsHistory(b, b.recorded);
      }
    }
  }

  predicate AllNull(t: Table, column: string) {
    forall i :: 0 <= i < |t.rows| ==> column !in t.rows[i]
  }

  /** No row of another table references the table under a constraint. */
  predicate Unreferenced(db: Db, table: string)
    requires AllSatisfied(db.tables, db.enforced)
  {
    forall c :: c in db.enforced && c.ref.referencedTable == table && c.ref.referencingTable != table ==>
      AllNull(db.tables[c.ref.referencingTable], c.ref.referencingColumn)
  }

  /** DELETE FROM table is refused if there is no such table or a row of another table references it; else it takes all
      rows of the table, and nothing else. */
  lemma ClearEmpties(db: Db, table: string)
    requires AllSatisfied(db.tables, db.enforced)
    ensures ClearTable(db, table).Some? <==> table in db.tables && Unreferenced(db, table)
    ensures ClearTable(db, table).Some? ==>
      var d := ClearTable(db, table).value;
      && d.history == db.history && d.enforced == db.enforced && d.recorded == db.recorded
      && d.tables.Keys == db.tables.Keys && d.tables[table] == db.tables[table].(rows := [])
      && forall other :: other in db.tables && other != table ==> d.tables[other] == db.tables[other]
  {
    if table in db.tables {
      var tables := db.tables[table := db.tables[table].(rows := [])];
      forall c | c in db.enforced
        ensures Satisfied(db.tables, c.ref)
        ensures Satisfied(tables, c.ref) <==>
          (c.ref.referencedTable == table && c.ref.referencingTable != table ==>
            AllNull(db.tables[c.ref.referencingTable], c.ref.referencingColumn))
      {
        EmptiedTarget(db, table, c.ref);
      }
    }
  }

  lemma EmptiedTarget(db: Db, table: string, ref: Reference)
    requires Satisfied(db.tables, ref) && table in db.tables
    ensures
      Satisfied(db.tables[table := db.tables[table].(rows := [])], ref) <==>
        (ref.referencedTable == table && ref.referencingTable != table ==>
          AllNull(db.tables[ref.referencingTable], ref.referencingColumn))
  {
    var from := db.tables[ref.referencingTable];
    if i :| 0 <= i < |from.rows| && ref.referencingColumn in from.rows[i] {
      assert from.rows[i][ref.referencingColumn] in ValuesIn(from, ref.referencingColumn);
    }
  }

  // ---- Runs of the update process --------------------------------------------------------------

  /** What an update run does to the database. */
  datatype Action =
    | Replace(u: Update)
    | Clear(table: string)
    | Keys(refs: seq<Reference>, fs: seq<ForeignKeys.Faults>)

  function After(db: Db, a: Action): Db {
    match a
    case Replace(u) => if Outcome(db, u).Some? then Outcome(db, u).value else db
    case Clear(table) => if ClearTable(db, table).Some? then ClearTable(db, table).value else db
    case Keys(refs, fs) => if |fs| == |refs| then ForeignKeys.AfterKeys(db, refs, fs) else db
  }

  function AfterAll(db: Db, actions: seq<Action>): Db {
    if actions == [] then db else After(AfterAll(db, actions[..|actions| - 1]), actions[|actions| - 1])
  }

  /** What the loop over the keys adds, it records. */
  predicate Recordable(db: Db, a: Action) {
    a.Keys? && |a.fs| == |a.refs| ==> ForeignKeys.AddedAreRecorded(db, a.refs, a.fs)
  }

  /** Tables named like loading tables take no part in foreign keys. */
  predicate NoLoadingKeys(a: Action) {
    a.Keys? ==> forall i :: 0 <= i < |a.refs| ==>
      !("ldp_" <= a.refs[i].referencingTable) && !("ldp_" <= a.refs[i].referencedTable)
  }

  ghost predicate LoadingUnused(db: Db) {
    forall c :: c in db.enforced ==> !("ldp_" <= c.ref.referencingTable) && !("ldp_" <= c.ref.referencedTable)
  }

  lemma {:induction false} KeysAvoidLoading(db: Db, refs: seq<Reference>, fs: seq<ForeignKeys.Faults>)
    requires |fs| == |refs| && LoadingUnused(db)
    requires forall i :: 0 <= i < |refs| ==> !("ldp_" <= refs[i].referencingTable) && !("ldp_" <= refs[i].referencedTable)
    ensures LoadingUnused(ForeignKeys.AfterKeys(db, refs, fs))
    decreases |refs|
  {
    if refs != [] && !fs[0].dropTemp {
      KeysAvoidLoading(ForeignKeys.AfterKey(db, refs[0], fs[0]), refs[1..], fs[1..]);
    }
  }

  lemma LoadingUnusedIsFree(db: Db, table: string)
    requires LoadingUnused(db)
    ensures LoadingFree(db, table)
  {
    assert "ldp_" <= LoadingName(table);
  }

  lemma AfterPrefix(db: Db, actions: seq<Action>, n: nat)
    requires n < |actions|
    ensures AfterAll(db, actions[..n + 1]) == After(AfterAll(db, actions[..n]), actions[n])
  {
    assert actions[..n + 1][..n] == actions[..n];
  }

  lemma StepStaysInStep(db: Db, a: Action)
    requires Sound(db) && LoadingUnused(db) && NoLoadingKeys(a)
    ensures Sound(After(db, a)) <==> Recordable(db, a)
    ensures LoadingUnused(After(db, a))
  {
    match a
    case Replace(u) =>
      LoadingUnusedIsFree(db, u.table);
      SoundUpdateCommits(db, u);
    case Clear(table) =>
    case Keys(refs, fs) =>
      if |fs| == |refs| {
        ForeignKeys.KeysSoundIff(db, refs, fs);
        KeysAvoidLoading(db, refs, fs);
      }
  }

  /** Every constraint that any of the actions adds is recorded. */
  ghost predicate AllRecordable(db: Db, actions: seq<Action>) {
    forall i :: 0 <= i < |actions| ==> Recordable(AfterAll(db, actions[..i]), actions[i])
  }

  lemma {:induction false} RecordableStaysSound(db: Db, actions: seq<Action>, n: nat)
    requires Sound(db) && LoadingUnused(db) && (forall i :: 0 <= i < |actions| ==> NoLoadingKeys(actions[i]))
    requires AllRecordable(db, actions) && n <= |actions|
    ensures Sound(AfterAll(db, actions[..n])) && LoadingUnused(AfterAll(db, actions[..n]))
    decreases n
  {
    if n > 0 {
      RecordableStaysSound(db, actions, n - 1);
      AfterPrefix(db, actions, n - 1);
      StepStaysInStep(AfterAll(db, actions[..n - 1]), actions[n - 1]);
    }
  }

  lemma {:induction false} LoadingStaysUnused(db: Db, actions: seq<Action>, n: nat)
    requires LoadingUnused(db) && (forall i :: 0 <= i < |actions| ==> NoLoadingKeys(actions[i])) && n <= |actions|
    requires forall i :: 0 <= i < n ==> Sound(AfterAll(db, actions[..i]))
    ensures LoadingUnused(AfterAll(db, actions[..n]))
    decreases n
  {
    if n > 0 {
      LoadingStaysUnused(db, actions, n - 1);
      AfterPrefix(db, actions, n - 1);
      StepStaysInStep(AfterAll(db, actions[..n - 1]), actions[n - 1]);
    }
  }

  lemma SoundNeedsRecordable(db: Db, actions: seq<Action>, n: nat)
    requires LoadingUnused(db) && (forall i :: 0 <= i < |actions| ==> NoLoadingKeys(actions[i])) && n < |actions|
    requires forall i :: 0 <= i <= |actions| ==> Sound(AfterAll(db, actions[..i]))
    ensures Recordable(AfterAll(db, actions[..n]), actions[n])
  {
    LoadingStaysUnused(db, actions, n);
    AfterPrefix(db, actions, n);
    assert Sound(AfterAll(db, actions[..n + 1]));
    StepStaysInStep(AfterAll(db, actions[..n]), actions[n]);
  }

  /** Over any sequence of updates, clearings and key processing, with any failures, the catalog equals what is
      enforced at every moment if and only if every constraint that is added is recorded. */
  lemma CatalogStaysInStepIff(db: Db, actions: seq<Action>)
    requires Sound(db) && LoadingUnused(db) && forall i :: 0 <= i < |actions| ==> NoLoadingKeys(actions[i])
    ensures (forall n :: 0 <= n <= |actions| ==> Sound(AfterAll(db, actions[..n]))) <==> AllRecordable(db, actions)
  {
    if AllRecordable(db, actions) {
      forall n | 0 <= n <= |actions|
        ensures Sound(AfterAll(db, actions[..n]))
      {
        RecordableStaysSound(db, actions, n);
      }
    } else if forall n :: 0 <= n <= |actions| ==> Sound(AfterAll(db, actions[..n])) {
      forall i | 0 <= i < |actions|
        ensures Recordable(AfterAll(db, actions[..i]), actions[i])
      {
        SoundNeedsRecordable(db, actions, i);
      }
    }
  }

  /** As long as the catalog was in step, no foreign key blocks the next update. */
  lemma NextUpdateCommits(db: Db, actions: seq<Action>, u: Update)
    requires Sound(db) && LoadingUnused(db) && forall i :: 0 <= i < |actions| ==> NoLoadingKeys(actions[i])
    requires AllRecordable(db, actions)
    ensures Outcome(AfterAll(db, actions), u).Some? <==>
      u.staged.Some? && HistoryAfter(AfterAll(db, actions), u, u.staged.value).Some? && !Struck(u)
  {
    RecordableStaysSound(db, actions, |actions|);
    assert actions[..|actions|] == actions;
    LoadingUnusedIsFree(AfterAll(db, actions), u.table);
    SoundUpdateCommits(AfterAll(db, actions), u);
  }

  // ---- History over update runs ----------------------------------------------------------------

  /** An update as a run of its history. */
  function RunOf(db: Db, u: Update): Run {
    Run(u.now, if u.staged.Some? then Snapshot(u.staged.value.rows) else [], Outcome(db, u).Some?)
  }

  /** The runs that concern the history of one table, as History sees them. */
  function RunsOf(db: Db, actions: seq<Action>, table: string): seq<Run> {
    if actions == [] then []
    else
      var before, a := actions[..|actions| - 1], actions[|actions| - 1];
      RunsOf(db, before, table) +
      (if a.Replace? && a.u.table == table && a.u.record then [RunOf(AfterAll(db, before), a.u)] else [])
  }

  /** How one update changes the history of a table. */
  lemma OutcomeHistory(db: Db, u: Update, table: string)
    requires table in db.history && Outcome(db, u).Some?
    ensures table in Outcome(db, u).value.history
    ensures Outcome(db, u).value.history[table] ==
      if u.record && u.table == table
      then db.history[table] + History.Inserts(LatestHistory(db.history[table]), Snapshot(u.staged.value.rows), u.now)
      else db.history[table]
  {
    var a := Staged(db, u).value;
    assert a.history == db.history && a.tables[LoadingName(u.table)] == u.staged.value;
    var b := HistoryMerged(a, u, LatestBefore(db, u)).value;
    DroppedKeepsHistory(b, b.recorded);
  }

  /** Whatever updates commit, abort or fail, the history table is the log of the runs that committed. */
  lemma {:induction false} HistoryFollowsRuns(db: Db, earlier: seq<Run>, actions: seq<Action>, table: string)
    requires table in db.history && db.history[table] == HistoryOf(earlier)
    ensures Logged(AfterAll(db, actions), earlier + RunsOf(db, actions, table), table)
    decreases |actions|
  {
    if actions == [] {
      assert earlier + [] == earlier;
    } else {
      HistoryFollowsRuns(db, earlier, actions[..|actions| - 1], table);
      ActionStep(db, earlier, actions, table);
    }
  }

  /** The table's history is the log of these runs. */
  predicate Logged(db: Db, runs: seq<Run>, table: string) {
    table in db.history && db.history[table] == HistoryOf(runs)
  }

  lemma ActionStep(db: Db, earlier: seq<Run>, actions: seq<Action>, table: string)
    requires actions != []
    requires
      var before := actions[..|actions| - 1];
      Logged(AfterAll(db, before), earlier + RunsOf(db, before, table), table)
    ensures Logged(AfterAll(db, actions), earlier + RunsOf(db, actions, table), table)
  {
    var before, a := actions[..|actions| - 1], actions[|actions| - 1];
    assert actions == before + [a];
    if a.Replace? {
      ReplaceStep(db, earlier, before, a.u, table);
    } else {
      OtherStep(db, before, a, table);
    }
  }

  lemma ReplaceStep(db: Db, earlier: seq<Run>, before: seq<Action>, u: Update, table: string)
    requires
      var d := AfterAll(db, before);
      table in d.history && d.history[table] == HistoryOf(earlier + RunsOf(db, before, table))
    ensures
      var d := After(AfterAll(db, before), Replace(u));
      table in d.history && d.history[table] == HistoryOf(earlier + RunsOf(db, before + [Replace(u)], table))
  {
    var d := AfterAll(db, before);
    if Outcome(d, u).Some? {
      OutcomeHistory(d, u, table);
    }
    RunsStep(db, earlier, before, u, table);
  }

  lemma OtherStep(db: Db, before: seq<Action>, a: Action, table: string)
    requires !a.Replace?
    ensures RunsOf(db, before + [a], table) == RunsOf(db, before, table)
    ensures After(AfterAll(db, before), a).history == AfterAll(db, before).history
  {
    assert (before + [a])[..|before|] == before;
    if a.Keys? && |a.fs| == |a.refs| {
      KeysKeepHistory(AfterAll(db, before), a.refs, a.fs);
    }
  }

  lemma HistorySnoc(runs: seq<Run>, run: Run)
    ensures HistoryOf(runs + [run]) ==
      if run.committed then HistoryOf(runs) + History.Inserts(LatestHistory(HistoryOf(runs)), run.snapshot, run.time)
      else HistoryOf(runs)
  {
    assert (runs + [run])[..|runs|] == runs && (runs + [run])[|runs|] == run;
  }

  lemma RunsStep(db: Db, earlier: seq<Run>, before: seq<Action>, u: Update, table: string)
    ensures
      var runs, d := earlier + RunsOf(db, before, table), AfterAll(db, before);
      HistoryOf(earlier + RunsOf(db, before + [Replace(u)], table)) ==
        if u.record && u.table == table && Outcome(d, u).Some? && u.staged.Some?
        then HistoryOf(runs) + History.Inserts(LatestHistory(HistoryOf(runs)), Snapshot(u.staged.value.rows), u.now)
        else HistoryOf(runs)
  {
    var runs, run := RunsOf(db, before, table), RunOf(AfterAll(db, before), u);
    RunsSnoc(db, before, u, table);
    if u.record && u.table == table {
      HistorySnoc(earlier + runs, run);
      assert earlier + (runs + [run]) == earlier + runs + [run];
    }
  }

  lemma RunsSnoc(db: Db, before: seq<Action>, u: Update, table: string)
    ensures RunsOf(db, before + [Replace(u)], table) ==
      if u.record && u.table == table then RunsOf(db, before, table) + [RunOf(AfterAll(db, before), u)]
      else RunsOf(db, before, table)
  {
    var actions := before + [Replace(u)];
    assert actions[..|before|] == before && actions[|before|] == Replace(u);
  }

  lemma {:induction false} KeysKeepHistory(db: Db, refs: seq<Reference>, fs: seq<ForeignKeys.Faults>)
    requires |fs| == |refs|
    ensures ForeignKeys.AfterKeys(db, refs, fs).history == db.history
    decreases |refs|
  {
    if refs != [] && !fs[0].dropTemp {
      KeysKeepHistory(ForeignKeys.AfterKey(db, refs[0], fs[0]), refs[1..], fs[1..]);
    }
  }

  /** The history as of a committed update still shows each record that the update staged, whatever happened before
      and since. */
  lemma HistoryShowsEveryUpdate(db: Db, earlier: seq<Run>, actions: seq<Action>, table: string, n: nat, id: string)
    requires table in db.history && db.history[table] == HistoryOf(earlier)
    requires WellFormed(earlier + RunsOf(db, actions, table)) && n < |RunsOf(db, actions, table)|
    requires
      var run := RunsOf(db, actions, table)[n];
      run.committed && DataIn(run.snapshot, id).Some?
    ensures
      var run := RunsOf(db, actions, table)[n];
      table in AfterAll(db, actions).history &&
      exists row :: InForce(AfterAll(db, actions).history[table], id, run.time, row) &&
        row.data == DataIn(run.snapshot, id).value &&
        forall other :: InForce(AfterAll(db, actions).history[table], id, run.time, other) ==> other.data == row.data
  {
    var runs := RunsOf(db, actions, table);
    HistoryFollowsRuns(db, earlier, actions, table);
    assert (earlier + runs)[|earlier| + n] == runs[n];
    HistoryShowsEveryRun(earlier + runs, |earlier| + n, id);
  }
}
