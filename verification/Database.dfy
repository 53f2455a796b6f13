/** The database as the update process sees it: tables, histories, the foreign keys it enforces and the catalog of
    those that LDP recorded. Statements either apply fully or fail. */
module Database {
  import opened Wrappers
  import opened Identifiers
  import opened History

  /** A row without its null columns. */
  type TableRow = map<string, string>

  datatype Table = Table(columns: set<string>, keys: set<string>, rows: seq<TableRow>)

  datatype Reference = Reference(referencingTable: string, referencingColumn: string,
                                 referencedTable: string, referencedColumn: string)

  datatype Constraint = Constraint(name: string, ref: Reference)

  datatype Db = Db(tables: map<string, Table>, history: map<string, seq<HistoryRow>>,
                   enforced: set<Constraint>, recorded: seq<Constraint>)

  // ---- Integrity -------------------------------------------------------------------------------

  function ValuesIn(t: Table, column: string): set<string> {
    set i | 0 <= i < |t.rows| && column in t.rows[i] :: t.rows[i][column]
  }

  predicate HasColumn(tables: map<string, Table>, table: string, column: string) {
    table in tables && column in tables[table].columns
  }

  predicate Readable(tables: map<string, Table>, ref: Reference) {
    HasColumn(tables, ref.referencingTable, ref.referencingColumn) &&
    HasColumn(tables, ref.referencedTable, ref.referencedColumn)
  }

  /** Every non-null reference has a target. */
  predicate Satisfied(tables: map<string, Table>, ref: Reference) {
    Readable(tables, ref) &&
    ValuesIn(tables[ref.referencingTable], ref.referencingColumn)
      <= ValuesIn(tables[ref.referencedTable], ref.referencedColumn)
  }

  predicate AllSatisfied(tables: map<string, Table>, enforced: set<Constraint>) {
    forall c :: c in enforced ==> Satisfied(tables, c.ref)
  }

  // ---- Statements ------------------------------------------------------------------------------

  predicate NameTaken(enforced: set<Constraint>, table: string, name: string) {
    exists c :: c in enforced && c.ref.referencingTable == table && c.name == name
  }

  /** ALTER TABLE ... ADD CONSTRAINT ... FOREIGN KEY. */
  function AddForeignKey(db: Db, ref: Reference, name: string): Option<Db> {
    if Satisfied(db.tables, ref) && ref.referencedColumn in db.tables[ref.referencedTable].keys &&
       !NameTaken(db.enforced, ref.referencingTable, Truncated(name))
    then Some(db.(enforced := db.enforced + {Constraint(Truncated(name), ref)}))
    else None
  }

  /** The catalog has no row for the referencing column. */
  predicate Unlisted(db: Db, ref: Reference) {
    forall c :: c in db.recorded ==>
      c.ref.referencingTable != ref.referencingTable || c.ref.referencingColumn != ref.referencingColumn
  }

  /** INSERT INTO dbsystem.foreign_key_constraints, whose primary key is the referencing table and column. */
  function InsertCatalog(db: Db, ref: Reference, name: string): Option<Db> {
    if |name| <= NameLimit && Unlisted(db, ref)
    then Some(db.(recorded := db.recorded + [Constraint(name, ref)]))
    else None
  }

  /** ALTER TABLE ... DROP CONSTRAINT. */
  function DropConstraint(db: Db, table: string, name: string): Option<Db> {
    if table in db.tables && NameTaken(db.enforced, table, Truncated(name))
    then Some(db.(enforced := set c | c in db.enforced && !(c.ref.referencingTable == table && c.name == Truncated(name))))
    else None
  }

  function KeptRows(rows: seq<TableRow>, column: string, values: set<string>): seq<TableRow> {
    if rows == [] then []
    else
      (if column in rows[0] && rows[0][column] in values then [] else [rows[0]]) + KeptRows(rows[1..], column, values)
  }

  /** DELETE FROM table WHERE column IN (values). */
  function DeleteRows(db: Db, table: string, column: string, values: set<string>): Option<Db> {
    if !HasColumn(db.tables, table, column) then None
    else
      var t := db.tables[table];
      var tables := db.tables[table := t.(rows := KeptRows(t.rows, column, values))];
      if AllSatisfied(tables, db.enforced) then Some(db.(tables := tables)) else None
  }

  /** DELETE FROM table. */
  function ClearTable(db: Db, table: string): Option<Db> {
    if table !in db.tables then None
    else
      var tables := db.tables[table := db.tables[table].(rows := [])];
      if AllSatisfied(tables, db.enforced) then Some(db.(tables := tables)) else None
  }

  /** Another table's foreign key depends on this table. */
  predicate Blocked(enforced: set<Constraint>, table: string) {
    exists c :: c in enforced && c.ref.referencedTable == table && c.ref.referencingTable != table
  }

  /** DROP TABLE IF EXISTS, without CASCADE. */
  function DropTable(db: Db, table: string): Option<Db> {
    if table !in db.tables then Some(db)
    else if Blocked(db.enforced, table) then None
    else
      Some(db.(tables := db.tables - {table},
               enforced := set c | c in db.enforced && c.ref.referencingTable != table))
  }

  /** ALTER TABLE ... RENAME TO, for a table that no constraint mentions. */
  function RenameTable(db: Db, table: string, newName: string): Option<Db> {
    if table in db.tables && newName !in db.tables
    then Some(db.(tables := (db.tables - {table})[newName := db.tables[table]]))
    else None
  }

  predicate UniqueColumn(rows: seq<TableRow>, column: string) {
    (forall i :: 0 <= i < |rows| ==> column in rows[i]) &&
    (forall i, j :: 0 <= i < j < |rows| && column in rows[i] && column in rows[j] ==> rows[i][column] != rows[j][column])
  }

  /** ALTER TABLE ... ADD PRIMARY KEY (id), whose failure changes nothing. */
  function WithPrimaryKey(t: Table): Table {
    if "id" in t.columns && UniqueColumn(t.rows, "id") then t.(keys := t.keys + {"id"}) else t
  }

  // ---- Constraint names ------------------------------------------------------------------------

  function AfterFirstUnderscore(table: string): string {
    if table == "" then ""
    else if table[0] == '_' then table[1..]
    else AfterFirstUnderscore(table[1..])
  }

  function ConstraintName(ref: Reference): string {
    AfterFirstUnderscore(ref.referencingTable) + "_" + ref.referencingColumn + "_fk"
  }

  method MakeForeignKeyConstraintName(referencingTable: string, referencingColumn: string) returns (name: string)
    ensures forall ref: Reference | ref.referencingTable == referencingTable && ref.referencingColumn == referencingColumn ::
      name == ConstraintName(ref)
  {
    var p := 0;
    while p < |referencingTable| && referencingTable[p] != '_'
      invariant p <= |referencingTable|
      invariant AfterFirstUnderscore(referencingTable[p..]) == AfterFirstUnderscore(referencingTable)
    {
      assert referencingTable[p..][1..] == referencingTable[p + 1..];
      p := p + 1;
    }
    if p < |referencingTable| && referencingTable[p] == '_' {
      assert referencingTable[p..][1..] == referencingTable[p + 1..];
      p := p + 1;
    }
    name := referencingTable[p..] + "_" + referencingColumn + "_fk";
  }

  predicate Fits(ref: Reference) {
    |ConstraintName(ref)| <= NameLimit
  }

  /** On one table, keys on different columns get different names, unless the limit cuts them. */
  lemma NamesDiffer(a: Reference, b: Reference)
    requires a.referencingTable == b.referencingTable && ConstraintName(a) == ConstraintName(b)
    ensures a.referencingColumn == b.referencingColumn
  {
    var prefix := AfterFirstUnderscore(a.referencingTable) + "_";
    var x, y := ConstraintName(a), ConstraintName(b);
    assert x == prefix + a.referencingColumn + "_fk" && y == prefix + b.referencingColumn + "_fk";
    assert |a.referencingColumn| == |b.referencingColumn|;
    assert a.referencingColumn == x[|prefix|..|x| - 3];
    assert b.referencingColumn == y[|prefix|..|y| - 3];
  }

  // ---- The catalog invariant -------------------------------------------------------------------

  /** Recorded constraints are exactly the enforced ones. */
  ghost predicate Synced(db: Db) {
    forall c :: c in db.enforced <==> c in db.recorded
  }

  ghost predicate ProperNames(db: Db) {
    forall c :: c in db.enforced ==> Fits(c.ref) && c.name == ConstraintName(c.ref)
  }

  /** The primary key of the catalog. */
  ghost predicate CatalogKeys(recorded: seq<Constraint>) {
    forall i, j :: 0 <= i < j < |recorded| ==>
      recorded[i].ref.referencingTable != recorded[j].ref.referencingTable ||
      recorded[i].ref.referencingColumn != recorded[j].ref.referencingColumn
  }

  ghost predicate Sound(db: Db) {
    Synced(db) && ProperNames(db) && CatalogKeys(db.recorded) && AllSatisfied(db.tables, db.enforced)
  }

  /** No two enforced constraints of a table share a name. */
  ghost predicate NamesUnique(db: Db) {
    forall c, d :: c in db.enforced && d in db.enforced && c.ref.referencingTable == d.ref.referencingTable && c.name == d.name ==>
      c == d
  }

  /** What holds of any database that updates leave, recorded or not. */
  ghost predicate Tidy(db: Db) {
    && (forall c :: c in db.recorded ==> c in db.enforced && Fits(c.ref) && c.name == ConstraintName(c.ref))
    && NamesUnique(db) && CatalogKeys(db.recorded) && AllSatisfied(db.tables, db.enforced)
  }

  /** The enforced constraints that are not recorded. */
  function Strays(db: Db): set<Constraint> {
    set c | c in db.enforced && c !in db.recorded
  }

  lemma SoundIsTidy(db: Db)
    requires Sound(db)
    ensures Tidy(db) && Strays(db) == {}
  {
    forall c, d | c in db.enforced && d in db.enforced && c.ref.referencingTable == d.ref.referencingTable && c.name == d.name
      ensures c == d
    {
      NamesDiffer(c.ref, d.ref);
      var i :| 0 <= i < |db.recorded| && db.recorded[i] == c;
      var j :| 0 <= j < |db.recorded| && db.recorded[j] == d;
      assert i == j;
    }
  }

  /** The catalog's primary key follows from the names of the constraints. */
  lemma FreshNameFreshKey(db: Db, ref: Reference)
    requires Tidy(db) && Fits(ref) && !NameTaken(db.enforced, ref.referencingTable, ConstraintName(ref))
    ensures InsertCatalog(db, ref, ConstraintName(ref)).Some?
  {
    forall c | c in db.recorded
      ensures c.ref.referencingTable != ref.referencingTable || c.ref.referencingColumn != ref.referencingColumn
    {
      assert c in db.enforced;
      assert c.ref.referencingTable == ref.referencingTable && c.ref.referencingColumn == ref.referencingColumn ==>
        ConstraintName(c.ref) == ConstraintName(ref);
    }
  }
}
