/** Schema upgrades from version 14 on (src/init.cpp, src/dbup1.cpp), over a connection that may be lost before any
    statement. */
module Upgrade {
  import opened Wrappers

  type Name = string

  // ---- The database ----------------------------------------------------------------------------

  datatype Kind = Boolean | BigInt | Text | Uuid | Json | Jsonb | Timestamp

  datatype Value = Null | Flag(flag: bool) | Number(number: int) | Str(text: string) | UuidOf(uuid: string)
                 | JsonbOf(json: string)

  /** `used`: a view depends on the column. */
  datatype Column = Column(kind: Kind, notNull: bool, default: Value, used: bool)

  type Row = map<Name, Value>

  datatype Table = Table(columns: map<Name, Column>, rows: seq<Row>, readers: set<Name>)

  /** Schemas, and the tables in each. */
  type Db = map<Name, map<Name, Table>>

  datatype Qualified = Qualified(schema: Name, name: Name)

  predicate Has(db: Db, q: Qualified) {
    q.schema in db && q.name in db[q.schema]
  }

  function At(db: Db, q: Qualified): Table
    requires Has(db, q)
  {
    db[q.schema][q.name]
  }

  function Put(db: Db, q: Qualified, t: Table): Db
    requires q.schema in db
  {
    db[q.schema := db[q.schema][q.name := t]]
  }

  /** What an upgrade is given: the two users, the tables of the default schema, and the casts of the server. */
  datatype Env = Env(user: Name, configUser: Name, tables: seq<Name>,
                     toUuid: string -> Option<string>, toJsonb: string -> Option<string>)

  // ---- Statements ------------------------------------------------------------------------------

  datatype Change =
    | SetDefault(column: Name, default: Value)
    | DropNotNull(column: Name)
    | DropColumn(column: Name)
    | AddColumn(column: Name, definition: Column)
    | RenameColumn(column: Name, to: Name)
    | ConvertRecords
    | Grant(user: Name)
    | InsertName(name: Name)
    | SetNumber(column: Name, number: int)

  datatype Stmt =
    | On(table: Qualified, change: Change)
    | CreateTable(table: Qualified, definition: Table, ifNotExists: bool)
    | DropTable(table: Qualified)
    | RenameSchema(schema: Name, to: Name)

  function CastUuid(env: Env, v: Value): Option<Value> {
    match v
    case Null => Some(Null)
    case UuidOf(_) => Some(v)
    case Str(s) => (match env.toUuid(s) case Some(u) => Some(UuidOf(u)) case None => None)
    case _ => None
  }

  function CastJsonb(env: Env, v: Value): Option<Value> {
    match v
    case Null => Some(Null)
    case JsonbOf(_) => Some(v)
    case Str(s) => (match env.toJsonb(s) case Some(j) => Some(JsonbOf(j)) case None => None)
    case _ => None
  }

  function Cell(row: Row, column: Name): Value {
    if column in row then row[column] else Null
  }

  /** ALTER COLUMN id TYPE uuid, ALTER COLUMN data TYPE jsonb on the rows; one value that cannot be cast fails it. */
  function ConvertedRows(env: Env, rows: seq<Row>): Option<seq<Row>> {
    if rows == [] then Some([])
    else
      var id, data := CastUuid(env, Cell(rows[0], "id")), CastJsonb(env, Cell(rows[0], "data"));
      var rest := ConvertedRows(env, rows[1..]);
      if id.None? || data.None? || rest.None? then None
      else Some([rows[0]["id" := id.value]["data" := data.value]] + rest.value)
  }

  function WithoutColumn(row: Row, column: Name): Row {
    row - {column}
  }

  function RenamedIn(row: Row, column: Name, to: Name): Row {
    if column in row then (row - {column})[to := row[column]] else row
  }

  function MapRows(rows: seq<Row>, f: Row -> Row): (mapped: seq<Row>)
    ensures |mapped| == |rows| && forall i :: 0 <= i < |rows| ==> mapped[i] == f(rows[i])
  {
    seq(|rows|, i requires 0 <= i < |rows| => f(rows[i]))
  }

  predicate MissesNotNull(t: Table, given: Name) {
    exists c :: c in t.columns && c != given && t.columns[c].notNull && t.columns[c].default.Null?
  }

  /** A change to one table: the new table, or None if the server refuses. */
  function Changed(env: Env, t: Table, change: Change): Option<Table> {
    match change
    case SetDefault(c, v) =>
      if c in t.columns then Some(t.(columns := t.columns[c := t.columns[c].(default := v)])) else None
    case DropNotNull(c) =>
      if c in t.columns then Some(t.(columns := t.columns[c := t.columns[c].(notNull := false)])) else None
    case DropColumn(c) =>
      if c in t.columns && !t.columns[c].used then
        Some(t.(columns := t.columns - {c}, rows := MapRows(t.rows, row => WithoutColumn(row, c))))
      else None
    case AddColumn(c, d) =>
      if c in t.columns || (d.notNull && d.default.Null? && t.rows != []) then None
      else Some(t.(columns := t.columns[c := d], rows := MapRows(t.rows, row => row[c := d.default])))
    case RenameColumn(c, to) =>
      if c in t.columns && to !in t.columns then
        Some(t.(columns := (t.columns - {c})[to := t.columns[c]],
                rows := MapRows(t.rows, row => RenamedIn(row, c, to))))
      else None
    case ConvertRecords =>
      if "id" !in t.columns || "data" !in t.columns || t.columns["id"].used || t.columns["data"].used ||
         !(t.columns["data"].kind in {Json, Jsonb}) then None
      else
        (match ConvertedRows(env, t.rows)
         case None => None
         case Some(rows) =>
           Some(t.(columns := t.columns["id" := t.columns["id"].(kind := Uuid)]
                                       ["data" := t.columns["data"].(kind := Jsonb)],
                   rows := rows)))
    case Grant(user) => Some(t.(readers := t.readers + {user}))
    case InsertName(name) =>
      if "table_name" !in t.columns || MissesNotNull(t, "table_name") then None
      else Some(t.(rows := t.rows + [map c | c in t.columns :: if c == "table_name" then Str(name) else t.columns[c].default]))
    case SetNumber(c, n) =>
      if c in t.columns then Some(t.(rows := MapRows(t.rows, row => row[c := Number(n)]))) else None
  }

  predicate Used(t: Table) {
    exists c :: c in t.columns && t.columns[c].used
  }

  function Exec(env: Env, db: Db, s: Stmt): Option<Db> {
    match s
    case On(q, change) =>
      if !Has(db, q) then None
      else (match Changed(env, At(db, q), change) case Some(t) => Some(Put(db, q, t)) case None => None)
    case CreateTable(q, t, ifNotExists) =>
      if q.schema !in db then None
      else if q.name in db[q.schema] then (if ifNotExists then Some(db) else None)
      else Some(Put(db, q, t))
    case DropTable(q) =>
      if Has(db, q) && !Used(At(db, q)) then Some(db[q.schema := db[q.schema] - {q.name}]) else None
    case RenameSchema(schema, to) =>
      if schema in db && to !in db then Some((db - {schema})[to := db[schema]]) else None
  }

  // ---- Steps 15 to 35 --------------------------------------------------------------------------

  const LatestVersion := 35

  function NewTables(v: int): seq<Name> {
    match v
    case 20 => ["circulation_request_preference", "finance_ledger_fiscal_years", "user_addresstypes",
                "user_departments", "user_proxiesfor"]
    case 21 => ["configuration_entries"]
    case 22 => ["finance_expense_classes", "notes"]
    case 23 => ["srs_marc"]
    case 24 => ["circulation_check_ins"]
    case 25 => ["audit_circulation_logs"]
    case 26 => ["srs_records"]
    case 28 => ["inventory_holdings_sources"]
    case 29 => ["perm_permissions", "perm_users", "srs_error"]
    case 30 => ["patron_blocks_user_summary"]
    case 31 => ["template_engine_template"]
    case 32 => ["inventory_bound_with_part"]
    case 33 => ["acquisition_method"]
    case 35 => ["notes_link", "notes_note_link"]
    case _ => []
  }

  function Public(name: Name): Qualified {
    Qualified("public", name)
  }

  function HistoryOf(name: Name): Qualified {
    Qualified("history", name)
  }

  const General := Qualified("ldpconfig", "general")
  const GeneralLater := Qualified("dbconfig", "general")

  function Required(kind: Kind): Column {
    Column(kind, true, Null, false)
  }

  const MainTable := Table(map["id" := Required(Uuid), "data" := Column(Jsonb, false, Null, false)], [], {})

  const HistoryTable :=
    Table(map["id" := Required(Uuid), "data" := Required(Jsonb), "updated" := Required(Timestamp)], [], {})

  const SuggestedForeignKeys :=
    Table(map["enable_constraint" := Required(Boolean), "referencing_table" := Required(Text),
              "referencing_column" := Required(Text), "referenced_table" := Required(Text),
              "referenced_column" := Required(Text)], [], {})

  /** upgrade_add_new_table_dbsystem. */
  function AddTable(env: Env, name: Name): seq<Stmt> {
    [CreateTable(Public(name), MainTable, false),
     On(Public(name), Grant(env.user)),
     On(Public(name), Grant(env.configUser)),
     CreateTable(HistoryOf(name), HistoryTable, true),
     On(HistoryOf(name), Grant(env.user)),
     On(HistoryOf(name), Grant(env.configUser)),
     On(Qualified("dbsystem", "tables"), InsertName(name))]
  }

  function AddTables(env: Env, names: seq<Name>): seq<Stmt> {
    if names == [] then [] else AddTable(env, names[0]) + AddTables(env, names[1..])
  }

  /** One change to the main and to the history table of every name. */
  function OnEach(names: seq<Name>, change: Change): seq<Stmt> {
    if names == [] then []
    else [On(Public(names[0]), change), On(HistoryOf(names[0]), change)] + OnEach(names[1..], change)
  }

  /** The statements of step v before its version write. */
  function Body(env: Env, v: int): seq<Stmt> {
    match v
    case 15 => [On(General, SetDefault("disable_anonymization", Flag(false))),
                On(General, DropNotNull("update_all_tables"))]
    case 16 => [On(General, DropColumn("update_all_tables")),
                On(General, AddColumn("update_all_tables", Column(Boolean, true, Flag(false), false)))]
    case 17 => [CreateTable(Qualified("ldpsystem", "suggested_foreign_keys"), SuggestedForeignKeys, false)]
    case 18 => [RenameSchema("ldpsystem", "dbsystem"),
                DropTable(Qualified("dbsystem", "server_lock")),
                On(Qualified("dbsystem", "main"), RenameColumn("ldp_schema_version", "database_version")),
                RenameSchema("ldpconfig", "dbconfig")]
    case 19 => [On(GeneralLater, DropColumn("disable_anonymization")),
                On(Qualified("dbsystem", "main"), AddColumn("anonymize", Column(Boolean, true, Flag(true), false)))]
    case 27 => OnEach(env.tables, DropColumn("tenant_id"))
    case 34 => OnEach(env.tables, ConvertRecords)
    case _ => AddTables(env, NewTables(v))
  }

  /** Steps bracketed by BEGIN and COMMIT; each statement of the others commits alone. */
  predicate InTransaction(v: int) {
    v !in {15, 27, 34}
  }

  /** Steps that catch the failures of all statements but the version write. */
  predicate Swallows(v: int) {
    v in {27, 34}
  }

  function VersionWrite(v: int): Stmt {
    if v < 18 then On(Qualified("ldpsystem", "main"), SetNumber("ldp_schema_version", v))
    else On(Qualified("dbsystem", "main"), SetNumber("database_version", v))
  }

  // ---- The connection --------------------------------------------------------------------------

  /** Whether the connection stays up, or the number of statements after which it is lost. */
  datatype Line = Up | Cut(after: nat)

  datatype Work = Idle | Open(work: Db) | Aborted

  /** The committed database, the transaction in progress, and the line. */
  datatype Link = Link(db: Db, work: Work, line: Line)

  predicate Lost(line: Line) {
    line == Cut(0)
  }

  function Next(line: Line): Line
    requires !Lost(line)
  {
    if line.Up? then Up else Cut(line.after - 1)
  }

  /** A lost connection discards its transaction. */
  function Dropped(l: Link): Link {
    Link(l.db, Idle, Cut(0))
  }

  function Send(env: Env, l: Link, s: Stmt): (Link, bool) {
    if Lost(l.line) then (Dropped(l), false)
    else
      match l.work
      case Idle =>
        (match Exec(env, l.db, s)
         case Some(d) => (Link(d, Idle, Next(l.line)), true)
         case None => (Link(l.db, Idle, Next(l.line)), false))
      case Open(w) =>
        (match Exec(env, w, s)
         case Some(d) => (Link(l.db, Open(d), Next(l.line)), true)
         case None => (Link(l.db, Aborted, Next(l.line)), false))
      case Aborted => (Link(l.db, Aborted, Next(l.line)), false)
  }

  function Begin(l: Link): (Link, bool) {
    if Lost(l.line) then (Dropped(l), false)
    else (Link(l.db, if l.work.Idle? then Open(l.db) else l.work, Next(l.line)), true)
  }

  /** COMMIT of an aborted transaction rolls it back. */
  function Commit(l: Link): (Link, bool) {
    if Lost(l.line) then (Dropped(l), false)
    else (Link(if l.work.Open? then l.work.work else l.db, Idle, Next(l.line)), true)
  }

  // ---- An upgrade ------------------------------------------------------------------------------

  function SendAll(env: Env, l: Link, ss: seq<Stmt>, swallow: bool): (Link, bool)
    decreases |ss|
  {
    if ss == [] then (l, true)
    else
      var (next, ok) := Send(env, l, ss[0]);
      if ok || swallow then SendAll(env, next, ss[1..], swallow) else (next, false)
  }

  function RunStep(env: Env, l: Link, v: int): (Link, bool) {
    var (a, began) := if InTransaction(v) then Begin(l) else (l, true);
    if !began then (a, false)
    else
      var (b, done) := SendAll(env, a, Body(env, v), Swallows(v));
      if !done then (b, false)
      else
        var (c, wrote) := Send(env, b, VersionWrite(v));
        if !wrote then (c, false) else if InTransaction(v) then Commit(c) else (c, true)
  }

  /** Steps v + 1 to the latest. */
  function RunSteps(env: Env, l: Link, v: int): (Link, bool)
    decreases LatestVersion - v
  {
    if v >= LatestVersion then (l, true)
    else
      var (next, ok) := RunStep(env, l, v + 1);
      if ok then RunSteps(env, next, v + 1) else (next, false)
  }

  datatype VersionRead = Found(version: int) | NotFound | WrongRows

  predicate Readable(db: Db, q: Qualified, column: Name) {
    Has(db, q) && column in At(db, q).columns
  }

  function ReadColumn(t: Table, column: Name): VersionRead {
    if |t.rows| != 1 then WrongRows
    else match Cell(t.rows[0], column) case Number(n) => Found(n) case _ => Found(0)
  }

  /** select_database_version: the newer place first. */
  function SelectVersion(db: Db): VersionRead {
    if Readable(db, Qualified("dbsystem", "main"), "database_version") then
      ReadColumn(At(db, Qualified("dbsystem", "main")), "database_version")
    else if Readable(db, Qualified("ldpsystem", "main"), "ldp_schema_version") then
      ReadColumn(At(db, Qualified("ldpsystem", "main")), "ldp_schema_version")
    else NotFound
  }

  datatype Outcome = Completed | Failed

  /** upgrade_database on a new connection: the database it leaves, and how it ends. Versions before 14 are not
      part of this model. */
  function Upgraded(env: Env, db: Db, line: Line): (Db, Outcome) {
    var version := SelectVersion(db);
    if Lost(line) || !version.Found? || version.version < 14 || version.version > LatestVersion then (db, Failed)
    else
      var (l, ok) := RunSteps(env, Link(db, Idle, line), version.version);
      (l.db, if ok then Completed else Failed)
  }

  class Connection {
    const env: Env
    var db: Db
    var work: Work
    var line: Line

    constructor (env: Env, db: Db, line: Line)
      ensures this.env == env && View() == Link(db, Idle, line)
    {
      this.env, this.db, this.work, this.line := env, db, Idle, line;
    }

    ghost function View(): Link
      reads this
    {
      Link(db, work, line)
    }

    method Lose()
      modifies this
      ensures View() == Dropped(old(View()))
    {
      work, line := Idle, Cut(0);
    }

    method Execute(s: Stmt) returns (ok: bool)
      modifies this
      ensures (View(), ok) == Send(env, old(View()), s)
    {
      if line == Cut(0) {
        Lose();
        return false;
      }
      line := if line.Up? then Up else Cut(line.after - 1);
      match work {
        case Idle =>
          var changed := Exec(env, db, s);
          if changed.Some? {
            db := changed.value;
          }
          return changed.Some?;
        case Open(current) =>
          var changed := Exec(env, current, s);
          work := if changed.Some? then Open(changed.value) else Aborted;
          return changed.Some?;
        case Aborted =>
          return false;
      }
    }

    method BeginTransaction() returns (ok: bool)
      modifies this
      ensures (View(), ok) == Begin(old(View()))
    {
      if line == Cut(0) {
        Lose();
        return false;
      }
      line := if line.Up? then Up else Cut(line.after - 1);
      if work.Idle? {
        work := Open(db);
      }
      return true;
    }

    method CommitTransaction() returns (ok: bool)
      modifies this
      ensures (View(), ok) == Commit(old(View()))
    {
      if line == Cut(0) {
        Lose();
        return false;
      }
      line := if line.Up? then Up else Cut(line.after - 1);
      if work.Open? {
        db := work.work;
      }
      work := Idle;
      return true;
    }

    /** Any failure of the first read, a lost connection too, leads to the second. */
    method SelectDatabaseVersion() returns (version: VersionRead)
      ensures version == if Lost(line) then NotFound else SelectVersion(db)
    {
      var main := Qualified("dbsystem", "main");
      if line != Cut(0) && Readable(db, main, "database_version") {
        return ReadColumn(At(db, main), "database_version");
      }
      main := Qualified("ldpsystem", "main");
      if line != Cut(0) && Readable(db, main, "ldp_schema_version") {
        return ReadColumn(At(db, main), "ldp_schema_version");
      }
      return NotFound;
    }

    method Step(v: int) returns (ok: bool)
      modifies this
      ensures (View(), ok) == RunStep(env, old(View()), v)
    {
      if InTransaction(v) {
        var began := BeginTransaction();
        if !began {
          return false;
        }
      }
      ghost var began := View();
      var body := Body(env, v);
      var i := 0;
      while i < |body|
        invariant i <= |body|
        invariant SendAll(env, began, body, Swallows(v)) == SendAll(env, View(), body[i..], Swallows(v))
      {
        var executed := Execute(body[i]);
        assert body[i..][0] == body[i] && body[i..][1..] == body[i + 1..];
        if !executed && !Swallows(v) {
          return false;
        }
        i := i + 1;
      }
      assert body[|body|..] == [];
      var wrote := Execute(VersionWrite(v));
      if !wrote {
        return false;
      }
      if InTransaction(v) {
        ok := CommitTransaction();
        return ok;
      }
      return true;
    }

    method UpgradeAll(version: int) returns (ok: bool)
      requires version <= LatestVersion
      modifies this
      ensures (View(), ok) == RunSteps(env, old(View()), version)
    {
      ghost var before := View();
      var v := version + 1;
      while v <= LatestVersion
        invariant v <= LatestVersion + 1
        invariant RunSteps(env, before, version) == RunSteps(env, View(), v - 1)
      {
        var done := Step(v);
        if !done {
          return false;
        }
        v := v + 1;
      }
      return true;
    }
  }

  /** upgrade_database: closing the connection discards an open transaction. */
  method UpgradeDatabase(env: Env, db: Db, line: Line) returns (after: Db, outcome: Outcome)
    ensures (after, outcome) == Upgraded(env, db, line)
  {
    var conn := new Connection(env, db, line);
    var version := conn.SelectDatabaseVersion();
    if !version.Found? || version.version < 14 || version.version > LatestVersion {
      return db, Failed;
    }
    var ok := conn.UpgradeAll(version.version);
    return conn.db, if ok then Completed else Failed;
  }
}
