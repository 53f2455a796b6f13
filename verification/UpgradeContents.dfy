/** What upgrades leave of the tables that hold records: new ones are empty and have their own columns, and those that
    were there keep theirs, up to the tenant ids that step 27 drops and the types that step 34 converts. */
module UpgradeContents {
  import opened Wrappers
  import opened Upgrade
  import opened ResumedUpgrades
  import opened UpgradeEffects
  import UpgradeCompletes

  // ---- Tables that were there ------------------------------------------------------------------

  /** The value itself, or its text as a uuid. */
  predicate AsUuid(env: Env, v: Value, w: Value) {
    w == v || (v.Str? && env.toUuid(v.text).Some? && w == UuidOf(env.toUuid(v.text).value))
  }

  /** The value itself, or its text as JSON. */
  predicate AsJsonb(env: Env, v: Value, w: Value) {
    w == v || (v.Str? && env.toJsonb(v.text).Some? && w == JsonbOf(env.toJsonb(v.text).value))
  }

  /** The row, perhaps without its tenant id, and with its id and data perhaps converted. */
  ghost predicate KeepsRow(env: Env, a: Row, b: Row) {
    && AsUuid(env, Cell(a, "id"), Cell(b, "id")) && AsJsonb(env, Cell(a, "data"), Cell(b, "data"))
    && (Cell(b, "tenant_id") == Null || Cell(b, "tenant_id") == Cell(a, "tenant_id"))
    && forall c :: c !in {"id", "data", "tenant_id"} ==> Cell(b, c) == Cell(a, c)
  }

  predicate KeepsColumn(c: Name, a: Column, b: Column) {
    && b.notNull == a.notNull && b.default == a.default && b.used == a.used
    && (b.kind == a.kind || (c == "id" && b.kind == Uuid) || (c == "data" && b.kind == Jsonb))
  }

  /** The table with all its columns but perhaps the tenant id, and with all its rows, in order. */
  ghost predicate KeepsTable(env: Env, a: Table, b: Table) {
    && (forall c :: c in b.columns ==> c in a.columns)
    && (forall c :: c in a.columns && c != "tenant_id" ==> c in b.columns)
    && (forall c :: c in b.columns ==> KeepsColumn(c, a.columns[c], b.columns[c]))
    && |b.rows| == |a.rows| && (forall i :: 0 <= i < |a.rows| ==> KeepsRow(env, a.rows[i], b.rows[i]))
    && a.readers <= b.readers
  }

  lemma KeepsTransitive(env: Env, a: Table, b: Table, c: Table)
    requires KeepsTable(env, a, b) && KeepsTable(env, b, c)
    ensures KeepsTable(env, a, c)
  {
    forall i | 0 <= i < |a.rows|
      ensures KeepsRow(env, a.rows[i], c.rows[i])
    {
      assert KeepsRow(env, a.rows[i], b.rows[i]) && KeepsRow(env, b.rows[i], c.rows[i]);
    }
    forall n | n in c.columns
      ensures KeepsColumn(n, a.columns[n], c.columns[n])
    {
      assert KeepsColumn(n, a.columns[n], b.columns[n]) && KeepsColumn(n, b.columns[n], c.columns[n]);
    }
  }

  lemma {:induction false} ConvertedKeeps(env: Env, rows: seq<Row>, i: nat)
    requires ConvertedRows(env, rows).Some? && i < |rows|
    ensures |ConvertedRows(env, rows).value| == |rows|
    ensures KeepsRow(env, rows[i], ConvertedRows(env, rows).value[i])
  {
    if i > 0 {
      ConvertedKeeps(env, rows[1..], i - 1);
    } else if |rows| > 1 {
      ConvertedKeeps(env, rows[1..], 0);
    }
  }

  predicate Mild(c: Change) {
    c.Grant? || c.ConvertRecords? || c == DropColumn("tenant_id")
  }

  lemma MildKeeps(env: Env, t: Table, c: Change)
    requires Mild(c) && Changed(env, t, c).Some?
    ensures KeepsTable(env, t, Changed(env, t, c).value)
  {
    if c.ConvertRecords? {
      var rows := ConvertedRows(env, t.rows).value;
      if t.rows != [] {
        ConvertedKeeps(env, t.rows, 0);
      }
      forall i | 0 <= i < |t.rows|
        ensures |rows| == |t.rows| && KeepsRow(env, t.rows[i], rows[i])
      {
        ConvertedKeeps(env, t.rows, i);
      }
    }
  }

  /** Statements that do no more to a table of records. */
  predicate Sparing(s: Stmt) {
    match s
    case On(q, c) => Record(q) ==> Mild(c)
    case CreateTable(_, _, _) => true
    case DropTable(q) => !Record(q)
    case RenameSchema(a, b) => a !in {"public", "history"} && b !in {"public", "history"}
  }

  lemma SparingKeeps(env: Env, db: Db, s: Stmt, swallow: bool, q: Qualified)
    requires Sparing(s) && Record(q) && Has(db, q)
    ensures
      var d := One(env, db, s, swallow).0;
      Has(d, q) && KeepsTable(env, At(db, q), At(d, q))
  {
    if s.On? && s.table == q && Exec(env, db, s).Some? {
      MildKeeps(env, At(db, q), s.change);
      PutAt(db, q, Changed(env, At(db, q), s.change).value);
    }
  }

  predicate AllSparing(ss: seq<Stmt>) {
    forall i :: 0 <= i < |ss| ==> Sparing(ss[i])
  }

  lemma {:induction false} SparingKeepAll(env: Env, db: Db, ss: seq<Stmt>, swallow: bool, q: Qualified)
    requires AllSparing(ss) && Record(q) && Has(db, q)
    ensures
      var d := Apply(env, db, ss, swallow).0;
      Has(d, q) && KeepsTable(env, At(db, q), At(d, q))
    decreases |ss|
  {
    if ss != [] {
      SparingKeeps(env, db, ss[0], swallow, q);
      var (d, ok) := One(env, db, ss[0], swallow);
      if ok {
        SparingKeepAll(env, d, ss[1..], swallow, q);
        KeepsTransitive(env, At(db, q), At(d, q), At(Apply(env, d, ss[1..], swallow).0, q));
      }
    }
  }

  lemma BodySparing(env: Env, v: int)
    ensures AllSparing(Body(env, v))
  {
    if v >= 20 {
      BodyLate(env, v);
    } else if v < 15 {
      assert NewTables(v) == [];
    }
  }

  // ---- Each step, table by table ---------------------------------------------------------------

  function TableOf(db: Db, q: Qualified): Option<Table> {
    if Has(db, q) then Some(At(db, q)) else None
  }

  /** A table of ids and records, without rows, for the two users. */
  function NewMain(env: Env): Table {
    Table(map["id" := Column(Uuid, true, Null, false), "data" := Column(Jsonb, false, Null, false)], [],
          {env.user, env.configUser})
  }

  /** A table of ids, records and times, none of them null, without rows, for the two users. */
  function NewHistory(env: Env): Table {
    Table(map["id" := Column(Uuid, true, Null, false), "data" := Column(Jsonb, true, Null, false),
              "updated" := Column(Timestamp, true, Null, false)], [], {env.user, env.configUser})
  }

  const Catalog := Qualified("dbsystem", "tables")

  /** What the tables of records are when those of these names have been added. */
  function Added(env: Env, names: seq<Name>, q: Qualified, before: Option<Table>): Option<Table> {
    if q.schema == "public" && q.name in names then Some(NewMain(env))
    else if q.schema == "history" && q.name in names then
      match before
      case None => Some(NewHistory(env))
      case Some(t) => Some(t.(readers := t.readers + {env.user, env.configUser}))
    else before
  }

  /** The catalog with a row more for every name. */
  predicate Lists(before: Option<Table>, names: seq<Name>, after: Option<Table>) {
    if names == [] then after == before
    else
      && before.Some? && after.Some? && after.value.columns == before.value.columns
      && after.value.readers == before.value.readers && |after.value.rows| == |before.value.rows| + |names|
      && after.value.rows[..|before.value.rows|] == before.value.rows
      && forall i :: 0 <= i < |names| ==> Cell(after.value.rows[|before.value.rows| + i], "table_name") == Str(names[i])
  }

  lemma Elsewhere(env: Env, db: Db, s: Stmt, swallow: bool, p: Qualified)
    requires s.On? || s.CreateTable?
    ensures
      var d := One(env, db, s, swallow).0;
      d.Keys == db.Keys && (p != s.table ==> TableOf(d, p) == TableOf(db, p))
  {
  }

  lemma There(env: Env, db: Db, s: Stmt)
    requires s.On? && One(env, db, s, false).1
    ensures Has(db, s.table)
    ensures TableOf(One(env, db, s, false).0, s.table) == Changed(env, At(db, s.table), s.change)
  {
    PutAt(db, s.table, Changed(env, At(db, s.table), s.change).value);
  }

  /** Two grants on a table. */
  lemma Grants(env: Env, db: Db, q: Qualified, p: Qualified)
    requires Apply(env, db, [On(q, Grant(env.user)), On(q, Grant(env.configUser))], false).1
    ensures
      var d := Apply(env, db, [On(q, Grant(env.user)), On(q, Grant(env.configUser))], false).0;
      && Has(db, q) && d.Keys == db.Keys
      && TableOf(d, q) == Some(At(db, q).(readers := At(db, q).readers + {env.user, env.configUser}))
      && (p != q ==> TableOf(d, p) == TableOf(db, p))
  {
    var a, b := On(q, Grant(env.user)), On(q, Grant(env.configUser));
    assert [a, b] == [a] + [b];
    ApplyFirst(env, db, a, [b], false);
    var d := One(env, db, a, false).0;
    ApplyFirst(env, d, b, [], false);
    There(env, db, a);
    There(env, d, b);
    Elsewhere(env, db, a, false, p);
    Elsewhere(env, d, b, false, p);
    assert At(db, q).readers + {env.user} + {env.configUser} == At(db, q).readers + {env.user, env.configUser};
  }

  lemma MainAdded(env: Env, db: Db, name: Name, p: Qualified)
    requires Apply(env, db, AddTable(env, name)[..3], false).1
    ensures
      var d := Apply(env, db, AddTable(env, name)[..3], false).0;
      && !Has(db, Public(name)) && d.Keys == db.Keys && TableOf(d, Public(name)) == Some(NewMain(env))
      && (p != Public(name) ==> TableOf(d, p) == TableOf(db, p))
  {
    var s := AddTable(env, name);
    assert s[..3] == [s[0]] + [s[1], s[2]];
    ApplyFirst(env, db, s[0], [s[1], s[2]], false);
    Elsewhere(env, db, s[0], false, p);
    var d := One(env, db, s[0], false).0;
    assert TableOf(d, Public(name)) == Some(NewMain(env).(readers := {}));
    Grants(env, d, Public(name), p);
    assert At(d, Public(name)).readers + {env.user, env.configUser} == NewMain(env).readers;
  }

  lemma HistoryAdded(env: Env, db: Db, name: Name, p: Qualified)
    requires Apply(env, db, AddTable(env, name)[3..6], false).1
    ensures
      var d := Apply(env, db, AddTable(env, name)[3..6], false).0;
      && d.Keys == db.Keys
      && TableOf(d, HistoryOf(name)) == Added(env, [name], HistoryOf(name), TableOf(db, HistoryOf(name)))
      && (p != HistoryOf(name) ==> TableOf(d, p) == TableOf(db, p))
  {
    var s, q := AddTable(env, name), HistoryOf(name);
    assert s[3..6] == [s[3]] + [s[4], s[5]];
    ApplyFirst(env, db, s[3], [s[4], s[5]], false);
    Elsewhere(env, db, s[3], false, p);
    var d := One(env, db, s[3], false).0;
    assert TableOf(d, q) == if Has(db, q) then TableOf(db, q) else Some(NewHistory(env).(readers := {}));
    Grants(env, d, q, p);
    assert !Has(db, q) ==> At(d, q).readers + {env.user, env.configUser} == NewHistory(env).readers;
  }

  lemma CatalogAdded(env: Env, db: Db, name: Name, p: Qualified)
    requires One(env, db, On(Catalog, InsertName(name)), false).1
    ensures
      var d := One(env, db, On(Catalog, InsertName(name)), false).0;
      && d.Keys == db.Keys && Lists(TableOf(db, Catalog), [name], TableOf(d, Catalog))
      && (p != Catalog ==> TableOf(d, p) == TableOf(db, p))
  {
    There(env, db, On(Catalog, InsertName(name)));
    Elsewhere(env, db, On(Catalog, InsertName(name)), false, p);
  }

  lemma RecordsAdded(env: Env, db: Db, name: Name, p: Qualified)
    requires Apply(env, db, AddTable(env, name)[..6], false).1
    ensures
      var d := Apply(env, db, AddTable(env, name)[..6], false).0;
      !Has(db, Public(name)) && d.Keys == db.Keys && TableOf(d, p) == Added(env, [name], p, TableOf(db, p))
  {
    var s := AddTable(env, name);
    assert s[..6] == s[..3] + s[3..6];
    ApplyAppend(env, db, s[..3], s[3..6], false);
    MainAdded(env, db, name, p);
    HistoryAdded(env, Apply(env, db, s[..3], false).0, name, p);
  }

  lemma TableAdded(env: Env, db: Db, name: Name, p: Qualified)
    requires Apply(env, db, AddTable(env, name), false).1
    ensures
      var d := Apply(env, db, AddTable(env, name), false).0;
      && !Has(db, Public(name)) && d.Keys == db.Keys && Lists(TableOf(db, Catalog), [name], TableOf(d, Catalog))
      && (p != Catalog ==> TableOf(d, p) == Added(env, [name], p, TableOf(db, p)))
  {
    var s := AddTable(env, name);
    assert s == s[..6] + ([s[6]] + []);
    ApplyAppend(env, db, s[..6], [s[6]] + [], false);
    var d := Apply(env, db, s[..6], false).0;
    ApplyFirst(env, d, s[6], [], false);
    RecordsAdded(env, db, name, p);
    RecordsAdded(env, db, name, Catalog);
    CatalogAdded(env, d, name, p);
  }

  lemma ListsMore(a: Option<Table>, name: Name, b: Option<Table>, names: seq<Name>, c: Option<Table>)
    requires Lists(a, [name], b) && Lists(b, names, c)
    ensures Lists(a, [name] + names, c)
  {
    if names != [] {
      var all := [name] + names;
      var n := |a.value.rows|;
      assert c.value.rows[..n] == c.value.rows[..n + 1][..n];
      forall i | 0 <= i < |all|
        ensures Cell(c.value.rows[n + i], "table_name") == Str(all[i])
      {
        if i == 0 {
          assert c.value.rows[n] == c.value.rows[..n + 1][n];
        } else {
          assert all[i] == names[i - 1] && n + i == n + 1 + (i - 1);
        }
      }
    }
  }

  lemma AddedMore(env: Env, name: Name, names: seq<Name>, q: Qualified, t: Option<Table>)
    requires name !in names
    ensures Added(env, names, q, Added(env, [name], q, t)) == Added(env, [name] + names, q, t)
  {
  }

  lemma {:induction false} TablesAdded(env: Env, db: Db, names: seq<Name>, p: Qualified)
    requires Apply(env, db, AddTables(env, names), false).1 && UpgradeCompletes.Distinct(names)
    ensures
      var d := Apply(env, db, AddTables(env, names), false).0;
      && d.Keys == db.Keys && Lists(TableOf(db, Catalog), names, TableOf(d, Catalog))
      && (p != Catalog ==> TableOf(d, p) == Added(env, names, p, TableOf(db, p)))
      && (p.schema == "public" && p.name in names ==> !Has(db, p))
    decreases |names|
  {
    if names != [] {
      var name, rest := names[0], names[1..];
      assert names == [name] + rest;
      ApplyAppend(env, db, AddTable(env, name), AddTables(env, rest), false);
      var first := Apply(env, db, AddTable(env, name), false).0;
      TableAdded(env, db, name, p);
      TablesAdded(env, first, rest, p);
      ListsMore(TableOf(db, Catalog), name, TableOf(first, Catalog), rest, TableOf(Apply(env, first, AddTables(env, rest), false).0, Catalog));
      AddedMore(env, name, rest, p, TableOf(db, p));
    }
  }

  // ---- Steps 27 and 34 -------------------------------------------------------------------------

  /** The table without its tenant ids, unless a view holds the column. */
  function TenantDropped(t: Table): Table {
    if "tenant_id" in t.columns && !t.columns["tenant_id"].used then
      Table(map c | c in t.columns && c != "tenant_id" :: t.columns[c],
            MapRows(t.rows, row => map c: Name | c in row && c != "tenant_id" :: row[c]), t.readers)
    else t
  }

  predicate IsUuidOf(env: Env, v: Value, w: Value) {
    match v
    case Null => w == Null
    case UuidOf(_) => w == v
    case Str(s) => env.toUuid(s).Some? && w == UuidOf(env.toUuid(s).value)
    case _ => false
  }

  predicate IsJsonbOf(env: Env, v: Value, w: Value) {
    match v
    case Null => w == Null
    case JsonbOf(_) => w == v
    case Str(s) => env.toJsonb(s).Some? && w == JsonbOf(env.toJsonb(s).value)
    case _ => false
  }

  /** The value can be cast. */
  predicate Casts(v: Value, cast: string -> Option<string>) {
    v.Null? || (v.Str? && cast(v.text).Some?)
  }

  predicate RowCasts(env: Env, row: Row) {
    (Casts(Cell(row, "id"), env.toUuid) || Cell(row, "id").UuidOf?) &&
    (Casts(Cell(row, "data"), env.toJsonb) || Cell(row, "data").JsonbOf?)
  }

  /** The server can convert the table: no view holds its id or its data, which is JSON, and every row can be cast. */
  predicate Convertible(env: Env, t: Table) {
    && "id" in t.columns && "data" in t.columns && !t.columns["id"].used && !t.columns["data"].used
    && (t.columns["data"].kind == Json || t.columns["data"].kind == Jsonb)
    && forall i :: 0 <= i < |t.rows| ==> RowCasts(env, t.rows[i])
  }

  predicate RowConverted(env: Env, a: Row, b: Row) {
    && "id" in b && "data" in b && b - {"id", "data"} == a - {"id", "data"}
    && IsUuidOf(env, Cell(a, "id"), b["id"]) && IsJsonbOf(env, Cell(a, "data"), b["data"])
  }

  /** The table with its ids as uuids and its data as jsonb, or as it was where the server cannot convert it. */
  predicate ConvertedTo(env: Env, t: Table, u: Table) {
    if Convertible(env, t) then
      && u.columns == t.columns["id" := t.columns["id"].(kind := Uuid)]["data" := t.columns["data"].(kind := Jsonb)]
      && |u.rows| == |t.rows| && (forall i :: 0 <= i < |t.rows| ==> RowConverted(env, t.rows[i], u.rows[i]))
      && u.readers == t.readers
    else u == t
  }

  /** A change that is tried and whose failure is swallowed. */
  function Tried(env: Env, t: Table, c: Change): Table {
    match Changed(env, t, c) case Some(u) => u case None => t
  }

  lemma TenantTried(env: Env, t: Table)
    ensures Tried(env, t, DropColumn("tenant_id")) == TenantDropped(t)
  {
    var u, w := Tried(env, t, DropColumn("tenant_id")), TenantDropped(t);
    if u != t {
      assert u.columns == w.columns;
      forall i | 0 <= i < |t.rows|
        ensures u.rows[i] == w.rows[i]
      {
        assert u.rows[i] == WithoutColumn(t.rows[i], "tenant_id");
      }
      assert u.rows == w.rows;
    }
  }

  lemma {:induction false} RowsConverted(env: Env, rows: seq<Row>)
    ensures ConvertedRows(env, rows).Some? <==> forall i :: 0 <= i < |rows| ==> RowCasts(env, rows[i])
    ensures ConvertedRows(env, rows).Some? ==>
      var done := ConvertedRows(env, rows).value;
      |done| == |rows| && forall i :: 0 <= i < |rows| ==> RowConverted(env, rows[i], done[i])
  {
    if rows != [] {
      RowsConverted(env, rows[1..]);
      assert rows == [rows[0]] + rows[1..];
      assert RowCasts(env, rows[0]) <==>
        CastUuid(env, Cell(rows[0], "id")).Some? && CastJsonb(env, Cell(rows[0], "data")).Some?;
    }
  }

  lemma ConvertTried(env: Env, t: Table)
    ensures ConvertedTo(env, t, Tried(env, t, ConvertRecords))
  {
    RowsConverted(env, t.rows);
  }

  lemma TriedTwice(env: Env, t: Table, c: Change)
    requires c == DropColumn("tenant_id") || c.ConvertRecords?
    ensures Tried(env, Tried(env, t, c), c) == Tried(env, t, c)
  {
    if Changed(env, t, c).Some? {
      ChangeSettles(env, t, c);
    }
  }

  lemma TriedOn(env: Env, db: Db, q: Qualified, c: Change, p: Qualified)
    ensures
      var d := One(env, db, On(q, c), true).0;
      && d.Keys == db.Keys
      && TableOf(d, p) == if p == q && Has(db, q) then Some(Tried(env, At(db, q), c)) else TableOf(db, p)
  {
    Elsewhere(env, db, On(q, c), true, p);
    if Has(db, q) && Changed(env, At(db, q), c).Some? {
      PutAt(db, q, Changed(env, At(db, q), c).value);
    }
  }

  function TriedEach(env: Env, names: seq<Name>, c: Change, q: Qualified, t: Option<Table>): Option<Table> {
    if Record(q) && q.name in names && t.Some? then Some(Tried(env, t.value, c)) else t
  }

  lemma {:induction false} EachTried(env: Env, db: Db, names: seq<Name>, c: Change, p: Qualified)
    requires c == DropColumn("tenant_id") || c.ConvertRecords?
    ensures
      var d := Apply(env, db, OnEach(names, c), true).0;
      d.Keys == db.Keys && TableOf(d, p) == TriedEach(env, names, c, p, TableOf(db, p))
    decreases |names|
  {
    if names != [] {
      var a, b, rest := On(Public(names[0]), c), On(HistoryOf(names[0]), c), OnEach(names[1..], c);
      assert OnEach(names, c) == [a] + ([b] + rest);
      assert names == [names[0]] + names[1..];
      ApplyFirst(env, db, a, [b] + rest, true);
      var d := One(env, db, a, true).0;
      ApplyFirst(env, d, b, rest, true);
      var e := One(env, d, b, true).0;
      TriedOn(env, db, Public(names[0]), c, p);
      TriedOn(env, d, HistoryOf(names[0]), c, p);
      EachTried(env, e, names[1..], c, p);
      if Has(db, p) {
        TriedTwice(env, At(db, p), c);
      }
    }
  }

  // ---- The version and the later steps ---------------------------------------------------------

  const Version := Qualified("dbsystem", "main")

  /** The rows with the number of the version. */
  predicate Versioned(before: Option<Table>, column: Name, v: int, after: Option<Table>) {
    && before.Some? && after.Some? && after.value.columns == before.value.columns
    && after.value.readers == before.value.readers && |after.value.rows| == |before.value.rows|
    && forall i :: 0 <= i < |before.value.rows| ==> after.value.rows[i] == before.value.rows[i][column := Number(v)]
  }

  lemma VersionWritten(env: Env, db: Db, v: int, p: Qualified)
    requires Exec(env, db, VersionWrite(v)).Some?
    ensures
      var d, q := Exec(env, db, VersionWrite(v)).value, VersionWrite(v).table;
      && d.Keys == db.Keys && Versioned(TableOf(db, q), VersionWrite(v).change.column, v, TableOf(d, q))
      && (p != q ==> TableOf(d, p) == TableOf(db, p))
  {
    There(env, db, VersionWrite(v));
    Elsewhere(env, db, VersionWrite(v), false, p);
  }

  /** What step v, 20 or later, makes of a table. */
  predicate Becomes(env: Env, v: int, q: Qualified, before: Option<Table>, after: Option<Table>) {
    if q == Version then Versioned(before, "database_version", v, after)
    else if q == Catalog then Lists(before, NewTables(v), after)
    else if v == 27 && Record(q) && q.name in env.tables && before.Some? then after == Some(TenantDropped(before.value))
    else if v == 34 && Record(q) && q.name in env.tables && before.Some? then
      after.Some? && ConvertedTo(env, before.value, after.value)
    else after == Added(env, NewTables(v), q, before) && (q.schema == "public" && q.name in NewTables(v) ==> before.None?)
  }

  lemma BodyBecomes(env: Env, db: Db, v: int, q: Qualified)
    requires v >= 20 && Apply(env, db, Body(env, v), Swallows(v)).1
    ensures
      var d := Apply(env, db, Body(env, v), Swallows(v)).0;
      && d.Keys == db.Keys
      && if q == Version then TableOf(d, q) == TableOf(db, q) else Becomes(env, v, q, TableOf(db, q), TableOf(d, q))
  {
    if v == 27 {
      EachTried(env, db, env.tables, DropColumn("tenant_id"), q);
      if Has(db, q) {
        TenantTried(env, At(db, q));
      }
    } else if v == 34 {
      EachTried(env, db, env.tables, ConvertRecords, q);
      if Has(db, q) {
        ConvertTried(env, At(db, q));
      }
    } else {
      UpgradeCompletes.NewTablesDistinct(v);
      TablesAdded(env, db, NewTables(v), q);
    }
  }

  /** A completed step, 20 or later: the whole database, table by table. */
  lemma LaterStepLeaves(env: Env, db: Db, v: int, q: Qualified)
    requires v >= 20 && Whole(env, db, v).Some?
    ensures
      var d := Whole(env, db, v).value;
      d.Keys == db.Keys && Becomes(env, v, q, TableOf(db, q), TableOf(d, q))
  {
    BodyBecomes(env, db, v, q);
    VersionWritten(env, Apply(env, db, Body(env, v), Swallows(v)).0, v, q);
  }

  // ---- Steps 15 to 19 --------------------------------------------------------------------------

  function Without(t: Table, column: Name): Table {
    Table(map c | c in t.columns && c != column :: t.columns[c],
          MapRows(t.rows, row => map c: Name | c in row && c != column :: row[c]), t.readers)
  }

  function With(t: Table, column: Name, definition: Column): Table {
    Table(t.columns[column := definition], MapRows(t.rows, row => row[column := definition.default]), t.readers)
  }

  /** The one column under another name. */
  function WithRenamed(t: Table, column: Name, to: Name): Table
    requires column in t.columns
  {
    Table((map c | c in t.columns && c != column :: t.columns[c])[to := t.columns[column]],
          MapRows(t.rows, row => if column in row then (map c: Name | c in row && c != column :: row[c])[to := row[column]] else row),
          t.readers)
  }

  const System := Qualified("ldpsystem", "main")

  /** What the statements of step v before its version write make of a table, 15 to 19. */
  function EarlyTable(db: Db, v: int, q: Qualified): Option<Table> {
    var t := TableOf(db, q);
    match v
    case 15 =>
      if q == General && Readable(db, q, "disable_anonymization") && Readable(db, q, "update_all_tables") then
        var c := t.value.columns;
        Some(t.value.(columns :=
          c["disable_anonymization" := c["disable_anonymization"].(default := Flag(false))]
           ["update_all_tables" := c["update_all_tables"].(notNull := false)]))
      else t
    case 16 =>
      if q == General && t.Some? then Some(With(t.value, "update_all_tables", Column(Boolean, true, Flag(false), false)))
      else t
    case 17 =>
      if q == Qualified("ldpsystem", "suggested_foreign_keys") then
        Some(Table(map["enable_constraint" := Column(Boolean, true, Null, false),
                       "referencing_table" := Column(Text, true, Null, false),
                       "referencing_column" := Column(Text, true, Null, false),
                       "referenced_table" := Column(Text, true, Null, false),
                       "referenced_column" := Column(Text, true, Null, false)], [], {}))
      else t
    case 18 =>
      if q == Version && Readable(db, System, "ldp_schema_version") then
        Some(WithRenamed(At(db, System), "ldp_schema_version", "database_version"))
      else if q == Qualified("dbsystem", "server_lock") then None
      else if q.schema == "dbsystem" then TableOf(db, Qualified("ldpsystem", q.name))
      else if q.schema == "dbconfig" then TableOf(db, Qualified("ldpconfig", q.name))
      else if q.schema == "ldpsystem" || q.schema == "ldpconfig" then None
      else t
    case 19 =>
      if q == GeneralLater && t.Some? then Some(Without(t.value, "disable_anonymization"))
      else if q == Version && t.Some? then Some(With(t.value, "anonymize", Column(Boolean, true, Flag(true), false)))
      else t
    case _ => t
  }

  /** Two changes, to the same table or to two. */
  lemma TwoChangesOn(env: Env, db: Db, q: Qualified, a: Change, r: Qualified, b: Change, p: Qualified)
    requires Apply(env, db, [On(q, a), On(r, b)], false).1
    ensures
      var d, e := One(env, db, On(q, a), false).0, Apply(env, db, [On(q, a), On(r, b)], false).0;
      && Has(db, q) && TableOf(d, q) == Changed(env, At(db, q), a) && (p != q ==> TableOf(d, p) == TableOf(db, p))
      && Has(d, r) && TableOf(e, r) == Changed(env, At(d, r), b) && (p != r ==> TableOf(e, p) == TableOf(d, p))
  {
    TwoChanges(env, db, q, a, r, b);
    var d := One(env, db, On(q, a), false).0;
    There(env, db, On(q, a));
    There(env, d, On(r, b));
    Elsewhere(env, db, On(q, a), false, p);
    Elsewhere(env, d, On(r, b), false, p);
  }

  lemma Leaves15(env: Env, db: Db, p: Qualified)
    requires Apply(env, db, Body(env, 15), false).1
    ensures TableOf(Apply(env, db, Body(env, 15), false).0, p) == EarlyTable(db, 15, p)
  {
    var a, b := SetDefault("disable_anonymization", Flag(false)), DropNotNull("update_all_tables");
    TwoChangesOn(env, db, General, a, General, b, p);
  }

  lemma Readds(env: Env, t: Table, column: Name, definition: Column)
    requires Changed(env, t, DropColumn(column)).Some?
    requires Changed(env, Changed(env, t, DropColumn(column)).value, AddColumn(column, definition)).Some?
    ensures Changed(env, Changed(env, t, DropColumn(column)).value, AddColumn(column, definition)).value ==
      With(t, column, definition)
  {
    var u := Changed(env, Changed(env, t, DropColumn(column)).value, AddColumn(column, definition)).value;
    var w := With(t, column, definition);
    assert u.columns == w.columns;
    forall i | 0 <= i < |t.rows|
      ensures u.rows[i] == w.rows[i]
    {
      assert u.rows[i] == WithoutColumn(t.rows[i], column)[column := definition.default];
    }
    assert u.rows == w.rows;
  }

  lemma Leaves16(env: Env, db: Db, p: Qualified)
    requires Apply(env, db, Body(env, 16), false).1
    ensures TableOf(Apply(env, db, Body(env, 16), false).0, p) == EarlyTable(db, 16, p)
  {
    var c := Column(Boolean, true, Flag(false), false);
    TwoChangesOn(env, db, General, DropColumn("update_all_tables"), General, AddColumn("update_all_tables", c), p);
    Readds(env, At(db, General), "update_all_tables", c);
  }

  lemma Leaves17(env: Env, db: Db, p: Qualified)
    requires Apply(env, db, Body(env, 17), false).1
    ensures TableOf(Apply(env, db, Body(env, 17), false).0, p) == EarlyTable(db, 17, p)
  {
    var s := Body(env, 17)[0];
    assert Body(env, 17) == [s] + [];
    ApplyFirst(env, db, s, [], false);
    Elsewhere(env, db, s, false, p);
  }

  lemma Drops(env: Env, t: Table, column: Name)
    requires Changed(env, t, DropColumn(column)).Some?
    ensures Changed(env, t, DropColumn(column)).value == Without(t, column)
  {
    var u, w := Changed(env, t, DropColumn(column)).value, Without(t, column);
    assert u.columns == w.columns;
    forall i | 0 <= i < |t.rows|
      ensures u.rows[i] == w.rows[i]
    {
      assert u.rows[i] == WithoutColumn(t.rows[i], column);
    }
    assert u.rows == w.rows;
  }

  lemma Renames(env: Env, t: Table, column: Name, to: Name)
    requires Changed(env, t, RenameColumn(column, to)).Some?
    ensures Changed(env, t, RenameColumn(column, to)).value == WithRenamed(t, column, to)
  {
    var u, w := Changed(env, t, RenameColumn(column, to)).value, WithRenamed(t, column, to);
    assert u.columns == w.columns;
    forall i | 0 <= i < |t.rows|
      ensures u.rows[i] == w.rows[i]
    {
      assert u.rows[i] == RenamedIn(t.rows[i], column, to);
      if column in t.rows[i] {
        assert t.rows[i] - {column} == map c: Name | c in t.rows[i] && c != column :: t.rows[i][c];
      }
    }
    assert u.rows == w.rows;
  }

  lemma Leaves19(env: Env, db: Db, p: Qualified)
    requires Apply(env, db, Body(env, 19), false).1
    ensures TableOf(Apply(env, db, Body(env, 19), false).0, p) == EarlyTable(db, 19, p)
  {
    var a, b := DropColumn("disable_anonymization"), AddColumn("anonymize", Column(Boolean, true, Flag(true), false));
    TwoChangesOn(env, db, GeneralLater, a, Version, b, p);
    TwoChangesOn(env, db, GeneralLater, a, Version, b, GeneralLater);
    TwoChangesOn(env, db, GeneralLater, a, Version, b, Version);
    Drops(env, At(db, GeneralLater), "disable_anonymization");
  }

  lemma SchemaRenamed(env: Env, db: Db, schema: Name, to: Name, p: Qualified)
    requires One(env, db, RenameSchema(schema, to), false).1
    ensures
      TableOf(One(env, db, RenameSchema(schema, to), false).0, p) ==
        if p.schema == to then TableOf(db, Qualified(schema, p.name))
        else if p.schema == schema then None else TableOf(db, p)
  {
  }

  lemma LockGone(env: Env, db: Db, p: Qualified)
    requires Apply(env, db, Body(env, 18)[..2], false).1
    ensures
      TableOf(Apply(env, db, Body(env, 18)[..2], false).0, p) ==
        if p == Qualified("dbsystem", "server_lock") then None
        else if p.schema == "dbsystem" then TableOf(db, Qualified("ldpsystem", p.name))
        else if p.schema == "ldpsystem" then None else TableOf(db, p)
  {
    var s := Body(env, 18);
    assert s[..2] == [s[0]] + ([s[1]] + []);
    ApplyFirst(env, db, s[0], [s[1]] + [], false);
    SchemaRenamed(env, db, "ldpsystem", "dbsystem", p);
    ApplyFirst(env, One(env, db, s[0], false).0, s[1], [], false);
  }

  lemma ColumnRenamed(env: Env, db: Db, p: Qualified)
    requires Apply(env, db, Body(env, 18)[2..], false).1
    ensures
      && Readable(db, Version, "ldp_schema_version")
      && TableOf(Apply(env, db, Body(env, 18)[2..], false).0, p) ==
        if p == Version then Some(WithRenamed(At(db, Version), "ldp_schema_version", "database_version"))
        else if p.schema == "dbconfig" then TableOf(db, Qualified("ldpconfig", p.name))
        else if p.schema == "ldpconfig" then None else TableOf(db, p)
  {
    var s := Body(env, 18)[2..];
    assert s == [s[0]] + ([s[1]] + []);
    ApplyFirst(env, db, s[0], [s[1]] + [], false);
    There(env, db, s[0]);
    Elsewhere(env, db, s[0], false, p);
    Elsewhere(env, db, s[0], false, Qualified("ldpconfig", p.name));
    Renames(env, At(db, Version), "ldp_schema_version", "database_version");
    var d := One(env, db, s[0], false).0;
    ApplyFirst(env, d, s[1], [], false);
    SchemaRenamed(env, d, "ldpconfig", "dbconfig", p);
  }

  lemma Leaves18(env: Env, db: Db, p: Qualified)
    requires Apply(env, db, Body(env, 18), false).1
    ensures TableOf(Apply(env, db, Body(env, 18), false).0, p) == EarlyTable(db, 18, p)
  {
    var s := Body(env, 18);
    assert s == s[..2] + s[2..];
    ApplyAppend(env, db, s[..2], s[2..], false);
    var d := Apply(env, db, s[..2], false).0;
    LockGone(env, db, p);
    LockGone(env, db, Version);
    LockGone(env, db, Qualified("ldpconfig", p.name));
    ColumnRenamed(env, d, p);
  }

  /** A completed step, 15 to 19: the whole database, table by table. */
  lemma EarlyStepLeaves(env: Env, db: Db, v: int, q: Qualified)
    requires 15 <= v < 20 && Whole(env, db, v).Some?
    ensures
      var d := Whole(env, db, v).value;
      if v < 18 && q == System then Versioned(EarlyTable(db, v, q), "ldp_schema_version", v, TableOf(d, q))
      else if v >= 18 && q == Version then Versioned(EarlyTable(db, v, q), "database_version", v, TableOf(d, q))
      else TableOf(d, q) == EarlyTable(db, v, q)
  {
    match v {
      case 15 => Leaves15(env, db, q);
      case 16 => Leaves16(env, db, q);
      case 17 => Leaves17(env, db, q);
      case 18 => Leaves18(env, db, q);
      case 19 => Leaves19(env, db, q);
    }
    VersionWritten(env, Apply(env, db, Body(env, v), Swallows(v)).0, v, q);
  }

  // ---- Whole upgrades --------------------------------------------------------------------------

  ghost predicate NewBy(from: int, v: int, name: Name) {
    exists w :: from < w <= v && name in NewTables(w)
  }

  /** Table and history as they were created; a history that was there before is not created. */
  predicate Fresh(env: Env, start: Db, db: Db, name: Name) {
    && !Has(start, Public(name)) && TableOf(db, Public(name)) == Some(NewMain(env))
    && Has(db, HistoryOf(name))
    && (!Has(start, HistoryOf(name)) ==> TableOf(db, HistoryOf(name)) == Some(NewHistory(env)))
  }

  ghost predicate Kept(env: Env, start: Db, db: Db, q: Qualified) {
    Has(start, q) ==> Has(db, q) && KeepsTable(env, At(start, q), At(db, q))
  }

  /** The tables of records at version v: those of the start, kept, and those of the steps since, as created. */
  ghost predicate Contents(env: Env, start: Db, db: Db, from: int, v: int) {
    && (forall q :: Record(q) ==> Kept(env, start, db, q))
    && (forall w, name :: from < w <= v && name in NewTables(w) ==> Fresh(env, start, db, name))
    && (forall q :: Record(q) && Has(db, q) ==> Has(start, q) || NewBy(from, v, q.name))
  }

  lemma ContentsAtStart(env: Env, db: Db, from: int)
    ensures Contents(env, db, db, from, from)
  {
  }

  ghost predicate SameRecords(db: Db, d: Db) {
    forall q :: Record(q) ==> TableOf(d, q) == TableOf(db, q)
  }

  lemma SameContents(env: Env, start: Db, db: Db, d: Db, from: int, v: int, w: int)
    requires Contents(env, start, db, from, v) && SameRecords(db, d)
    requires v <= w && forall x :: v < x <= w ==> NewTables(x) == []
    ensures Contents(env, start, d, from, w)
  {
    forall q | Record(q)
      ensures TableOf(d, q) == TableOf(db, q) && Has(d, q) == Has(db, q)
      ensures Kept(env, start, d, q)
    {
      assert TableOf(d, q) == TableOf(db, q) && Kept(env, start, db, q);
    }
    forall x, name | from < x <= w && name in NewTables(x)
      ensures Fresh(env, start, d, name)
    {
      assert x <= v;
      assert Fresh(env, start, db, name);
      assert TableOf(d, Public(name)) == TableOf(db, Public(name)) && TableOf(d, HistoryOf(name)) == TableOf(db, HistoryOf(name));
    }
    forall q | Record(q) && Has(d, q)
      ensures Has(start, q) || NewBy(from, w, q.name)
    {
      assert Has(db, q);
    }
  }

  lemma NewUnchanged(env: Env, c: Change)
    requires c == DropColumn("tenant_id") || c.ConvertRecords?
    ensures Tried(env, NewMain(env), c) == NewMain(env) && Tried(env, NewHistory(env), c) == NewHistory(env)
  {
  }

  lemma TriedKeeps(env: Env, start: Db, db: Db, q: Qualified, c: Change, p: Qualified)
    requires (c == DropColumn("tenant_id") || c.ConvertRecords?) && Kept(env, start, db, p)
    ensures Kept(env, start, One(env, db, On(q, c), true).0, p)
  {
    TriedOn(env, db, q, c, p);
    if p == q && Has(start, p) && Changed(env, At(db, q), c).Some? {
      MildKeeps(env, At(db, q), c);
      KeepsTransitive(env, At(start, p), At(db, p), Changed(env, At(db, q), c).value);
    }
  }

  lemma ContentsTried(env: Env, start: Db, db: Db, q: Qualified, c: Change, from: int, v: int)
    requires Contents(env, start, db, from, v) && (c == DropColumn("tenant_id") || c.ConvertRecords?)
    ensures Contents(env, start, One(env, db, On(q, c), true).0, from, v)
  {
    var d := One(env, db, On(q, c), true).0;
    forall p | Record(p)
      ensures Kept(env, start, d, p)
    {
      TriedKeeps(env, start, db, q, c, p);
    }
    forall p
      ensures Has(d, p) == Has(db, p)
    {
      TriedOn(env, db, q, c, p);
    }
    forall w, name | from < w <= v && name in NewTables(w)
      ensures Fresh(env, start, d, name)
    {
      assert Fresh(env, start, db, name);
      TriedOn(env, db, q, c, Public(name));
      TriedOn(env, db, q, c, HistoryOf(name));
      NewUnchanged(env, c);
    }
  }

  lemma {:induction false} ContentsEach(env: Env, start: Db, db: Db, ss: seq<Stmt>, c: Change, from: int, v: int)
    requires Contents(env, start, db, from, v) && (c == DropColumn("tenant_id") || c.ConvertRecords?)
    requires forall i :: 0 <= i < |ss| ==> ss[i].On? && ss[i].change == c
    ensures Contents(env, start, Apply(env, db, ss, true).0, from, v)
    decreases |ss|
  {
    if ss != [] {
      ContentsTried(env, start, db, ss[0].table, c, from, v);
      ContentsEach(env, start, One(env, db, ss[0], true).0, ss[1..], c, from, v);
    }
  }

  lemma {:induction false} EachChanges(names: seq<Name>, c: Change)
    ensures forall i :: 0 <= i < |OnEach(names, c)| ==> OnEach(names, c)[i].On? && OnEach(names, c)[i].change == c
  {
    if names != [] {
      EachChanges(names[1..], c);
    }
  }

  lemma Apart(v: int, w: int, name: Name)
    requires name in NewTables(v) && name in NewTables(w)
    ensures v == w
  {
    var i :| 0 <= i < |NewTables(v)| && NewTables(v)[i] == name;
    var j :| 0 <= j < |NewTables(w)| && NewTables(w)[j] == name;
    UpgradeCompletes.NewTablesApart(v, i);
    UpgradeCompletes.NewTablesApart(w, j);
  }

  ghost predicate AddedTo(env: Env, db: Db, d: Db, v: int, q: Qualified) {
    && TableOf(d, q) == Added(env, NewTables(v), q, TableOf(db, q))
    && (q.schema == "public" && q.name in NewTables(v) ==> !Has(db, q))
  }

  lemma AddedKeeps(env: Env, start: Db, db: Db, d: Db, v: int, q: Qualified)
    requires Kept(env, start, db, q) && AddedTo(env, db, d, v, q)
    ensures Kept(env, start, d, q)
  {
  }

  lemma OldFresh(env: Env, start: Db, db: Db, d: Db, v: int, name: Name)
    requires Fresh(env, start, db, name) && name !in NewTables(v)
    requires AddedTo(env, db, d, v, Public(name)) && AddedTo(env, db, d, v, HistoryOf(name))
    ensures Fresh(env, start, d, name)
  {
  }

  lemma ContentsAdded(env: Env, start: Db, db: Db, d: Db, from: int, v: int)
    requires Contents(env, start, db, from, v - 1) && from < v && forall q :: Record(q) ==> AddedTo(env, db, d, v, q)
    ensures Contents(env, start, d, from, v)
  {
    forall q | Record(q)
      ensures Kept(env, start, d, q)
    {
      AddedKeeps(env, start, db, d, v, q);
    }
    forall w, name | from < w <= v && name in NewTables(w)
      ensures Fresh(env, start, d, name)
    {
      assert AddedTo(env, db, d, v, Public(name)) && AddedTo(env, db, d, v, HistoryOf(name));
      if w < v {
        if name in NewTables(v) {
          Apart(v, w, name);
        }
        OldFresh(env, start, db, d, v, name);
      } else {
        NewFresh(env, start, db, d, from, v, name);
      }
    }
    forall q | Record(q) && Has(d, q)
      ensures Has(start, q) || NewBy(from, v, q.name)
    {
      assert AddedTo(env, db, d, v, q);
    }
  }

  lemma NewFresh(env: Env, start: Db, db: Db, d: Db, from: int, v: int, name: Name)
    requires Contents(env, start, db, from, v - 1) && name in NewTables(v)
    requires AddedTo(env, db, d, v, Public(name)) && AddedTo(env, db, d, v, HistoryOf(name))
    ensures Fresh(env, start, d, name)
  {
    assert Kept(env, start, db, Public(name));
    if Has(db, HistoryOf(name)) && !Has(start, HistoryOf(name)) {
      assert Record(HistoryOf(name));
      var w :| from < w <= v - 1 && name in NewTables(w);
      Apart(v, w, name);
    }
  }

  lemma WriteKeepsRecords(env: Env, db: Db, v: int)
    requires Exec(env, db, VersionWrite(v)).Some?
    ensures SameRecords(db, Exec(env, db, VersionWrite(v)).value)
  {
    forall q | Record(q)
      ensures TableOf(Exec(env, db, VersionWrite(v)).value, q) == TableOf(db, q)
    {
      VersionWritten(env, db, v, q);
    }
  }

  /** The statements of a step carry the contents on. */
  lemma BodyContents(env: Env, start: Db, db: Db, from: int, v: int)
    requires Contents(env, start, db, from, v - 1) && from < v && 20 <= v && Apply(env, db, Body(env, v), Swallows(v)).1
    ensures Contents(env, start, Apply(env, db, Body(env, v), Swallows(v)).0, from, v)
  {
    var d := Apply(env, db, Body(env, v), Swallows(v)).0;
    if v == 27 || v == 34 {
      var c := if v == 27 then DropColumn("tenant_id") else ConvertRecords;
      EachChanges(env.tables, c);
      ContentsEach(env, start, db, Body(env, v), c, from, v - 1);
      SameContents(env, start, d, d, from, v - 1, v);
    } else {
      forall q | Record(q)
        ensures AddedTo(env, db, d, v, q)
      {
        BodyBecomes(env, db, v, q);
      }
      ContentsAdded(env, start, db, d, from, v);
    }
  }

  lemma EarlyRecords(env: Env, db: Db, v: int, q: Qualified)
    requires 15 <= v < 20 && Whole(env, db, v).Some? && Record(q)
    ensures TableOf(Whole(env, db, v).value, q) == TableOf(db, q)
  {
    EarlyStepLeaves(env, db, v, q);
  }

  lemma EarlySame(env: Env, db: Db, d: Db, v: int)
    requires 15 <= v < 20 && Whole(env, db, v) == Some(d)
    ensures SameRecords(db, d)
  {
    forall q | Record(q)
      ensures TableOf(d, q) == TableOf(db, q)
    {
      EarlyRecords(env, db, v, q);
    }
  }

  lemma NoNewTables(v: int)
    requires v < 20
    ensures forall x :: x <= v ==> NewTables(x) == []
  {
  }

  lemma EarlyContents(env: Env, start: Db, db: Db, d: Db, from: int, v: int)
    requires Contents(env, start, db, from, v - 1) && 14 <= from < v < 20 && Whole(env, db, v) == Some(d)
    ensures Contents(env, start, d, from, v)
  {
    EarlySame(env, db, d, v);
    NoNewTables(v);
    SameContents(env, start, db, d, from, v - 1, v);
  }

  lemma LaterContents(env: Env, start: Db, db: Db, d: Db, from: int, v: int)
    requires Contents(env, start, db, from, v - 1) && from < v && 20 <= v && Whole(env, db, v) == Some(d)
    ensures Contents(env, start, d, from, v)
  {
    var e := Apply(env, db, Body(env, v), Swallows(v)).0;
    BodyContents(env, start, db, from, v);
    WriteKeepsRecords(env, e, v);
    SameContents(env, start, e, d, from, v, v);
  }

  lemma {:induction false} IdealContents(env: Env, db: Db, from: int, v: int)
    requires 14 <= from <= v && Ideal(env, db, from, v).Some?
    ensures Contents(env, db, Ideal(env, db, from, v).value, from, v)
    decreases v - from
  {
    if from == v {
      ContentsAtStart(env, db, from);
    } else {
      var before, after := Ideal(env, db, from, v - 1).value, Ideal(env, db, from, v).value;
      IdealContents(env, db, from, v - 1);
      if v < 20 {
        EarlyContents(env, db, before, after, from, v);
      } else {
        LaterContents(env, db, before, after, from, v);
      }
    }
  }

  lemma PartwayContents(env: Env, start: Db, base: Db, d: Db, from: int, v: int)
    requires Contents(env, start, base, from, v) && Partway(env, base, d, v + 1)
    ensures Contents(env, start, d, from, v)
  {
    var body := Body(env, v + 1);
    var k :| 0 <= k <= |body| && Apply(env, base, body[..k], Swallows(v + 1)) == (d, true);
    if v + 1 == 15 {
      RelaxedRecords(env, base, body[..k], d);
      SameContents(env, start, base, d, from, v, v);
    } else {
      var c := if v + 1 == 27 then DropColumn("tenant_id") else ConvertRecords;
      EachChanges(env.tables, c);
      ContentsEach(env, start, base, body[..k], c, from, v);
    }
  }

  lemma {:induction false} RelaxedRecords(env: Env, db: Db, ss: seq<Stmt>, d: Db)
    requires forall i :: 0 <= i < |ss| ==> ss[i].On? && ss[i].table == General
    requires Apply(env, db, ss, false) == (d, true)
    ensures SameRecords(db, d)
    decreases |ss|
  {
    if ss != [] {
      var e := One(env, db, ss[0], false).0;
      forall q | Record(q)
        ensures TableOf(e, q) == TableOf(db, q)
      {
        Elsewhere(env, db, ss[0], false, q);
      }
      RelaxedRecords(env, e, ss[1..], d);
    }
  }

  /** However often upgrades were interrupted: the tables of records are those that were there, with their columns and
      rows but for tenant ids and converted types, and those of the steps up to the version read, as they are created. */
  lemma ContentsUpToVersion(env: Env, db: Db, from: int, lines: seq<Line>)
    requires 14 <= from <= LatestVersion && Located(db, from)
    ensures
      var d := AfterRuns(env, db, lines);
      SelectVersion(d).Found? && Contents(env, db, d, from, SelectVersion(d).version)
  {
    var d := AfterRuns(env, db, lines);
    var v := VersionReadIsTrue(env, db, from, lines);
    var base := Ideal(env, db, from, v).value;
    IdealContents(env, db, from, v);
    if d != base {
      PartwayContents(env, db, base, d, from, v);
    }
  }
}
