/** What the steps leave in the database: every effect of the steps up to the version that is read, also between
    interrupted runs. */
module UpgradeEffects {
  import opened Wrappers
  import opened Upgrade
  import opened ResumedUpgrades

  // ---- Effects ---------------------------------------------------------------------------------

  function GeneralAt(v: int): Qualified {
    if v < 18 then General else GeneralLater
  }

  function SystemAt(v: int): Name {
    if v < 18 then "ldpsystem" else "dbsystem"
  }

  predicate ColumnIs(db: Db, q: Qualified, column: Name, kind: Kind, notNull: bool, default: Value) {
    Readable(db, q, column) &&
    var c := At(db, q).columns[column]; c.kind == kind && c.notNull == notNull && c.default == default
  }

  predicate Granted(env: Env, db: Db, q: Qualified) {
    Has(db, q) && env.user in At(db, q).readers && env.configUser in At(db, q).readers
  }

  predicate Cataloged(db: Db, name: Name) {
    var q := Qualified("dbsystem", "tables");
    Has(db, q) && exists i :: 0 <= i < |At(db, q).rows| && Cell(At(db, q).rows[i], "table_name") == Str(name)
  }

  /** A new table, its history, and its catalog row. The history may have been there before. */
  predicate Installed(env: Env, db: Db, name: Name) {
    && Granted(env, db, Public(name)) && At(db, Public(name)).columns == MainTable.columns
    && Granted(env, db, HistoryOf(name))
    && Cataloged(db, name)
  }

  /** The column is gone, unless a view holds it. */
  predicate TenantGone(db: Db, q: Qualified) {
    Has(db, q) && "tenant_id" in At(db, q).columns ==> At(db, q).columns["tenant_id"].used
  }

  /** The table has its new types, or the server refuses them. */
  predicate Retyped(env: Env, db: Db, q: Qualified) {
    Has(db, q) ==>
      var t := At(db, q);
      || Changed(env, t, ConvertRecords) == None
      || (Readable(db, q, "id") && Readable(db, q, "data") && t.columns["id"].kind == Uuid && t.columns["data"].kind == Jsonb)
  }

  predicate Renamed(db: Db) {
    "ldpsystem" !in db && "ldpconfig" !in db && !Has(db, Qualified("dbsystem", "server_lock"))
  }

  predicate Early(db: Db, from: int, v: int) {
    && (from < 15 == v ==>
          Readable(db, General, "disable_anonymization") && Readable(db, General, "update_all_tables") &&
          At(db, General).columns["disable_anonymization"].default == Flag(false) &&
          !At(db, General).columns["update_all_tables"].notNull)
    && (from < 16 <= v ==> ColumnIs(db, GeneralAt(v), "update_all_tables", Boolean, true, Flag(false)))
    && (from < 17 <= v ==> Has(db, Qualified(SystemAt(v), "suggested_foreign_keys")))
    && (from < 18 <= v ==> Renamed(db))
    && (from < 19 <= v ==> !Readable(db, GeneralLater, "disable_anonymization"))
    && (from < 19 <= v ==> ColumnIs(db, Qualified("dbsystem", "main"), "anonymize", Boolean, true, Flag(true)))
  }

  predicate AllInstalled(env: Env, db: Db, names: seq<Name>) {
    forall i :: 0 <= i < |names| ==> Installed(env, db, names[i])
  }

  ghost predicate NewInstalled(env: Env, db: Db, from: int, v: int) {
    forall w :: from < w <= v ==> AllInstalled(env, db, NewTables(w))
  }

  predicate Untenanted(env: Env, db: Db) {
    forall i :: 0 <= i < |env.tables| ==> TenantGone(db, Public(env.tables[i])) && TenantGone(db, HistoryOf(env.tables[i]))
  }

  predicate AllRetyped(env: Env, db: Db) {
    forall i :: 0 <= i < |env.tables| ==> Retyped(env, db, Public(env.tables[i])) && Retyped(env, db, HistoryOf(env.tables[i]))
  }

  /** The effects of the steps from + 1 to v. */
  ghost predicate Effects(env: Env, db: Db, from: int, v: int) {
    && Early(db, from, v)
    && NewInstalled(env, db, from, v)
    && (from < 27 <= v ==> Untenanted(env, db))
    && (from < 34 <= v ==> AllRetyped(env, db))
  }

  // ---- Statements of the steps from 20 on ------------------------------------------------------

  predicate Record(q: Qualified) {
    q.schema == "public" || q.schema == "history"
  }

  predicate Late(s: Stmt) {
    match s
    case CreateTable(q, t, _) => Record(q) && (t == MainTable || t == HistoryTable)
    case On(q, c) =>
      || (Record(q) && (c.Grant? || c.ConvertRecords? || c == DropColumn("tenant_id")))
      || (q == Qualified("dbsystem", "tables") && c.InsertName?)
      || (q == Qualified("dbsystem", "main") && c.SetNumber? && c.column == "database_version")
    case _ => false
  }

  /** The version write changes rows of its table only; no other table outside the two record schemas but the
      catalog is touched. */
  lemma LateFrame(env: Env, db: Db, s: Stmt, swallow: bool, q: Qualified)
    requires Late(s) && !Record(q)
    ensures
      var d := One(env, db, s, swallow).0;
      && d.Keys == db.Keys
      && Has(d, q) == Has(db, q)
      && (Has(db, q) ==> At(d, q).columns == At(db, q).columns)
  {
  }

  lemma LateKeepsEarly(env: Env, db: Db, s: Stmt, swallow: bool, from: int, v: int)
    requires Late(s) && v >= 19 && Early(db, from, v)
    ensures Early(One(env, db, s, swallow).0, from, v)
  {
    LateFrame(env, db, s, swallow, GeneralLater);
    LateFrame(env, db, s, swallow, Qualified("dbsystem", "main"));
    LateFrame(env, db, s, swallow, Qualified("dbsystem", "suggested_foreign_keys"));
    LateFrame(env, db, s, swallow, Qualified("dbsystem", "server_lock"));
  }

  lemma LateKeepsGranted(env: Env, db: Db, s: Stmt, swallow: bool, q: Qualified)
    requires Late(s) && Granted(env, db, q)
    ensures Granted(env, One(env, db, s, swallow).0, q)
  {
  }

  lemma LateKeepsColumns(env: Env, db: Db, s: Stmt, swallow: bool, q: Qualified)
    requires Late(s) && Record(q) && Has(db, q) && At(db, q).columns == MainTable.columns
    ensures
      var d := One(env, db, s, swallow).0;
      Has(d, q) && At(d, q).columns == MainTable.columns
  {
    if s.On? && s.table == q && s.change.ConvertRecords? && Exec(env, db, s).Some? {
      var u := Changed(env, At(db, q), ConvertRecords).value;
      assert u.columns == MainTable.columns;
      PutAt(db, q, u);
    }
  }

  lemma LateKeepsCataloged(env: Env, db: Db, s: Stmt, swallow: bool, name: Name)
    requires Late(s) && Cataloged(db, name)
    ensures Cataloged(One(env, db, s, swallow).0, name)
  {
    var q := Qualified("dbsystem", "tables");
    var i :| 0 <= i < |At(db, q).rows| && Cell(At(db, q).rows[i], "table_name") == Str(name);
    var d := One(env, db, s, swallow).0;
    assert Has(d, q) && i < |At(d, q).rows| && At(d, q).rows[i] == At(db, q).rows[i];
  }

  lemma LateKeepsInstalled(env: Env, db: Db, s: Stmt, swallow: bool, name: Name)
    requires Late(s) && Installed(env, db, name)
    ensures Installed(env, One(env, db, s, swallow).0, name)
  {
    LateKeepsGranted(env, db, s, swallow, Public(name));
    LateKeepsGranted(env, db, s, swallow, HistoryOf(name));
    LateKeepsColumns(env, db, s, swallow, Public(name));
    LateKeepsCataloged(env, db, s, swallow, name);
  }

  lemma LateKeepsTenantGone(env: Env, db: Db, s: Stmt, swallow: bool, q: Qualified)
    requires Late(s) && Record(q) && TenantGone(db, q)
    ensures TenantGone(One(env, db, s, swallow).0, q)
  {
  }

  predicate DropsNothing(s: Stmt) {
    s.On? ==> !s.change.DropColumn?
  }

  lemma LateKeepsRetyped(env: Env, db: Db, s: Stmt, swallow: bool, q: Qualified)
    requires Late(s) && Record(q) && Retyped(env, db, q) && DropsNothing(s)
    ensures Retyped(env, One(env, db, s, swallow).0, q)
  {
  }

  lemma LateKeepsEffects(env: Env, db: Db, s: Stmt, swallow: bool, from: int, v: int)
    requires Late(s) && v >= 19 && Effects(env, db, from, v) && (v >= 34 ==> DropsNothing(s))
    ensures Effects(env, One(env, db, s, swallow).0, from, v)
  {
    var d := One(env, db, s, swallow).0;
    LateKeepsEarly(env, db, s, swallow, from, v);
    forall w, i | from < w <= v && 0 <= i < |NewTables(w)|
      ensures Installed(env, d, NewTables(w)[i])
    {
      assert AllInstalled(env, db, NewTables(w));
      LateKeepsInstalled(env, db, s, swallow, NewTables(w)[i]);
    }
    forall i | 0 <= i < |env.tables| && from < 27 <= v
      ensures TenantGone(d, Public(env.tables[i])) && TenantGone(d, HistoryOf(env.tables[i]))
    {
      LateKeepsTenantGone(env, db, s, swallow, Public(env.tables[i]));
      LateKeepsTenantGone(env, db, s, swallow, HistoryOf(env.tables[i]));
    }
    forall i | 0 <= i < |env.tables| && from < 34 <= v
      ensures Retyped(env, d, Public(env.tables[i])) && Retyped(env, d, HistoryOf(env.tables[i]))
    {
      LateKeepsRetyped(env, db, s, swallow, Public(env.tables[i]));
      LateKeepsRetyped(env, db, s, swallow, HistoryOf(env.tables[i]));
    }
  }

  predicate AllLate(ss: seq<Stmt>, v: int) {
    forall i :: 0 <= i < |ss| ==> Late(ss[i]) && (v >= 34 ==> DropsNothing(ss[i]))
  }

  lemma {:induction false} LateKeepAllEffects(env: Env, db: Db, ss: seq<Stmt>, swallow: bool, from: int, v: int)
    requires v >= 19 && Effects(env, db, from, v) && AllLate(ss, v)
    ensures Effects(env, Apply(env, db, ss, swallow).0, from, v)
    decreases |ss|
  {
    if ss != [] {
      LateKeepsEffects(env, db, ss[0], swallow, from, v);
      var (d, ok) := One(env, db, ss[0], swallow);
      if ok {
        LateKeepAllEffects(env, d, ss[1..], swallow, from, v);
      }
    }
  }

  lemma {:induction false} LateKeepInstalled(env: Env, db: Db, ss: seq<Stmt>, swallow: bool, name: Name)
    requires Installed(env, db, name) && AllLate(ss, 0)
    ensures Installed(env, Apply(env, db, ss, swallow).0, name)
    decreases |ss|
  {
    if ss != [] {
      LateKeepsInstalled(env, db, ss[0], swallow, name);
      var (d, ok) := One(env, db, ss[0], swallow);
      if ok {
        LateKeepInstalled(env, d, ss[1..], swallow, name);
      }
    }
  }

  lemma {:induction false} AddTablesLate(env: Env, names: seq<Name>)
    ensures AllLate(AddTables(env, names), 35)
  {
    if names != [] {
      AddTablesLate(env, names[1..]);
    }
  }

  lemma {:induction false} EachLate(names: seq<Name>, change: Change, v: int)
    requires change.ConvertRecords? || (change == DropColumn("tenant_id") && v < 34)
    ensures AllLate(OnEach(names, change), v)
  {
    if names != [] {
      EachLate(names[1..], change, v);
    }
  }

  lemma BodyLate(env: Env, v: int)
    requires 20 <= v
    ensures AllLate(Body(env, v), v - 1)
  {
    if v == 27 {
      EachLate(env.tables, DropColumn("tenant_id"), v - 1);
    } else if v == 34 {
      EachLate(env.tables, ConvertRecords, v - 1);
    } else {
      AddTablesLate(env, NewTables(v));
    }
  }

  // ---- A new table -----------------------------------------------------------------------------

  lemma GrantGrants(env: Env, db: Db, q: Qualified, user: Name)
    requires One(env, db, On(q, Grant(user)), false).1
    ensures
      var d := One(env, db, On(q, Grant(user)), false).0;
      && Has(db, q) && Has(d, q)
      && At(d, q) == At(db, q).(readers := At(db, q).readers + {user})
      && forall p :: p != q ==> Has(d, p) == Has(db, p) && (Has(db, p) ==> At(d, p) == At(db, p))
  {
    PutAt(db, q, At(db, q).(readers := At(db, q).readers + {user}));
  }

  lemma InsertCatalogs(env: Env, db: Db, name: Name)
    requires One(env, db, On(Qualified("dbsystem", "tables"), InsertName(name)), false).1
    ensures
      var d := One(env, db, On(Qualified("dbsystem", "tables"), InsertName(name)), false).0;
      && Cataloged(d, name)
      && forall p :: Record(p) ==> Has(d, p) == Has(db, p) && (Has(db, p) ==> At(d, p) == At(db, p))
  {
    var q := Qualified("dbsystem", "tables");
    var u := Changed(env, At(db, q), InsertName(name)).value;
    PutAt(db, q, u);
    var i := |At(db, q).rows|;
    assert Cell(u.rows[i], "table_name") == Str(name);
  }

  predicate PublicInstalled(env: Env, db: Db, name: Name) {
    Granted(env, db, Public(name)) && At(db, Public(name)).columns == MainTable.columns
  }

  lemma PublicInstalls(env: Env, db: Db, name: Name)
    requires Apply(env, db, AddTable(env, name)[..3], false).1
    ensures PublicInstalled(env, Apply(env, db, AddTable(env, name)[..3], false).0, name)
  {
    var s := AddTable(env, name);
    assert s[..3] == [s[0]] + ([s[1]] + [s[2]]);
    ApplyFirst(env, db, s[0], [s[1]] + [s[2]], false);
    var d1 := One(env, db, s[0], false).0;
    assert Has(d1, Public(name)) && At(d1, Public(name)) == MainTable;
    ApplyFirst(env, d1, s[1], [s[2]], false);
    GrantGrants(env, d1, Public(name), env.user);
    var d2 := One(env, d1, s[1], false).0;
    ApplyFirst(env, d2, s[2], [], false);
    GrantGrants(env, d2, Public(name), env.configUser);
  }

  lemma HistoryInstalls(env: Env, db: Db, name: Name)
    requires Apply(env, db, AddTable(env, name)[3..], false).1 && PublicInstalled(env, db, name)
    ensures Installed(env, Apply(env, db, AddTable(env, name)[3..], false).0, name)
  {
    var s := AddTable(env, name)[3..];
    assert s == [s[0]] + ([s[1]] + ([s[2]] + [s[3]]));
    ApplyFirst(env, db, s[0], [s[1]] + ([s[2]] + [s[3]]), false);
    LateKeepsGranted(env, db, s[0], false, Public(name));
    LateKeepsColumns(env, db, s[0], false, Public(name));
    var d1 := One(env, db, s[0], false).0;
    ApplyFirst(env, d1, s[1], [s[2]] + [s[3]], false);
    GrantGrants(env, d1, HistoryOf(name), env.user);
    var d2 := One(env, d1, s[1], false).0;
    ApplyFirst(env, d2, s[2], [s[3]], false);
    GrantGrants(env, d2, HistoryOf(name), env.configUser);
    var d3 := One(env, d2, s[2], false).0;
    ApplyFirst(env, d3, s[3], [], false);
    InsertCatalogs(env, d3, name);
  }

  lemma AddTableInstalls(env: Env, db: Db, name: Name)
    requires Apply(env, db, AddTable(env, name), false).1
    ensures Installed(env, Apply(env, db, AddTable(env, name), false).0, name)
  {
    var s := AddTable(env, name);
    assert s == s[..3] + s[3..];
    ApplyAppend(env, db, s[..3], s[3..], false);
    PublicInstalls(env, db, name);
    HistoryInstalls(env, Apply(env, db, s[..3], false).0, name);
  }

  lemma {:induction false} AddTablesInstall(env: Env, db: Db, names: seq<Name>)
    requires Apply(env, db, AddTables(env, names), false).1
    ensures AllInstalled(env, Apply(env, db, AddTables(env, names), false).0, names)
    decreases |names|
  {
    if names != [] {
      ApplyAppend(env, db, AddTable(env, names[0]), AddTables(env, names[1..]), false);
      AddTableInstalls(env, db, names[0]);
      var d := Apply(env, db, AddTable(env, names[0]), false).0;
      AddTablesInstall(env, d, names[1..]);
      AddTablesLate(env, names[1..]);
      LateKeepInstalled(env, d, AddTables(env, names[1..]), false, names[0]);
    }
  }

  // ---- Every table -----------------------------------------------------------------------------

  lemma {:induction false} EachHas(names: seq<Name>, change: Change, i: nat)
    requires i < |names|
    ensures |OnEach(names, change)| == 2 * |names|
    ensures OnEach(names, change)[2 * i] == On(Public(names[i]), change)
    ensures OnEach(names, change)[2 * i + 1] == On(HistoryOf(names[i]), change)
  {
    if i > 0 {
      EachHas(names[1..], change, i - 1);
    } else if |names| > 1 {
      EachHas(names[1..], change, 0);
    }
  }

  /** A statement tried on every table is settled on every table. */
  lemma EachSettled(env: Env, db: Db, v: int, change: Change, i: nat)
    requires !InTransaction(v) && Swallows(v) && Body(env, v) == OnEach(env.tables, change) && i < |env.tables|
    ensures
      var d := Apply(env, db, Body(env, v), true).0;
      && Settled(env, d, On(Public(env.tables[i]), change), true)
      && Settled(env, d, On(HistoryOf(env.tables[i]), change), true)
  {
    var body := Body(env, v);
    BodyCompatible(env, v);
    SwallowedApply(env, db, body);
    assert body[..|body|] == body;
    PrefixSettled(env, db, body, |body|, true);
    EachHas(env.tables, change, i);
  }

  lemma SettledTenantGone(env: Env, db: Db, q: Qualified)
    requires Settled(env, db, On(q, DropColumn("tenant_id")), true)
    ensures TenantGone(db, q)
  {
    if Has(db, q) && Changed(env, At(db, q), DropColumn("tenant_id")).Some? {
      PutAt(db, q, Changed(env, At(db, q), DropColumn("tenant_id")).value);
    }
  }

  lemma SettledRetyped(env: Env, db: Db, q: Qualified)
    requires Settled(env, db, On(q, ConvertRecords), true)
    ensures Retyped(env, db, q)
  {
    if Has(db, q) && Changed(env, At(db, q), ConvertRecords).Some? {
      PutAt(db, q, Changed(env, At(db, q), ConvertRecords).value);
    }
  }

  // ---- Steps 15 to 19 --------------------------------------------------------------------------

  lemma ChangePuts(env: Env, db: Db, q: Qualified, change: Change)
    requires One(env, db, On(q, change), false).1
    ensures
      var d := One(env, db, On(q, change), false).0;
      && Has(db, q) && Has(d, q) && d.Keys == db.Keys && Changed(env, At(db, q), change) == Some(At(d, q))
      && forall p :: p != q ==> Has(d, p) == Has(db, p) && (Has(db, p) ==> At(d, p) == At(db, p))
  {
    PutAt(db, q, Changed(env, At(db, q), change).value);
  }

  lemma TwoChanges(env: Env, db: Db, q: Qualified, a: Change, r: Qualified, b: Change)
    requires Apply(env, db, [On(q, a), On(r, b)], false).1
    ensures
      var d := One(env, db, On(q, a), false).0;
      && One(env, db, On(q, a), false).1 && One(env, d, On(r, b), false).1
      && Apply(env, db, [On(q, a), On(r, b)], false).0 == One(env, d, On(r, b), false).0
  {
    assert [On(q, a), On(r, b)] == [On(q, a)] + [On(r, b)];
    ApplyFirst(env, db, On(q, a), [On(r, b)], false);
    ApplyFirst(env, One(env, db, On(q, a), false).0, On(r, b), [], false);
  }

  lemma Effects15(env: Env, db: Db, from: int)
    requires from < 15 && Apply(env, db, Body(env, 15), false).1
    ensures Early(Apply(env, db, Body(env, 15), false).0, from, 15)
  {
    var a, b := SetDefault("disable_anonymization", Flag(false)), DropNotNull("update_all_tables");
    TwoChanges(env, db, General, a, General, b);
    ChangePuts(env, db, General, a);
    ChangePuts(env, One(env, db, On(General, a), false).0, General, b);
  }

  lemma Effects16(env: Env, db: Db, from: int)
    requires Apply(env, db, Body(env, 16), false).1
    ensures Early(Apply(env, db, Body(env, 16), false).0, from, 16)
  {
    var a, b := DropColumn("update_all_tables"), AddColumn("update_all_tables", Column(Boolean, true, Flag(false), false));
    TwoChanges(env, db, General, a, General, b);
    ChangePuts(env, One(env, db, On(General, a), false).0, General, b);
  }

  lemma Effects17(env: Env, db: Db, from: int)
    requires Early(db, from, 16) && Apply(env, db, Body(env, 17), false).1
    ensures Early(Apply(env, db, Body(env, 17), false).0, from, 17)
  {
    assert Body(env, 17) == [Body(env, 17)[0]] + [];
    ApplyFirst(env, db, Body(env, 17)[0], [], false);
  }

  /** The renamed system schema without its lock table. */
  lemma LockDropped(env: Env, db: Db)
    requires Apply(env, db, Body(env, 18)[..2], false).1
    ensures
      var d := Apply(env, db, Body(env, 18)[..2], false).0;
      && "ldpsystem" in db && d.Keys == db.Keys - {"ldpsystem"} + {"dbsystem"}
      && d["dbsystem"] == db["ldpsystem"] - {"server_lock"}
      && Has(d, General) == Has(db, General) && (Has(db, General) ==> At(d, General) == At(db, General))
  {
    var s := Body(env, 18)[..2];
    assert s == [s[0]] + [s[1]];
    ApplyFirst(env, db, s[0], [s[1]], false);
    ApplyFirst(env, One(env, db, s[0], false).0, s[1], [], false);
  }

  lemma SchemasMoved(env: Env, db: Db)
    requires Apply(env, db, Body(env, 18)[2..], false).1
    ensures
      var d := Apply(env, db, Body(env, 18)[2..], false).0;
      && d.Keys == db.Keys - {"ldpconfig"} + {"dbconfig"}
      && (Has(db, General) ==> Has(d, GeneralLater) && At(d, GeneralLater) == At(db, General))
      && forall p: Qualified :: p.schema == "dbsystem" ==> Has(d, p) == Has(db, p)
  {
    var s := Body(env, 18)[2..];
    assert s == [s[0]] + [s[1]];
    ApplyFirst(env, db, s[0], [s[1]], false);
    ChangePuts(env, db, s[0].table, s[0].change);
    var d := One(env, db, s[0], false).0;
    ApplyFirst(env, d, s[1], [], false);
    Moved(env, d, One(env, d, s[1], false).0);
  }

  lemma Effects18(env: Env, db: Db, from: int)
    requires Early(db, from, 17) && Apply(env, db, Body(env, 18), false).1
    ensures Early(Apply(env, db, Body(env, 18), false).0, from, 18)
  {
    var s := Body(env, 18);
    assert s == s[..2] + s[2..];
    ApplyAppend(env, db, s[..2], s[2..], false);
    LockDropped(env, db);
    SchemasMoved(env, Apply(env, db, s[..2], false).0);
  }

  lemma Moved(env: Env, db: Db, d: Db)
    requires Exec(env, db, RenameSchema("ldpconfig", "dbconfig")) == Some(d)
    ensures d.Keys == db.Keys - {"ldpconfig"} + {"dbconfig"}
    ensures Has(db, General) <==> Has(d, GeneralLater)
    ensures Has(db, General) ==> At(d, GeneralLater) == At(db, General)
    ensures forall p: Qualified :: p.schema == "dbsystem" ==> Has(d, p) == Has(db, p) && (Has(db, p) ==> At(d, p) == At(db, p))
  {
  }

  lemma Effects19(env: Env, db: Db, from: int)
    requires Early(db, from, 18) && Apply(env, db, Body(env, 19), false).1
    ensures Early(Apply(env, db, Body(env, 19), false).0, from, 19)
  {
    var a, b := DropColumn("disable_anonymization"), AddColumn("anonymize", Column(Boolean, true, Flag(true), false));
    var main := Qualified("dbsystem", "main");
    TwoChanges(env, db, GeneralLater, a, main, b);
    ChangePuts(env, db, GeneralLater, a);
    ChangePuts(env, One(env, db, On(GeneralLater, a), false).0, main, b);
  }

  lemma WriteKeepsEarly(env: Env, db: Db, from: int, v: int)
    requires Early(db, from, v) && One(env, db, VersionWrite(v), false).1
    ensures Early(One(env, db, VersionWrite(v), false).0, from, v)
  {
    ChangePuts(env, db, VersionWrite(v).table, VersionWrite(v).change);
  }

  // ---- Every step ------------------------------------------------------------------------------

  lemma EarlyBody(env: Env, db: Db, from: int, v: int)
    requires from < v < 20 && 14 <= from && Early(db, from, v - 1) && Apply(env, db, Body(env, v), Swallows(v)).1
    ensures Early(Apply(env, db, Body(env, v), Swallows(v)).0, from, v)
  {
    match v {
      case 15 => Effects15(env, db, from);
      case 16 => Effects16(env, db, from);
      case 17 => Effects17(env, db, from);
      case 18 => Effects18(env, db, from);
      case 19 => Effects19(env, db, from);
    }
  }

  lemma EarlyStep(env: Env, db: Db, from: int, v: int)
    requires from < v < 20 && 14 <= from && Early(db, from, v - 1) && Whole(env, db, v).Some?
    ensures Early(Whole(env, db, v).value, from, v)
  {
    EarlyBody(env, db, from, v);
    WriteKeepsEarly(env, Apply(env, db, Body(env, v), Swallows(v)).0, from, v);
  }

  lemma OnlyEarly(env: Env, db: Db, from: int, v: int)
    requires v < 20
    ensures Effects(env, db, from, v) <==> Early(db, from, v)
  {
  }

  lemma NewTablesStep(env: Env, db: Db, v: int)
    requires Apply(env, db, Body(env, v), Swallows(v)).1 && 20 <= v
    ensures AllInstalled(env, Apply(env, db, Body(env, v), Swallows(v)).0, NewTables(v))
  {
    if !Swallows(v) {
      AddTablesInstall(env, db, NewTables(v));
    }
  }

  /** The body of a later step adds its effects. */
  lemma BodyEffects(env: Env, db: Db, from: int, v: int)
    requires from < v && 20 <= v && Effects(env, db, from, v - 1) && Apply(env, db, Body(env, v), Swallows(v)).1
    ensures Effects(env, Apply(env, db, Body(env, v), Swallows(v)).0, from, v)
  {
    BodyLate(env, v);
    LateKeepAllEffects(env, db, Body(env, v), Swallows(v), from, v - 1);
    NewTablesStep(env, db, v);
    if v == 27 {
      UntenantedStep(env, db);
    } else if v == 34 {
      RetypedStep(env, db);
    }
  }

  lemma LaterStep(env: Env, db: Db, from: int, v: int)
    requires from < v && 20 <= v && Effects(env, db, from, v - 1) && Whole(env, db, v).Some?
    ensures Effects(env, Whole(env, db, v).value, from, v)
  {
    BodyEffects(env, db, from, v);
    LateKeepsEffects(env, Apply(env, db, Body(env, v), Swallows(v)).0, VersionWrite(v), false, from, v);
  }

  lemma UntenantedStep(env: Env, db: Db)
    ensures Untenanted(env, Apply(env, db, Body(env, 27), true).0)
  {
    var d := Apply(env, db, Body(env, 27), true).0;
    forall i | 0 <= i < |env.tables|
      ensures TenantGone(d, Public(env.tables[i])) && TenantGone(d, HistoryOf(env.tables[i]))
    {
      EachSettled(env, db, 27, DropColumn("tenant_id"), i);
      SettledTenantGone(env, d, Public(env.tables[i]));
      SettledTenantGone(env, d, HistoryOf(env.tables[i]));
    }
  }

  lemma RetypedStep(env: Env, db: Db)
    ensures AllRetyped(env, Apply(env, db, Body(env, 34), true).0)
  {
    var d := Apply(env, db, Body(env, 34), true).0;
    forall i | 0 <= i < |env.tables|
      ensures Retyped(env, d, Public(env.tables[i])) && Retyped(env, d, HistoryOf(env.tables[i]))
    {
      EachSettled(env, db, 34, ConvertRecords, i);
      SettledRetyped(env, d, Public(env.tables[i]));
      SettledRetyped(env, d, HistoryOf(env.tables[i]));
    }
  }

  /** An uninterrupted upgrade to version v. */
  lemma {:induction false} StepEffects(env: Env, db: Db, from: int, v: int, d: Db)
    requires 14 <= from <= v && Ideal(env, db, from, v) == Some(d)
    ensures Effects(env, d, from, v)
    decreases v - from
  {
    if from == v {
      NothingDone(env, db, from);
    } else {
      var before := Ideal(env, db, from, v - 1).value;
      StepEffects(env, db, from, v - 1, before);
      OneStep(env, before, from, v);
    }
  }

  lemma NothingDone(env: Env, db: Db, from: int)
    ensures Effects(env, db, from, from)
  {
  }

  lemma OneStep(env: Env, db: Db, from: int, v: int)
    requires 14 <= from < v && Effects(env, db, from, v - 1) && Whole(env, db, v).Some?
    ensures Effects(env, Whole(env, db, v).value, from, v)
  {
    if v < 20 {
      EarlyStep(env, db, from, v);
      OnlyEarly(env, Whole(env, db, v).value, from, v);
    } else {
      LaterStep(env, db, from, v);
    }
  }

  /** However often upgrades were interrupted, the version that is read says which effects are there: those of all
      steps up to it. */
  lemma EffectsUpToVersion(env: Env, db: Db, from: int, lines: seq<Line>)
    requires 14 <= from <= LatestVersion && Located(db, from)
    ensures
      var d := AfterRuns(env, db, lines);
      && SelectVersion(d).Found? && from <= SelectVersion(d).version <= LatestVersion
      && Effects(env, d, from, SelectVersion(d).version)
  {
    var d := AfterRuns(env, db, lines);
    var v := VersionReadIsTrue(env, db, from, lines);
    var base := Ideal(env, db, from, v).value;
    StepEffects(env, db, from, v, base);
    if d != base {
      PartwayKeepsEffects(env, base, d, from, v);
    }
  }

  lemma PartwayKeepsEffects(env: Env, base: Db, d: Db, from: int, v: int)
    requires 14 <= from <= v && Effects(env, base, from, v) && Partway(env, base, d, v + 1)
    ensures Effects(env, d, from, v)
  {
    var k :| 0 <= k <= |Body(env, v + 1)| && Apply(env, base, Body(env, v + 1)[..k], Swallows(v + 1)) == (d, true);
    if v >= 20 {
      BodyLate(env, v + 1);
      LateKeepAllEffects(env, base, Body(env, v + 1)[..k], Swallows(v + 1), from, v);
    }
  }
}
