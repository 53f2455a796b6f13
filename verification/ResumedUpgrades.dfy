/** Interrupted upgrades: what they leave, what a later run reads, and where the last run arrives. */
module ResumedUpgrades {
  import opened Wrappers
  import opened Upgrade

  // ---- Statements without a connection ---------------------------------------------------------

  function One(env: Env, db: Db, s: Stmt, swallow: bool): (Db, bool) {
    match Exec(env, db, s)
    case Some(d) => (d, true)
    case None => (db, swallow)
  }

  function Apply(env: Env, db: Db, ss: seq<Stmt>, swallow: bool): (Db, bool)
    decreases |ss|
  {
    if ss == [] then (db, true)
    else
      var (d, ok) := One(env, db, ss[0], swallow);
      if ok then Apply(env, d, ss[1..], swallow) else (d, false)
  }

  lemma {:induction false} ApplyAppend(env: Env, db: Db, a: seq<Stmt>, b: seq<Stmt>, swallow: bool)
    ensures
      var (d, ok) := Apply(env, db, a, swallow);
      Apply(env, db, a + b, swallow) == if ok then Apply(env, d, b, swallow) else (d, false)
    decreases |a|
  {
    if a == [] {
      assert a + b == b;
    } else {
      assert (a + b)[0] == a[0] && (a + b)[1..] == a[1..] + b;
      var (d, ok) := One(env, db, a[0], swallow);
      if ok {
        ApplyAppend(env, d, a[1..], b, swallow);
      }
    }
  }

  /** One uninterrupted step. */
  function Whole(env: Env, db: Db, v: int): Option<Db> {
    var (d, ok) := Apply(env, db, Body(env, v), Swallows(v));
    if ok then Exec(env, d, VersionWrite(v)) else None
  }

  // ---- The connection and the statements -------------------------------------------------------

  lemma {:induction false} SendAllUp(env: Env, db: Db, ss: seq<Stmt>, swallow: bool)
    ensures
      var (d, ok) := Apply(env, db, ss, swallow);
      SendAll(env, Link(db, Idle, Up), ss, swallow) == (Link(d, Idle, Up), ok)
    decreases |ss|
  {
    if ss != [] {
      var (d, ok) := One(env, db, ss[0], swallow);
      if ok {
        SendAllUp(env, d, ss[1..], swallow);
      }
    }
  }

  lemma {:induction false} SendAllOpen(env: Env, l: Link, ss: seq<Stmt>)
    requires l.work.Open?
    ensures
      var (m, ok) := SendAll(env, l, ss, false);
      && m.db == l.db
      && (ok ==> m.work.Open? && Apply(env, l.work.work, ss, false) == (m.work.work, true))
      && (l.line.Up? ==> m.line.Up? && ok == Apply(env, l.work.work, ss, false).1)
    decreases |ss|
  {
    if ss != [] {
      var (next, ok) := Send(env, l, ss[0]);
      if ok {
        SendAllOpen(env, next, ss[1..]);
      }
    }
  }

  /** Without a transaction some of the statements have been executed, all of them if the line still holds. */
  lemma {:induction false} SendAllAlone(env: Env, l: Link, ss: seq<Stmt>, swallow: bool) returns (k: nat)
    requires l.work.Idle?
    ensures k <= |ss|
    ensures
      var (m, ok) := SendAll(env, l, ss, swallow);
      && m.work.Idle?
      && Apply(env, l.db, ss[..k], swallow) == (m.db, true)
      && (ok && !Lost(m.line) ==> k == |ss|)
    decreases |ss|
  {
    if ss == [] {
      return 0;
    }
    var (next, ok) := Send(env, l, ss[0]);
    if Lost(l.line) {
      if swallow {
        k := SendAllAlone(env, next, ss[1..], swallow);
        SendAllLost(env, next, ss[1..], swallow);
      }
      return 0;
    }
    if !ok && !swallow {
      return 0;
    }
    k := SendAllAlone(env, next, ss[1..], swallow);
    assert ss[..k + 1][0] == ss[0] && ss[..k + 1][1..] == ss[1..][..k];
    k := k + 1;
  }

  lemma {:induction false} SendAllLost(env: Env, l: Link, ss: seq<Stmt>, swallow: bool)
    requires l.work.Idle? && Lost(l.line)
    ensures SendAll(env, l, ss, swallow).0 == l
    decreases |ss|
  {
    if ss != [] && swallow {
      SendAllLost(env, l, ss[1..], swallow);
    }
  }

  lemma StepUp(env: Env, db: Db, v: int)
    ensures
      var (l, ok) := RunStep(env, Link(db, Idle, Up), v);
      && (ok <==> Whole(env, db, v).Some?)
      && (ok ==> l == Link(Whole(env, db, v).value, Idle, Up))
      && (!ok && InTransaction(v) ==> l.db == db)
      && (!ok && !InTransaction(v) ==> l == Link(Apply(env, db, Body(env, v), Swallows(v)).0, Idle, Up))
  {
    if InTransaction(v) {
      SendAllOpen(env, Begin(Link(db, Idle, Up)).0, Body(env, v));
    } else {
      SendAllUp(env, db, Body(env, v), Swallows(v));
    }
  }

  /** A transaction applies fully or not at all, wherever the connection is lost. */
  lemma TransactionIsAtomic(env: Env, l: Link, v: int)
    requires l.work.Idle? && v != 15 && v != 27 && v != 34
    ensures
      var (m, ok) := RunStep(env, l, v);
      if ok then m.work.Idle? && Whole(env, l.db, v) == Some(m.db) else m.db == l.db
  {
    if !Lost(l.line) {
      SendAllOpen(env, Begin(l).0, Body(env, v));
    }
  }

  /** A step outside a transaction stops after some of its statements; its version write comes last. */
  lemma StatementsStop(env: Env, l: Link, v: int) returns (k: nat)
    requires l.work.Idle? && (v == 15 || v == 27 || v == 34)
    ensures k <= |Body(env, v)|
    ensures
      var (m, ok) := RunStep(env, l, v);
      if ok then m.work.Idle? && Whole(env, l.db, v) == Some(m.db)
      else Apply(env, l.db, Body(env, v)[..k], Swallows(v)) == (m.db, true)
  {
    k := SendAllAlone(env, l, Body(env, v), Swallows(v));
    assert Body(env, v)[..|Body(env, v)|] == Body(env, v);
  }

  lemma {:induction false} SendAllCut(env: Env, db: Db, ss: seq<Stmt>, k: nat, swallow: bool)
    requires k <= |ss| && Apply(env, db, ss[..k], swallow).1
    ensures
      var m := SendAll(env, Link(db, Idle, Cut(k)), ss, swallow).0;
      m.db == Apply(env, db, ss[..k], swallow).0 && Lost(m.line) && m.work.Idle?
    decreases k
  {
    if k == 0 {
      SendAllLost(env, Link(db, Idle, Cut(0)), ss, swallow);
    } else {
      assert ss[..k][0] == ss[0] && ss[..k][1..] == ss[1..][..k - 1];
      SendAllCut(env, One(env, db, ss[0], swallow).0, ss[1..], k - 1, swallow);
    }
  }

  /** And it can stop after any of them: where the connection is lost after k statements, what these did is there, and
      the version is not written. Steps 27 and 34 go on after a statement that the server refuses. */
  lemma StopsAfterAny(env: Env, db: Db, v: int, k: nat)
    requires (v == 15 || v == 27 || v == 34) && k <= |Body(env, v)|
    requires v == 15 ==> Apply(env, db, Body(env, v)[..k], false).1
    ensures
      var (m, ok) := RunStep(env, Link(db, Idle, Cut(k)), v);
      !ok && m.db == Apply(env, db, Body(env, v)[..k], v != 15).0
  {
    if v != 15 {
      SwallowedApply(env, db, Body(env, v)[..k]);
    }
    SendAllCut(env, db, Body(env, v), k, v != 15);
  }

  lemma {:induction false} SwallowedApply(env: Env, db: Db, ss: seq<Stmt>)
    ensures Apply(env, db, ss, true).1
    decreases |ss|
  {
    if ss != [] {
      SwallowedApply(env, One(env, db, ss[0], true).0, ss[1..]);
    }
  }

  // ---- Repeatable statements -------------------------------------------------------------------

  predicate Gentle(change: Change, swallow: bool) {
    change.SetDefault? || change.DropNotNull? || change.ConvertRecords? || (change.DropColumn? && swallow)
  }

  predicate Compatible(s: Stmt, t: Stmt, swallow: bool) {
    && s.On? && t.On? && Gentle(s.change, swallow) && Gentle(t.change, swallow)
    && (|| s.table != t.table
        || s.change == t.change
        || (s.change.SetDefault? && t.change.DropNotNull?)
        || (s.change.DropNotNull? && t.change.SetDefault?))
  }

  predicate AllCompatible(ss: seq<Stmt>, swallow: bool) {
    forall i, j :: 0 <= i < |ss| && 0 <= j < |ss| ==> Compatible(ss[i], ss[j], swallow)
  }

  predicate Settled(env: Env, db: Db, s: Stmt, swallow: bool) {
    One(env, db, s, swallow) == (db, true)
  }

  lemma {:induction false} ConvertedTwice(env: Env, rows: seq<Row>)
    requires ConvertedRows(env, rows).Some?
    ensures ConvertedRows(env, ConvertedRows(env, rows).value) == ConvertedRows(env, rows)
  {
    if rows != [] {
      ConvertedTwice(env, rows[1..]);
      var converted := ConvertedRows(env, rows).value;
      assert converted[1..] == ConvertedRows(env, rows[1..]).value;
      assert converted[0]["id" := converted[0]["id"]]["data" := converted[0]["data"]] == converted[0];
    }
  }

  lemma ConvertSettles(env: Env, t: Table)
    requires Changed(env, t, ConvertRecords).Some?
    ensures Changed(env, Changed(env, t, ConvertRecords).value, ConvertRecords) == Changed(env, t, ConvertRecords)
  {
    ConvertedTwice(env, t.rows);
    var u := Changed(env, t, ConvertRecords).value;
    assert u.columns["id" := u.columns["id"].(kind := Uuid)]["data" := u.columns["data"].(kind := Jsonb)] == u.columns;
  }

  lemma ChangeSettles(env: Env, t: Table, change: Change)
    requires Gentle(change, true) && Changed(env, t, change).Some?
    ensures
      var u := Changed(env, t, change).value;
      Changed(env, u, change) == if change.DropColumn? then None else Some(u)
  {
    var u := Changed(env, t, change).value;
    match change {
      case SetDefault(c, v) => assert u.columns[c := u.columns[c].(default := v)] == u.columns;
      case DropNotNull(c) => assert u.columns[c := u.columns[c].(notNull := false)] == u.columns;
      case ConvertRecords => ConvertSettles(env, t);
      case _ =>
    }
  }

  lemma PutAt(db: Db, q: Qualified, t: Table)
    requires Has(db, q)
    ensures Has(Put(db, q, t), q) && At(Put(db, q, t), q) == t
    ensures t == At(db, q) <==> Put(db, q, t) == db
    ensures forall p :: p != q ==> Has(Put(db, q, t), p) == Has(db, p)
    ensures forall p :: p != q && Has(db, p) ==> At(Put(db, q, t), p) == At(db, p)
  {
    if t == At(db, q) {
      assert db[q.schema][q.name := t] == db[q.schema];
    }
  }

  lemma OneSettles(env: Env, db: Db, s: Stmt, swallow: bool)
    requires s.On? && Gentle(s.change, swallow) && One(env, db, s, swallow).1
    ensures Settled(env, One(env, db, s, swallow).0, s, swallow)
  {
    if Exec(env, db, s).Some? {
      var u := Changed(env, At(db, s.table), s.change).value;
      ChangeSettles(env, At(db, s.table), s.change);
      PutAt(db, s.table, u);
      PutAt(Put(db, s.table, u), s.table, u);
    }
  }

  lemma SettingsApart(env: Env, t: Table, a: Change, b: Change)
    requires (a.SetDefault? && b.DropNotNull?) || (a.DropNotNull? && b.SetDefault?)
    requires Changed(env, t, a) == Some(t) && Changed(env, t, b).Some?
    ensures Changed(env, Changed(env, t, b).value, a) == Changed(env, t, b)
  {
    var u := Changed(env, t, b).value;
    assert t.columns[a.column] == Changed(env, t, a).value.columns[a.column];
    assert Changed(env, u, a).value.columns == u.columns;
  }

  lemma KeepsSettled(env: Env, db: Db, s: Stmt, t: Stmt, swallow: bool)
    requires Compatible(s, t, swallow) && Settled(env, db, s, swallow) && One(env, db, t, swallow).1
    ensures Settled(env, One(env, db, t, swallow).0, s, swallow)
  {
    if Exec(env, db, t).Some? && s != t {
      var u := Changed(env, At(db, t.table), t.change).value;
      var d := Put(db, t.table, u);
      PutAt(db, t.table, u);
      if Exec(env, db, s).Some? {
        PutAt(db, s.table, Changed(env, At(db, s.table), s.change).value);
        if s.table == t.table {
          SettingsApart(env, At(db, s.table), s.change, t.change);
        }
        PutAt(d, s.table, At(d, s.table));
      } else if s.table == t.table {
        assert swallow;
      }
    }
  }

  /** Executed statements are settled. */
  lemma {:induction false} PrefixSettled(env: Env, db: Db, ss: seq<Stmt>, k: nat, swallow: bool)
    requires AllCompatible(ss, swallow) && k <= |ss| && Apply(env, db, ss[..k], swallow).1
    ensures forall i :: 0 <= i < k ==> Settled(env, Apply(env, db, ss[..k], swallow).0, ss[i], swallow)
    decreases k
  {
    if k > 0 {
      assert ss[..k] == ss[..k - 1] + [ss[k - 1]];
      ApplyAppend(env, db, ss[..k - 1], [ss[k - 1]], swallow);
      PrefixSettled(env, db, ss, k - 1, swallow);
      var d := Apply(env, db, ss[..k - 1], swallow).0;
      forall i | 0 <= i < k
        ensures Settled(env, One(env, d, ss[k - 1], swallow).0, ss[i], swallow)
      {
        if i < k - 1 {
          KeepsSettled(env, d, ss[i], ss[k - 1], swallow);
        } else {
          OneSettles(env, d, ss[i], swallow);
        }
      }
    }
  }

  lemma {:induction false} SettledSkipped(env: Env, db: Db, ss: seq<Stmt>, swallow: bool)
    requires forall i :: 0 <= i < |ss| ==> Settled(env, db, ss[i], swallow)
    ensures Apply(env, db, ss, swallow) == (db, true)
    decreases |ss|
  {
    if ss != [] {
      SettledSkipped(env, db, ss[1..], swallow);
    }
  }

  /** After k statements have been executed, the first m executed again lead to where max(k, m) statements lead. */
  lemma PrefixRepeats(env: Env, db: Db, ss: seq<Stmt>, k: nat, m: nat, swallow: bool)
    requires AllCompatible(ss, swallow) && k <= |ss| && m <= |ss| && Apply(env, db, ss[..k], swallow).1
    ensures
      Apply(env, Apply(env, db, ss[..k], swallow).0, ss[..m], swallow)
        == Apply(env, db, ss[..if m < k then k else m], swallow)
  {
    var d := Apply(env, db, ss[..k], swallow).0;
    PrefixSettled(env, db, ss, k, swallow);
    if m <= k {
      SettledSkipped(env, d, ss[..m], swallow);
    } else {
      assert ss[..m] == ss[..k] + ss[k..m];
      SettledSkipped(env, d, ss[..k], swallow);
      ApplyAppend(env, d, ss[..k], ss[k..m], swallow);
      ApplyAppend(env, db, ss[..k], ss[k..m], swallow);
    }
  }

  lemma {:induction false} EachCompatible(names: seq<Name>, change: Change, swallow: bool)
    requires Gentle(change, swallow)
    ensures forall s :: s in OnEach(names, change) ==> s.On? && s.change == change
  {
    if names != [] {
      EachCompatible(names[1..], change, swallow);
    }
  }

  lemma BodyCompatible(env: Env, v: int)
    requires !InTransaction(v)
    ensures AllCompatible(Body(env, v), Swallows(v))
  {
    if v == 27 {
      EachCompatible(env.tables, DropColumn("tenant_id"), true);
    } else if v == 34 {
      EachCompatible(env.tables, ConvertRecords, true);
    }
  }

  // ---- The version -----------------------------------------------------------------------------

  function Main(db: Db, schema: Name): Option<Table> {
    if Has(db, Qualified(schema, "main")) then Some(At(db, Qualified(schema, "main"))) else None
  }

  function Mains(db: Db): (Option<Table>, Option<Table>) {
    (Main(db, "ldpsystem"), Main(db, "dbsystem"))
  }

  predicate HasVersion(t: Option<Table>, column: Name) {
    t.Some? && column in t.value.columns
  }

  /** Exactly one of the two places is readable, and it says v. */
  predicate Located(db: Db, v: int) {
    var (earlier, later) := Mains(db);
    && (HasVersion(earlier, "ldp_schema_version") <==> v < 18)
    && (HasVersion(later, "database_version") <==> v >= 18)
    && (v < 18 ==> ReadColumn(earlier.value, "ldp_schema_version") == Found(v))
    && (v >= 18 ==> ReadColumn(later.value, "database_version") == Found(v))
  }

  lemma LocatedRead(db: Db, v: int)
    requires Located(db, v)
    ensures SelectVersion(db) == Found(v)
  {
  }

  /** Statements that do not touch either place. */
  predicate Aside(s: Stmt) {
    match s
    case On(q, _) => q.name != "main" || q.schema !in {"ldpsystem", "dbsystem"}
    case CreateTable(q, _, _) => q.name != "main" || q.schema !in {"ldpsystem", "dbsystem"}
    case DropTable(q) => q.name != "main" || q.schema !in {"ldpsystem", "dbsystem"}
    case RenameSchema(a, b) => a !in {"ldpsystem", "dbsystem"} && b !in {"ldpsystem", "dbsystem"}
  }

  lemma AsideStatement(env: Env, db: Db, s: Stmt, swallow: bool)
    requires Aside(s)
    ensures Mains(One(env, db, s, swallow).0) == Mains(db)
  {
  }

  lemma {:induction false} AsideStatements(env: Env, db: Db, ss: seq<Stmt>, swallow: bool)
    requires forall i :: 0 <= i < |ss| ==> Aside(ss[i])
    ensures Mains(Apply(env, db, ss, swallow).0) == Mains(db)
    decreases |ss|
  {
    if ss != [] {
      AsideStatement(env, db, ss[0], swallow);
      var (d, ok) := One(env, db, ss[0], swallow);
      if ok {
        AsideStatements(env, d, ss[1..], swallow);
      }
    }
  }

  lemma {:induction false} AddTablesAside(env: Env, names: seq<Name>)
    ensures forall i :: 0 <= i < |AddTables(env, names)| ==> Aside(AddTables(env, names)[i])
  {
    if names != [] {
      AddTablesAside(env, names[1..]);
    }
  }

  lemma {:induction false} EachAside(names: seq<Name>, change: Change)
    ensures forall i :: 0 <= i < |OnEach(names, change)| ==> Aside(OnEach(names, change)[i])
  {
    if names != [] {
      EachAside(names[1..], change);
    }
  }

  lemma BodyAside(env: Env, v: int)
    requires v != 18 && v != 19
    ensures forall i :: 0 <= i < |Body(env, v)| ==> Aside(Body(env, v)[i])
  {
    if v == 27 {
      EachAside(env.tables, DropColumn("tenant_id"));
    } else if v == 34 {
      EachAside(env.tables, ConvertRecords);
    } else if v !in {15, 16, 17} {
      AddTablesAside(env, NewTables(v));
    }
  }

  /** The write of version v, where the place for v is the readable one. */
  lemma WriteLocated(env: Env, db: Db, v: int)
    requires Exec(env, db, VersionWrite(v)).Some?
    requires HasVersion(Main(db, "ldpsystem"), "ldp_schema_version") <==> v < 18
    requires HasVersion(Main(db, "dbsystem"), "database_version") <==> v >= 18
    requires v < 18 ==> |Main(db, "ldpsystem").value.rows| == 1
    requires v >= 18 ==> |Main(db, "dbsystem").value.rows| == 1
    ensures Located(Exec(env, db, VersionWrite(v)).value, v)
  {
    var q := VersionWrite(v).table;
    var u := Changed(env, At(db, q), VersionWrite(v).change).value;
    PutAt(db, q, u);
    assert u.rows[0][VersionWrite(v).change.column] == Number(v);
  }

  lemma ApplyFirst(env: Env, db: Db, s: Stmt, rest: seq<Stmt>, swallow: bool)
    ensures
      var (d, ok) := One(env, db, s, swallow);
      Apply(env, db, [s] + rest, swallow) == if ok then Apply(env, d, rest, swallow) else (d, false)
  {
    assert ([s] + rest)[0] == s && ([s] + rest)[1..] == rest;
  }

  /** The place for versions from 18 on is the readable one. */
  predicate LaterPlace(db: Db) {
    && !HasVersion(Main(db, "ldpsystem"), "ldp_schema_version")
    && HasVersion(Main(db, "dbsystem"), "database_version")
    && |Main(db, "dbsystem").value.rows| == 1
  }

  lemma RenameStatement(env: Env, db: Db, d: Db)
    requires Main(db, "ldpsystem") == None
    requires HasVersion(Main(db, "dbsystem"), "ldp_schema_version") && |Main(db, "dbsystem").value.rows| == 1
    requires Exec(env, db, On(Qualified("dbsystem", "main"), RenameColumn("ldp_schema_version", "database_version"))) == Some(d)
    ensures LaterPlace(d)
  {
    var q := Qualified("dbsystem", "main");
    PutAt(db, q, Changed(env, At(db, q), RenameColumn("ldp_schema_version", "database_version")).value);
  }

  /** Step 18 moves the version with its table. */
  lemma RenameMoves(env: Env, db: Db)
    requires Located(db, 17)
    ensures Apply(env, db, Body(env, 18), false).1 ==> LaterPlace(Apply(env, db, Body(env, 18), false).0)
  {
    var s := Body(env, 18);
    assert s == [s[0]] + ([s[1]] + ([s[2]] + [s[3]]));
    ApplyFirst(env, db, s[0], [s[1]] + ([s[2]] + [s[3]]), false);
    var (d1, ok1) := One(env, db, s[0], false);
    if ok1 {
      assert Main(d1, "ldpsystem") == None && Main(d1, "dbsystem") == Main(db, "ldpsystem");
      ApplyFirst(env, d1, s[1], [s[2]] + [s[3]], false);
      AsideStatement(env, d1, s[1], false);
      var (d2, ok2) := One(env, d1, s[1], false);
      ApplyFirst(env, d2, s[2], [s[3]], false);
      var (d3, ok3) := One(env, d2, s[2], false);
      if ok2 && ok3 {
        RenameStatement(env, d2, d3);
        AsideStatement(env, d3, s[3], false);
        ApplyFirst(env, d3, s[3], [], false);
      }
    }
  }

  lemma AnonymizeStatement(env: Env, db: Db, d: Db, c: Column)
    requires LaterPlace(db)
    requires Exec(env, db, On(Qualified("dbsystem", "main"), AddColumn("anonymize", c))) == Some(d)
    ensures LaterPlace(d)
  {
    var q := Qualified("dbsystem", "main");
    PutAt(db, q, Changed(env, At(db, q), AddColumn("anonymize", c)).value);
  }

  lemma AnonymizeKeeps(env: Env, db: Db)
    requires LaterPlace(db)
    ensures Apply(env, db, Body(env, 19), false).1 ==> LaterPlace(Apply(env, db, Body(env, 19), false).0)
  {
    var s := Body(env, 19);
    assert s == [s[0]] + [s[1]];
    ApplyFirst(env, db, s[0], [s[1]], false);
    AsideStatement(env, db, s[0], false);
    var (d1, ok1) := One(env, db, s[0], false);
    ApplyFirst(env, d1, s[1], [], false);
    if ok1 && Exec(env, d1, s[1]).Some? {
      AnonymizeStatement(env, d1, Exec(env, d1, s[1]).value, s[1].change.definition);
    }
  }

  /** A completed step leaves exactly the place for its version readable. */
  lemma StepLocated(env: Env, db: Db, v: int)
    requires Located(db, v - 1) && Whole(env, db, v).Some?
    ensures Located(Whole(env, db, v).value, v)
  {
    if v == 18 {
      RenameMoves(env, db);
    } else if v == 19 {
      AnonymizeKeeps(env, db);
    } else {
      BodyAside(env, v);
      AsideStatements(env, db, Body(env, v), Swallows(v));
    }
    WriteLocated(env, Apply(env, db, Body(env, v), Swallows(v)).0, v);
  }

  // ---- Interrupted runs ------------------------------------------------------------------------

  /** Steps v + 1 to w, uninterrupted. */
  function Ideal(env: Env, db: Db, v: int, w: int): Option<Db>
    requires v <= w
    decreases w - v
  {
    if v == w then Some(db)
    else match Ideal(env, db, v, w - 1) case Some(d) => Whole(env, d, w) case None => None
  }

  /** d is base after some statements of the repeatable step v. */
  ghost predicate Partway(env: Env, base: Db, d: Db, v: int) {
    !InTransaction(v) && exists k :: 0 <= k <= |Body(env, v)| && Apply(env, base, Body(env, v)[..k], Swallows(v)) == (d, true)
  }

  /** All effects of the steps up to v are there, and at most some of step v + 1, if it is repeatable. */
  ghost predicate Standing(env: Env, db: Db, from: int, d: Db, v: int) {
    && from <= v <= LatestVersion && Located(d, v)
    && Ideal(env, db, from, v).Some?
    && (d == Ideal(env, db, from, v).value || Partway(env, Ideal(env, db, from, v).value, d, v + 1))
  }

  lemma PartwayRepeats(env: Env, base: Db, d: Db, v: int)
    requires Partway(env, base, d, v)
    ensures Apply(env, d, Body(env, v), Swallows(v)) == Apply(env, base, Body(env, v), Swallows(v))
    ensures Whole(env, d, v) == Whole(env, base, v)
  {
    var body := Body(env, v);
    var k :| 0 <= k <= |body| && Apply(env, base, body[..k], Swallows(v)) == (d, true);
    BodyCompatible(env, v);
    PrefixRepeats(env, base, body, k, |body|, Swallows(v));
    assert body[..|body|] == body;
  }

  lemma PartwayContinues(env: Env, base: Db, d: Db, v: int, m: nat)
    requires d == base || Partway(env, base, d, v)
    requires !InTransaction(v) && m <= |Body(env, v)|
    requires Apply(env, d, Body(env, v)[..m], Swallows(v)).1
    ensures Partway(env, base, Apply(env, d, Body(env, v)[..m], Swallows(v)).0, v)
  {
    var body := Body(env, v);
    if d != base {
      var k :| 0 <= k <= |body| && Apply(env, base, body[..k], Swallows(v)) == (d, true);
      BodyCompatible(env, v);
      PrefixRepeats(env, base, body, k, m, Swallows(v));
    }
  }

  lemma IdealNext(env: Env, db: Db, from: int, v: int)
    requires from <= v && Ideal(env, db, from, v).Some?
    ensures Ideal(env, db, from, v + 1) == Whole(env, Ideal(env, db, from, v).value, v + 1)
  {
  }

  lemma CompletedStanding(env: Env, db: Db, from: int, d: Db, v: int)
    requires Standing(env, db, from, d, v) && v < LatestVersion && Whole(env, d, v + 1).Some?
    ensures Standing(env, db, from, Whole(env, d, v + 1).value, v + 1)
  {
    var base, next := Ideal(env, db, from, v).value, Whole(env, d, v + 1).value;
    assert Whole(env, base, v + 1) == Some(next) by {
      if d != base {
        PartwayRepeats(env, base, d, v + 1);
      }
    }
    StepLocated(env, d, v + 1);
    IdealNext(env, db, from, v);
  }

  lemma StoppedStanding(env: Env, db: Db, from: int, d: Db, v: int, k: nat)
    requires Standing(env, db, from, d, v) && v < LatestVersion
    requires !InTransaction(v + 1) && k <= |Body(env, v + 1)|
    requires Apply(env, d, Body(env, v + 1)[..k], Swallows(v + 1)).1
    ensures Standing(env, db, from, Apply(env, d, Body(env, v + 1)[..k], Swallows(v + 1)).0, v)
  {
    PartwayContinues(env, Ideal(env, db, from, v).value, d, v + 1, k);
    BodyAside(env, v + 1);
    AsideStatements(env, d, Body(env, v + 1)[..k], Swallows(v + 1));
  }

  /** One step of a run, completed or not. */
  lemma StepStanding(env: Env, db: Db, from: int, l: Link, v: int)
    requires Standing(env, db, from, l.db, v) && v < LatestVersion && l.work.Idle?
    ensures
      var (m, ok) := RunStep(env, l, v + 1);
      if ok then m.work.Idle? && Standing(env, db, from, m.db, v + 1) else Standing(env, db, from, m.db, v)
  {
    var ok := RunStep(env, l, v + 1).1;
    if InTransaction(v + 1) {
      TransactionIsAtomic(env, l, v + 1);
    } else {
      var k := StatementsStop(env, l, v + 1);
      if !ok {
        StoppedStanding(env, db, from, l.db, v, k);
      }
    }
    if ok {
      CompletedStanding(env, db, from, l.db, v);
    }
  }

  lemma {:induction false} StepsStanding(env: Env, db: Db, from: int, l: Link, v: int) returns (w: int)
    requires Standing(env, db, from, l.db, v) && l.work.Idle?
    ensures v <= w && Standing(env, db, from, RunSteps(env, l, v).0.db, w)
    ensures RunSteps(env, l, v).1 ==> w == LatestVersion
    decreases LatestVersion - v
  {
    if v == LatestVersion {
      return v;
    }
    StepStanding(env, db, from, l, v);
    var (m, ok) := RunStep(env, l, v + 1);
    if ok {
      w := StepsStanding(env, db, from, m, v + 1);
    } else {
      w := v;
    }
  }

  /** The database after upgrades over these lines, one after the other. */
  function AfterRuns(env: Env, db: Db, lines: seq<Line>): Db
    decreases |lines|
  {
    if lines == [] then db else Upgraded(env, AfterRuns(env, db, lines[..|lines| - 1]), lines[|lines| - 1]).0
  }

  /** However often upgrades are interrupted, exactly one version location is readable, the version read never goes
      back, and all effects of the steps up to it are there. */
  lemma {:induction false} VersionReadIsTrue(env: Env, db: Db, from: int, lines: seq<Line>) returns (v: int)
    requires 14 <= from <= LatestVersion && Located(db, from)
    ensures
      var d := AfterRuns(env, db, lines);
      SelectVersion(d) == Found(v) && Standing(env, db, from, d, v)
    decreases |lines|
  {
    if lines == [] {
      v := from;
      LocatedRead(db, v);
    } else {
      var before := AfterRuns(env, db, lines[..|lines| - 1]);
      v := VersionReadIsTrue(env, db, from, lines[..|lines| - 1]);
      var line := lines[|lines| - 1];
      if !Lost(line) {
        v := StepsStanding(env, db, from, Link(before, Idle, line), v);
        LocatedRead(AfterRuns(env, db, lines), v);
      }
    }
  }

  // ---- Resuming --------------------------------------------------------------------------------

  lemma {:induction false} IdealRun(env: Env, db: Db, v: int, w: int)
    requires v <= w <= LatestVersion && Ideal(env, db, v, w).Some?
    ensures
      RunSteps(env, Link(db, Idle, Up), v) == RunSteps(env, Link(Ideal(env, db, v, w).value, Idle, Up), w)
    decreases w - v
  {
    if v < w {
      IdealRun(env, db, v, w - 1);
      StepUp(env, Ideal(env, db, v, w - 1).value, w);
    }
  }

  lemma StandingResumes(env: Env, db: Db, from: int, d: Db, v: int)
    requires Standing(env, db, from, d, v)
    ensures RunSteps(env, Link(d, Idle, Up), v).1 == RunSteps(env, Link(db, Idle, Up), from).1
    ensures RunSteps(env, Link(d, Idle, Up), v).0.db == RunSteps(env, Link(db, Idle, Up), from).0.db
  {
    var base := Ideal(env, db, from, v).value;
    IdealRun(env, db, from, v);
    if d != base && v < LatestVersion {
      PartwayRepeats(env, base, d, v + 1);
      StepUp(env, base, v + 1);
      StepUp(env, d, v + 1);
    }
  }

  /** Any number of interrupted upgrades, and then an uninterrupted one: the same end and the same database as one
      uninterrupted upgrade. */
  lemma InterruptionsLeaveNoTrace(env: Env, db: Db, from: int, lines: seq<Line>)
    requires 14 <= from <= LatestVersion && Located(db, from)
    ensures Upgraded(env, AfterRuns(env, db, lines), Up) == Upgraded(env, db, Up)
  {
    var v := VersionReadIsTrue(env, db, from, lines);
    LocatedRead(db, from);
    StandingResumes(env, db, from, AfterRuns(env, db, lines), v);
  }

  /** A run that completes, whatever came before it, leaves version 35 and what one uninterrupted upgrade leaves. */
  lemma CompletedUpgradeIsIdeal(env: Env, db: Db, from: int, lines: seq<Line>, line: Line)
    requires 14 <= from <= LatestVersion && Located(db, from)
    requires Upgraded(env, AfterRuns(env, db, lines), line).1 == Completed
    ensures
      var d := Upgraded(env, AfterRuns(env, db, lines), line).0;
      && SelectVersion(d) == Found(LatestVersion)
      && Upgraded(env, db, Up) == (d, Completed)
      && Ideal(env, db, from, LatestVersion) == Some(d)
  {
    var v := VersionReadIsTrue(env, db, from, lines);
    var before := AfterRuns(env, db, lines);
    var w := StepsStanding(env, db, from, Link(before, Idle, line), v);
    var d := Upgraded(env, before, line).0;
    LocatedRead(d, w);
    LocatedRead(db, from);
    StandingResumes(env, db, from, d, w);
    IdealRun(env, db, from, w);
  }
}
