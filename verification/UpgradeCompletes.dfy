/** When an upgrade from version 19 or later completes. */
module UpgradeCompletes {
  import opened Wrappers
  import opened Upgrade
  import opened ResumedUpgrades
  import opened UpgradeEffects

  /** The schemas and the catalog that the steps write to. */
  predicate Hosted(db: Db) {
    var q := Qualified("dbsystem", "tables");
    && "public" in db && "history" in db
    && Has(db, q) && "table_name" in At(db, q).columns && !MissesNotNull(At(db, q), "table_name")
  }

  function PublicNames(db: Db): set<Name>
    requires Hosted(db)
  {
    db["public"].Keys
  }

  predicate Vacant(db: Db, names: seq<Name>)
    requires Hosted(db)
  {
    forall i :: 0 <= i < |names| ==> names[i] !in PublicNames(db)
  }

  predicate Distinct(names: seq<Name>) {
    forall i, j :: 0 <= i < j < |names| ==> names[i] != names[j]
  }

  // ---- The names of the new tables -------------------------------------------------------------

  /** The step that adds a table. */
  function StepOf(name: Name): int {
    match name
    case "circulation_request_preference" => 20
    case "finance_ledger_fiscal_years" => 20
    case "user_addresstypes" => 20
    case "user_departments" => 20
    case "user_proxiesfor" => 20
    case "configuration_entries" => 21
    case "finance_expense_classes" => 22
    case "notes" => 22
    case "srs_marc" => 23
    case "circulation_check_ins" => 24
    case "audit_circulation_logs" => 25
    case "srs_records" => 26
    case "inventory_holdings_sources" => 28
    case "perm_permissions" => 29
    case "perm_users" => 29
    case "srs_error" => 29
    case "patron_blocks_user_summary" => 30
    case "template_engine_template" => 31
    case "inventory_bound_with_part" => 32
    case "acquisition_method" => 33
    case "notes_link" => 35
    case "notes_note_link" => 35
    case _ => 0
  }

  lemma FirstTablesApart(v: int, i: nat)
    requires v <= 22 && i < |NewTables(v)|
    ensures StepOf(NewTables(v)[i]) == v
  {
  }

  lemma MiddleTablesApart(v: int, i: nat)
    requires 22 < v <= 29 && i < |NewTables(v)|
    ensures StepOf(NewTables(v)[i]) == v
  {
  }

  lemma LastTablesApart(v: int, i: nat)
    requires 29 < v && i < |NewTables(v)|
    ensures StepOf(NewTables(v)[i]) == v
  {
  }

  lemma NewTablesApart(v: int, i: nat)
    requires i < |NewTables(v)|
    ensures StepOf(NewTables(v)[i]) == v
  {
    if v <= 22 {
      FirstTablesApart(v, i);
    } else if v <= 29 {
      MiddleTablesApart(v, i);
    } else {
      LastTablesApart(v, i);
    }
  }

  lemma Lists(v: int, i: nat, name: Name)
    requires i < |NewTables(v)| && NewTables(v)[i] == name
    ensures name in NewTables(v)
  {
  }

  lemma FirstListed(name: Name)
    requires StepOf(name) in {20, 21, 22}
    ensures name in NewTables(StepOf(name))
  {
    match name
    case "circulation_request_preference" => Lists(20, 0, name);
    case "finance_ledger_fiscal_years" => Lists(20, 1, name);
    case "user_addresstypes" => Lists(20, 2, name);
    case "user_departments" => Lists(20, 3, name);
    case "user_proxiesfor" => Lists(20, 4, name);
    case "configuration_entries" => Lists(21, 0, name);
    case "finance_expense_classes" => Lists(22, 0, name);
    case "notes" => Lists(22, 1, name);
    case _ =>
  }

  lemma MiddleListed(name: Name)
    requires StepOf(name) in {23, 24, 25, 26, 28, 29}
    ensures name in NewTables(StepOf(name))
  {
    match name
    case "srs_marc" => Lists(23, 0, name);
    case "circulation_check_ins" => Lists(24, 0, name);
    case "audit_circulation_logs" => Lists(25, 0, name);
    case "srs_records" => Lists(26, 0, name);
    case "inventory_holdings_sources" => Lists(28, 0, name);
    case "perm_permissions" => Lists(29, 0, name);
    case "perm_users" => Lists(29, 1, name);
    case "srs_error" => Lists(29, 2, name);
    case _ =>
  }

  lemma LastListed(name: Name)
    requires StepOf(name) in {30, 31, 32, 33, 35}
    ensures name in NewTables(StepOf(name))
  {
    match name
    case "patron_blocks_user_summary" => Lists(30, 0, name);
    case "template_engine_template" => Lists(31, 0, name);
    case "inventory_bound_with_part" => Lists(32, 0, name);
    case "acquisition_method" => Lists(33, 0, name);
    case "notes_link" => Lists(35, 0, name);
    case "notes_note_link" => Lists(35, 1, name);
    case _ =>
  }

  /** The tables of the steps are exactly these. */
  lemma NewTablesAre(v: int, name: Name)
    ensures name in NewTables(v) <==> v != 0 && StepOf(name) == v
  {
    if name in NewTables(v) {
      var i :| 0 <= i < |NewTables(v)| && NewTables(v)[i] == name;
      NewTablesApart(v, i);
    }
    if 20 <= StepOf(name) <= 22 {
      FirstListed(name);
    } else if 22 < StepOf(name) <= 29 {
      MiddleListed(name);
    } else if StepOf(name) > 29 {
      LastListed(name);
    }
  }

  lemma NewTablesDistinct(v: int)
    ensures Distinct(NewTables(v))
  {
  }

  // ---- Statements ------------------------------------------------------------------------------

  /** Statements of the later steps other than the creation of a main table. */
  predicate Quiet(s: Stmt) {
    Late(s) && (s.CreateTable? ==> s.table.schema == "history")
  }

  lemma QuietKeepsHosted(env: Env, db: Db, s: Stmt, swallow: bool)
    requires Quiet(s) && Hosted(db)
    ensures
      var d := One(env, db, s, swallow).0;
      Hosted(d) && PublicNames(d) == PublicNames(db)
  {
    var q := Qualified("dbsystem", "tables");
    LateFrame(env, db, s, swallow, q);
    var d := One(env, db, s, swallow).0;
    assert At(d, q).columns == At(db, q).columns;
    assert !MissesNotNull(At(d, q), "table_name");
  }

  lemma {:induction false} QuietKeepHosted(env: Env, db: Db, ss: seq<Stmt>, swallow: bool)
    requires (forall i :: 0 <= i < |ss| ==> Quiet(ss[i])) && Hosted(db)
    ensures
      var d := Apply(env, db, ss, swallow).0;
      Hosted(d) && PublicNames(d) == PublicNames(db)
    decreases |ss|
  {
    if ss != [] {
      QuietKeepsHosted(env, db, ss[0], swallow);
      var (d, ok) := One(env, db, ss[0], swallow);
      if ok {
        QuietKeepHosted(env, d, ss[1..], swallow);
      }
    }
  }

  lemma GrantRuns(env: Env, db: Db, q: Qualified, user: Name)
    requires Has(db, q)
    ensures One(env, db, On(q, Grant(user)), false).1 && Has(One(env, db, On(q, Grant(user)), false).0, q)
  {
    assert Changed(env, At(db, q), Grant(user)).Some?;
    GrantGrants(env, db, q, user);
  }

  lemma TwoGrantsRun(env: Env, db: Db, q: Qualified, rest: seq<Stmt>)
    requires Hosted(db) && Has(db, q) && Record(q)
    ensures
      var s := [On(q, Grant(env.user))] + ([On(q, Grant(env.configUser))] + rest);
      exists d :: Hosted(d) && PublicNames(d) == PublicNames(db) && Apply(env, db, s, false) == Apply(env, d, rest, false)
  {
    var a, b := On(q, Grant(env.user)), On(q, Grant(env.configUser));
    ApplyFirst(env, db, a, [b] + rest, false);
    GrantRuns(env, db, q, env.user);
    QuietKeepsHosted(env, db, a, false);
    var d := One(env, db, a, false).0;
    ApplyFirst(env, d, b, rest, false);
    GrantRuns(env, d, q, env.configUser);
    QuietKeepsHosted(env, d, b, false);
  }

  lemma CatalogRuns(env: Env, db: Db, name: Name)
    requires Hosted(db)
    ensures Apply(env, db, [On(Qualified("dbsystem", "tables"), InsertName(name))], false).1
  {
    var s := On(Qualified("dbsystem", "tables"), InsertName(name));
    assert [s] == [s] + [];
    ApplyFirst(env, db, s, [], false);
  }

  lemma HistoryCreated(env: Env, db: Db, name: Name)
    requires Hosted(db)
    ensures
      var (d, ok) := One(env, db, CreateTable(HistoryOf(name), HistoryTable, true), false);
      ok && Hosted(d) && Has(d, HistoryOf(name))
  {
    QuietKeepsHosted(env, db, CreateTable(HistoryOf(name), HistoryTable, true), false);
  }

  lemma HistoryRuns(env: Env, db: Db, name: Name)
    requires Hosted(db)
    ensures Apply(env, db, AddTable(env, name)[3..], false).1
  {
    var s := AddTable(env, name)[3..];
    assert s == [s[0]] + ([s[1]] + ([s[2]] + [s[3]]));
    ApplyFirst(env, db, s[0], [s[1]] + ([s[2]] + [s[3]]), false);
    HistoryCreated(env, db, name);
    var d := One(env, db, s[0], false).0;
    TwoGrantsRun(env, d, HistoryOf(name), [s[3]]);
    var e :| Hosted(e) && PublicNames(e) == PublicNames(d) &&
             Apply(env, d, [s[1]] + ([s[2]] + [s[3]]), false) == Apply(env, e, [s[3]], false);
    CatalogRuns(env, e, name);
  }

  /** With the main table created, the other six statements succeed. */
  lemma AddTableGoesOn(env: Env, db: Db, name: Name)
    requires Hosted(db) && name in PublicNames(db)
    ensures Apply(env, db, AddTable(env, name)[1..], false).1
  {
    var s := AddTable(env, name);
    assert s[1..] == [s[1]] + ([s[2]] + s[3..]);
    TwoGrantsRun(env, db, Public(name), s[3..]);
    var d :| Hosted(d) && PublicNames(d) == PublicNames(db) && Apply(env, db, s[1..], false) == Apply(env, d, s[3..], false);
    HistoryRuns(env, d, name);
  }

  lemma AddTableRuns(env: Env, db: Db, name: Name)
    requires Hosted(db)
    ensures
      var (d, ok) := Apply(env, db, AddTable(env, name), false);
      && (ok <==> name !in PublicNames(db))
      && (ok ==> Hosted(d) && PublicNames(d) == PublicNames(db) + {name})
  {
    var s := AddTable(env, name);
    assert s == [s[0]] + s[1..];
    ApplyFirst(env, db, s[0], s[1..], false);
    if name !in PublicNames(db) {
      var d := One(env, db, s[0], false).0;
      assert d == Put(db, Public(name), MainTable);
      assert Hosted(d) && PublicNames(d) == PublicNames(db) + {name};
      AddTableGoesOn(env, d, name);
      QuietKeepHosted(env, d, s[1..], false);
    }
  }

  function Names(names: seq<Name>): set<Name> {
    set i | 0 <= i < |names| :: names[i]
  }

  lemma NamesSplit(names: seq<Name>)
    requires names != []
    ensures Names(names) == {names[0]} + Names(names[1..])
  {
    forall n | n in Names(names)
      ensures n in {names[0]} + Names(names[1..])
    {
      var i :| 0 <= i < |names| && names[i] == n;
      assert i > 0 ==> names[1..][i - 1] == n;
    }
  }

  lemma VacantRest(db: Db, d: Db, names: seq<Name>)
    requires Hosted(db) && Hosted(d) && names != [] && Distinct(names) && names[0] !in PublicNames(db)
    requires PublicNames(d) == PublicNames(db) + {names[0]}
    ensures Vacant(d, names[1..]) <==> Vacant(db, names)
  {
    if Vacant(d, names[1..]) {
      forall i | 0 <= i < |names|
        ensures names[i] !in PublicNames(db)
      {
        assert i > 0 ==> names[i] == names[1..][i - 1];
      }
    }
  }

  lemma {:induction false} AddTablesRun(env: Env, db: Db, names: seq<Name>)
    requires Hosted(db) && Distinct(names)
    ensures
      var (d, ok) := Apply(env, db, AddTables(env, names), false);
      && (ok <==> Vacant(db, names))
      && (ok ==> Hosted(d) && PublicNames(d) == PublicNames(db) + Names(names))
    decreases |names|
  {
    if names == [] {
      assert PublicNames(db) == PublicNames(db) + Names(names);
    } else {
      AddTableRuns(env, db, names[0]);
      ApplyAppend(env, db, AddTable(env, names[0]), AddTables(env, names[1..]), false);
      var (d, ok) := Apply(env, db, AddTable(env, names[0]), false);
      if ok {
        AddTablesRun(env, d, names[1..]);
        NamesSplit(names);
        VacantRest(db, d, names);
      }
    }
  }

  // ---- Steps -----------------------------------------------------------------------------------

  lemma BodyRuns(env: Env, db: Db, v: int)
    requires 20 <= v && Hosted(db)
    ensures
      var (d, ok) := Apply(env, db, Body(env, v), Swallows(v));
      && (ok <==> Vacant(db, NewTables(v)))
      && (ok ==> Hosted(d) && PublicNames(d) == PublicNames(db) + Names(NewTables(v)))
  {
    if Swallows(v) {
      SwallowedRuns(env, db, v);
    } else {
      NewTablesDistinct(v);
      AddTablesRun(env, db, NewTables(v));
    }
  }

  lemma SwallowedRuns(env: Env, db: Db, v: int)
    requires Swallows(v) && Hosted(db)
    ensures
      var (d, ok) := Apply(env, db, Body(env, v), true);
      && ok && Vacant(db, NewTables(v)) && Hosted(d)
      && PublicNames(d) == PublicNames(db) + Names(NewTables(v))
  {
    SwallowedApply(env, db, Body(env, v));
    EachQuiet(env, v);
    QuietKeepHosted(env, db, Body(env, v), true);
    assert Names(NewTables(v)) == {};
  }

  lemma EachQuiet(env: Env, v: int)
    requires Swallows(v)
    ensures forall i :: 0 <= i < |Body(env, v)| ==> Quiet(Body(env, v)[i])
  {
    BodyLate(env, v);
    if v == 27 {
      EachCompatible(env.tables, DropColumn("tenant_id"), true);
    } else {
      EachCompatible(env.tables, ConvertRecords, true);
    }
  }

  lemma StepRuns(env: Env, db: Db, v: int)
    requires 20 <= v && Hosted(db) && Located(db, v - 1)
    ensures Whole(env, db, v).Some? <==> Vacant(db, NewTables(v))
    ensures
      Whole(env, db, v).Some? ==>
        var d := Whole(env, db, v).value;
        Hosted(d) && PublicNames(d) == PublicNames(db) + Names(NewTables(v))
  {
    BodyRuns(env, db, v);
    BodyAside(env, v);
    AsideStatements(env, db, Body(env, v), Swallows(v));
    var (d, ok) := Apply(env, db, Body(env, v), Swallows(v));
    if ok {
      assert Main(d, "dbsystem") == Main(db, "dbsystem");
      QuietKeepsHosted(env, d, VersionWrite(v), false);
    }
  }

  lemma StaysVacant(db: Db, d: Db, v: int, w: int)
    requires Hosted(db) && Hosted(d) && PublicNames(d) == PublicNames(db) + Names(NewTables(v)) && v != w
    ensures Vacant(d, NewTables(w)) <==> Vacant(db, NewTables(w))
  {
    forall i | 0 <= i < |NewTables(w)|
      ensures NewTables(w)[i] !in Names(NewTables(v))
    {
      NewTablesApart(w, i);
      if NewTables(w)[i] in Names(NewTables(v)) {
        var j :| 0 <= j < |NewTables(v)| && NewTables(v)[j] == NewTables(w)[i];
        NewTablesApart(v, j);
      }
    }
  }

  predicate VacantFor(db: Db, step: int)
    requires Hosted(db)
  {
    Vacant(db, NewTables(step))
  }

  ghost predicate AllVacant(db: Db, v: int)
    requires Hosted(db)
  {
    forall w :: v < w <= LatestVersion ==> VacantFor(db, w)
  }

  lemma AllStayVacant(db: Db, d: Db, v: int)
    requires Hosted(db) && Hosted(d) && PublicNames(d) == PublicNames(db) + Names(NewTables(v)) && v <= LatestVersion
    requires VacantFor(db, v)
    ensures AllVacant(d, v) == AllVacant(db, v - 1)
  {
    forall w | v < w <= LatestVersion
      ensures VacantFor(d, w) <==> VacantFor(db, w)
    {
      StaysVacant(db, d, v, w);
    }
  }

  lemma StepsNext(env: Env, db: Db, v: int)
    requires v < LatestVersion
    ensures
      RunSteps(env, Link(db, Idle, Up), v).1 <==>
        Whole(env, db, v + 1).Some? && RunSteps(env, Link(Whole(env, db, v + 1).value, Idle, Up), v + 1).1
  {
    StepUp(env, db, v + 1);
  }

  lemma StepLeaves(env: Env, db: Db, d: Db, v: int)
    requires 19 < v <= LatestVersion && Hosted(db) && Located(db, v - 1) && Whole(env, db, v) == Some(d)
    ensures Hosted(d) && PublicNames(d) == PublicNames(db) + Names(NewTables(v)) && VacantFor(db, v)
  {
    StepRuns(env, db, v);
  }

  lemma StepPasses(env: Env, db: Db, d: Db, v: int)
    requires 19 < v <= LatestVersion && Hosted(db) && Located(db, v - 1) && Whole(env, db, v) == Some(d)
    ensures Hosted(d) && Located(d, v) && AllVacant(d, v) == AllVacant(db, v - 1)
  {
    StepLocated(env, db, v);
    StepLeaves(env, db, d, v);
    AllStayVacant(db, d, v);
  }

  lemma StepBlocked(env: Env, db: Db, v: int)
    requires 19 <= v < LatestVersion && Hosted(db) && Located(db, v) && Whole(env, db, v + 1).None?
    ensures !AllVacant(db, v)
  {
    StepRuns(env, db, v + 1);
    assert !VacantFor(db, v + 1);
  }

  function Ending(env: Env, db: Db, v: int): Outcome {
    if RunSteps(env, Link(db, Idle, Up), v).1 then Completed else Failed
  }

  ghost function Expected(db: Db, v: int): Outcome
    requires Hosted(db)
  {
    if AllVacant(db, v) then Completed else Failed
  }

  /** From this version on the upgrade completes exactly if all names are vacant. */
  ghost predicate Agrees(env: Env, db: Db, v: int)
    requires Hosted(db)
  {
    Ending(env, db, v) == Expected(db, v)
  }

  lemma StepAgrees(env: Env, db: Db, d: Db, v: int)
    requires 19 <= v < LatestVersion && Hosted(db) && Located(db, v) && Whole(env, db, v + 1) == Some(d)
    ensures Hosted(d) && Located(d, v + 1) && Agrees(env, d, v + 1) == Agrees(env, db, v)
  {
    StepsNext(env, db, v);
    StepPasses(env, db, d, v + 1);
  }

  lemma BlockedAgrees(env: Env, db: Db, v: int)
    requires 19 <= v < LatestVersion && Hosted(db) && Located(db, v) && Whole(env, db, v + 1).None?
    ensures Agrees(env, db, v)
  {
    StepsNext(env, db, v);
    StepBlocked(env, db, v);
  }

  lemma NoStepsLeft(env: Env, db: Db)
    requires Hosted(db)
    ensures Agrees(env, db, LatestVersion)
  {
  }

  lemma {:induction false} StepsRun(env: Env, db: Db, v: int)
    requires 19 <= v <= LatestVersion && Hosted(db) && Located(db, v)
    ensures Agrees(env, db, v)
    decreases LatestVersion - v
  {
    if v == LatestVersion {
      NoStepsLeft(env, db);
    } else {
      match Whole(env, db, v + 1)
      case None => BlockedAgrees(env, db, v);
      case Some(d) =>
        StepAgrees(env, db, d, v);
        StepsRun(env, d, v + 1);
    }
  }

  /** From version 19 on, and after any interrupted runs, an uninterrupted upgrade completes exactly if no table
      that is to be added was in the public schema before the first run. */
  lemma UpgradeCompletesIffVacant(env: Env, db: Db, from: int, lines: seq<Line>)
    requires 19 <= from <= LatestVersion && Located(db, from) && Hosted(db)
    ensures Upgraded(env, AfterRuns(env, db, lines), Up).1 == Completed <==> AllVacant(db, from)
  {
    InterruptionsLeaveNoTrace(env, db, from, lines);
    LocatedRead(db, from);
    StepsRun(env, db, from);
  }
}
