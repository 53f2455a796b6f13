/** When an upgrade from versions 14 to 18 gets past step 19. */
module UpgradeFromEarlier {
  import opened Upgrade
  import opened ResumedUpgrades
  import opened UpgradeEffects
  import opened UpgradeCompletes

  predicate Free(db: Db, q: Qualified, column: Name) {
    Readable(db, q, column) && !At(db, q).columns[column].used
  }

  function MainAt(v: int): Qualified {
    Qualified(SystemAt(v), "main")
  }

  /** What step w needs of a database at version v. */
  predicate Needed(db: Db, v: int, w: int) {
    match w
    case 15 => Readable(db, General, "disable_anonymization") && Readable(db, General, "update_all_tables")
    case 16 => Free(db, General, "update_all_tables")
    case 17 => !Has(db, Qualified("ldpsystem", "suggested_foreign_keys"))
    case 18 =>
      && "dbsystem" !in db && "ldpconfig" in db && "dbconfig" !in db
      && Has(db, Qualified("ldpsystem", "server_lock")) && !Used(At(db, Qualified("ldpsystem", "server_lock")))
      && !Readable(db, MainAt(14), "database_version")
    case 19 => Free(db, GeneralAt(v), "disable_anonymization") && !Readable(db, MainAt(v), "anonymize")
    case _ => true
  }

  /** The schemas and the catalog that later steps write to, under the names they have at version v. */
  predicate HostedAt(db: Db, v: int) {
    var q := Qualified(SystemAt(v), "tables");
    && "public" in db && "history" in db
    && Has(db, q) && "table_name" in At(db, q).columns && !MissesNotNull(At(db, q), "table_name")
  }

  function PublicOf(db: Db): set<Name>
    requires "public" in db
  {
    db["public"].Keys
  }

  // ---- One step --------------------------------------------------------------------------------

  lemma TwoStatements(env: Env, db: Db, q: Qualified, a: Change, r: Qualified, b: Change)
    ensures
      var (d, ok) := One(env, db, On(q, a), false);
      Apply(env, db, [On(q, a), On(r, b)], false) == if ok then One(env, d, On(r, b), false) else (d, false)
  {
    assert [On(q, a), On(r, b)] == [On(q, a)] + [On(r, b)];
    ApplyFirst(env, db, On(q, a), [On(r, b)], false);
    var d := One(env, db, On(q, a), false).0;
    ApplyFirst(env, d, On(r, b), [], false);
    assert [On(r, b)] + [] == [On(r, b)];
  }

  lemma Step15(env: Env, db: Db)
    ensures Apply(env, db, Body(env, 15), false).1 <==> Needed(db, 14, 15)
    ensures
      Apply(env, db, Body(env, 15), false).1 ==>
        var d := Apply(env, db, Body(env, 15), false).0;
        && d.Keys == db.Keys && Has(db, General) && Has(d, General)
        && (forall p :: p != General ==> Has(d, p) == Has(db, p) && (Has(db, p) ==> At(d, p) == At(db, p)))
        && At(d, General).columns.Keys == At(db, General).columns.Keys
        && forall c :: c in At(d, General).columns ==> At(d, General).columns[c].used == At(db, General).columns[c].used
  {
    var a, b := SetDefault("disable_anonymization", Flag(false)), DropNotNull("update_all_tables");
    TwoStatements(env, db, General, a, General, b);
    var (d1, ok1) := One(env, db, On(General, a), false);
    if ok1 {
      ChangePuts(env, db, General, a);
      if One(env, d1, On(General, b), false).1 {
        ChangePuts(env, d1, General, b);
      }
    }
  }

  lemma Step16(env: Env, db: Db)
    ensures Apply(env, db, Body(env, 16), false).1 <==> Needed(db, 15, 16)
    ensures
      Apply(env, db, Body(env, 16), false).1 ==>
        var d := Apply(env, db, Body(env, 16), false).0;
        && d.Keys == db.Keys && Has(db, General) && Has(d, General)
        && (forall p :: p != General ==> Has(d, p) == Has(db, p) && (Has(db, p) ==> At(d, p) == At(db, p)))
        && At(d, General).columns.Keys == At(db, General).columns.Keys
        && forall c :: c in At(d, General).columns && c != "update_all_tables" ==>
          At(d, General).columns[c].used == At(db, General).columns[c].used
  {
    var a, b := DropColumn("update_all_tables"), AddColumn("update_all_tables", Column(Boolean, true, Flag(false), false));
    TwoStatements(env, db, General, a, General, b);
    var (d1, ok1) := One(env, db, On(General, a), false);
    if ok1 {
      ChangePuts(env, db, General, a);
      if One(env, d1, On(General, b), false).1 {
        ChangePuts(env, d1, General, b);
      }
    }
  }

  lemma Step17(env: Env, db: Db)
    requires "ldpsystem" in db
    ensures Apply(env, db, Body(env, 17), false).1 <==> Needed(db, 16, 17)
    ensures
      Apply(env, db, Body(env, 17), false).1 ==>
        var d := Apply(env, db, Body(env, 17), false).0;
        && d.Keys == db.Keys
        && forall p :: p != Qualified("ldpsystem", "suggested_foreign_keys") ==>
          Has(d, p) == Has(db, p) && (Has(db, p) ==> At(d, p) == At(db, p))
  {
    assert Body(env, 17) == [Body(env, 17)[0]] + [];
    ApplyFirst(env, db, Body(env, 17)[0], [], false);
  }

  lemma Step19(env: Env, db: Db)
    requires Has(db, MainAt(18))
    ensures Apply(env, db, Body(env, 19), false).1 <==> Needed(db, 18, 19)
    ensures
      Apply(env, db, Body(env, 19), false).1 ==>
        var d := Apply(env, db, Body(env, 19), false).0;
        d.Keys == db.Keys &&
        forall p :: p != GeneralLater && p != MainAt(18) ==> Has(d, p) == Has(db, p) && (Has(db, p) ==> At(d, p) == At(db, p))
  {
    var a, b := DropColumn("disable_anonymization"), AddColumn("anonymize", Column(Boolean, true, Flag(true), false));
    TwoStatements(env, db, GeneralLater, a, MainAt(18), b);
    var (d1, ok1) := One(env, db, On(GeneralLater, a), false);
    if ok1 {
      ChangePuts(env, db, GeneralLater, a);
      if One(env, d1, On(MainAt(18), b), false).1 {
        ChangePuts(env, d1, MainAt(18), b);
      }
    }
  }

  lemma LockStatements(env: Env, db: Db)
    requires "ldpsystem" in db
    ensures Apply(env, db, Body(env, 18)[..2], false).1 <==>
      "dbsystem" !in db && Has(db, Qualified("ldpsystem", "server_lock")) &&
      !Used(At(db, Qualified("ldpsystem", "server_lock")))
    ensures
      Apply(env, db, Body(env, 18)[..2], false).1 ==>
        var d := Apply(env, db, Body(env, 18)[..2], false).0;
        && d.Keys == db.Keys - {"ldpsystem"} + {"dbsystem"}
        && d["dbsystem"] == db["ldpsystem"] - {"server_lock"}
        && forall p: Qualified :: p.schema != "ldpsystem" && p.schema != "dbsystem" ==>
          Has(d, p) == Has(db, p) && (Has(db, p) ==> At(d, p) == At(db, p))
  {
    var s := Body(env, 18)[..2];
    assert s == [s[0]] + [s[1]];
    ApplyFirst(env, db, s[0], [s[1]], false);
    var d1 := One(env, db, s[0], false).0;
    ApplyFirst(env, d1, s[1], [], false);
    assert [s[1]] + [] == [s[1]];
  }

  lemma MoveStatements(env: Env, db: Db)
    requires Readable(db, MainAt(18), "ldp_schema_version")
    ensures Apply(env, db, Body(env, 18)[2..], false).1 <==>
      !Readable(db, MainAt(18), "database_version") && "ldpconfig" in db && "dbconfig" !in db
    ensures
      Apply(env, db, Body(env, 18)[2..], false).1 ==>
        var d := Apply(env, db, Body(env, 18)[2..], false).0;
        && d.Keys == db.Keys - {"ldpconfig"} + {"dbconfig"} && d["dbconfig"] == db["ldpconfig"]
        && Has(d, MainAt(18)) && (Readable(d, MainAt(18), "anonymize") <==> Readable(db, MainAt(18), "anonymize"))
        && forall p: Qualified :: p.schema != "ldpconfig" && p.schema != "dbconfig" && p != MainAt(18) ==>
          Has(d, p) == Has(db, p) && (Has(db, p) ==> At(d, p) == At(db, p))
  {
    var s := Body(env, 18)[2..];
    assert s == [s[0]] + [s[1]];
    ApplyFirst(env, db, s[0], [s[1]], false);
    var (d1, ok1) := One(env, db, s[0], false);
    if ok1 {
      ChangePuts(env, db, s[0].table, s[0].change);
      assert d1.Keys == db.Keys && ("ldpconfig" in db ==> d1["ldpconfig"] == db["ldpconfig"]);
    }
    ApplyFirst(env, d1, s[1], [], false);
    assert [s[1]] + [] == [s[1]];
  }

  lemma LockLeavesMain(env: Env, db: Db)
    requires Readable(db, MainAt(17), "ldp_schema_version") && Apply(env, db, Body(env, 18)[..2], false).1
    ensures
      var d := Apply(env, db, Body(env, 18)[..2], false).0;
      && Has(d, MainAt(18)) && At(d, MainAt(18)) == At(db, MainAt(17))
      && ("ldpconfig" in d <==> "ldpconfig" in db) && ("dbconfig" in d <==> "dbconfig" in db)
  {
    LockStatements(env, db);
  }

  lemma Step18(env: Env, db: Db)
    requires Readable(db, MainAt(17), "ldp_schema_version")
    ensures Apply(env, db, Body(env, 18), false).1 <==> Needed(db, 17, 18)
  {
    var s := Body(env, 18);
    assert s == s[..2] + s[2..];
    ApplyAppend(env, db, s[..2], s[2..], false);
    LockStatements(env, db);
    var (d, ok) := Apply(env, db, s[..2], false);
    if ok {
      LockLeavesMain(env, db);
      MoveStatements(env, d);
    }
  }

  /** Where step 18 has put things. */
  ghost predicate MovedTo(db: Db, d: Db) {
    SystemMoved(db, d) && "dbconfig" in d && "ldpconfig" in db && d["dbconfig"] == db["ldpconfig"]
  }

  ghost predicate SystemMoved(db: Db, d: Db) {
    && Has(d, MainAt(18)) && (Readable(d, MainAt(18), "anonymize") <==> Readable(db, MainAt(17), "anonymize"))
    && (var p, q := Qualified("dbsystem", "tables"), Qualified("ldpsystem", "tables");
        Has(d, p) == Has(db, q) && (Has(db, q) ==> At(d, p) == At(db, q)))
    && ("public" in d <==> "public" in db) && ("history" in d <==> "history" in db)
    && forall p: Qualified :: p.schema == "public" ==> Has(d, p) == Has(db, p)
  }

  lemma LockMoves(env: Env, db: Db)
    requires Readable(db, MainAt(17), "ldp_schema_version") && Apply(env, db, Body(env, 18)[..2], false).1
    ensures SystemMoved(db, Apply(env, db, Body(env, 18)[..2], false).0)
  {
    LockStatements(env, db);
    LockLeavesMain(env, db);
  }

  lemma MoveKeeps(env: Env, db: Db, d: Db)
    requires SystemMoved(db, d) && Readable(d, MainAt(18), "ldp_schema_version")
    requires Apply(env, d, Body(env, 18)[2..], false).1
    ensures SystemMoved(db, Apply(env, d, Body(env, 18)[2..], false).0)
  {
    MoveStatements(env, d);
  }

  lemma Step18Moves(env: Env, db: Db)
    requires Readable(db, MainAt(17), "ldp_schema_version") && Apply(env, db, Body(env, 18), false).1
    ensures MovedTo(db, Apply(env, db, Body(env, 18), false).0)
  {
    var s := Body(env, 18);
    assert s == s[..2] + s[2..];
    ApplyAppend(env, db, s[..2], s[2..], false);
    var d := Apply(env, db, s[..2], false).0;
    LockLeavesMain(env, db);
    LockMoves(env, db);
    MoveKeeps(env, db, d);
    MoveStatements(env, d);
    ConfigKept(env, db);
  }

  lemma ConfigKept(env: Env, db: Db)
    requires "ldpsystem" in db && Apply(env, db, Body(env, 18)[..2], false).1
    ensures
      var d := Apply(env, db, Body(env, 18)[..2], false).0;
      "ldpconfig" in db ==> "ldpconfig" in d && d["ldpconfig"] == db["ldpconfig"]
  {
    var s := Body(env, 18)[..2];
    assert s == [s[0]] + [s[1]];
    ApplyFirst(env, db, s[0], [s[1]], false);
    ApplyFirst(env, One(env, db, s[0], false).0, s[1], [], false);
    assert [s[1]] + [] == [s[1]];
  }

  // ---- From version to version -----------------------------------------------------------------

  /** What step v leaves to the later steps. */
  ghost predicate Keeps(db: Db, d: Db, v: int) {
    && (forall w :: v < w <= 19 ==> (Needed(d, v, w) <==> Needed(db, v - 1, w)))
    && (HostedAt(d, v) <==> HostedAt(db, v - 1))
    && (HostedAt(db, v - 1) ==> PublicOf(d) == PublicOf(db))
  }

  lemma SamePublic(db: Db, d: Db)
    requires "public" in db && "public" in d
    requires forall p: Qualified :: p.schema == "public" ==> Has(d, p) == Has(db, p)
    ensures PublicOf(d) == PublicOf(db)
  {
    forall n
      ensures n in PublicOf(d) <==> n in PublicOf(db)
    {
      assert Has(d, Public(n)) == Has(db, Public(n));
    }
  }

  lemma WriteKeeps(env: Env, db: Db, v: int)
    requires 15 <= v <= 19 && One(env, db, VersionWrite(v), false).1
    ensures
      var d := One(env, db, VersionWrite(v), false).0;
      && (forall w :: v < w <= 19 ==> (Needed(d, v, w) <==> Needed(db, v, w)))
      && (HostedAt(d, v) <==> HostedAt(db, v)) && (HostedAt(db, v) ==> PublicOf(d) == PublicOf(db))
  {
    ChangePuts(env, db, VersionWrite(v).table, VersionWrite(v).change);
    var d := One(env, db, VersionWrite(v), false).0;
    if "public" in db {
      SamePublic(db, d);
    }
  }

  lemma BodyKeeps15(env: Env, db: Db)
    requires Apply(env, db, Body(env, 15), false).1
    ensures Keeps(db, Apply(env, db, Body(env, 15), false).0, 15)
  {
    Step15(env, db);
    if "public" in db {
      SamePublic(db, Apply(env, db, Body(env, 15), false).0);
    }
  }

  lemma BodyKeeps16(env: Env, db: Db)
    requires Apply(env, db, Body(env, 16), false).1
    ensures Keeps(db, Apply(env, db, Body(env, 16), false).0, 16)
  {
    Step16(env, db);
    if "public" in db {
      SamePublic(db, Apply(env, db, Body(env, 16), false).0);
    }
  }

  lemma BodyKeeps17(env: Env, db: Db)
    requires "ldpsystem" in db && Apply(env, db, Body(env, 17), false).1
    ensures Keeps(db, Apply(env, db, Body(env, 17), false).0, 17)
  {
    Step17(env, db);
    if "public" in db {
      SamePublic(db, Apply(env, db, Body(env, 17), false).0);
    }
  }

  lemma BodyKeeps18(env: Env, db: Db)
    requires Readable(db, MainAt(17), "ldp_schema_version") && Apply(env, db, Body(env, 18), false).1
    ensures Keeps(db, Apply(env, db, Body(env, 18), false).0, 18)
  {
    Step18Moves(env, db);
    if "public" in db {
      SamePublic(db, Apply(env, db, Body(env, 18), false).0);
    }
  }

  lemma BodyKeeps19(env: Env, db: Db)
    requires Has(db, MainAt(18)) && Apply(env, db, Body(env, 19), false).1
    ensures Keeps(db, Apply(env, db, Body(env, 19), false).0, 19)
  {
    Step19(env, db);
    if "public" in db {
      SamePublic(db, Apply(env, db, Body(env, 19), false).0);
    }
  }

  lemma BodyNeeds(env: Env, db: Db, v: int)
    requires 15 <= v <= 19 && Located(db, v - 1)
    ensures
      var (d, ok) := Apply(env, db, Body(env, v), false);
      (ok <==> Needed(db, v - 1, v)) && (ok ==> Keeps(db, d, v))
  {
    var ok := Apply(env, db, Body(env, v), false).1;
    match v {
      case 15 => Step15(env, db); if ok { BodyKeeps15(env, db); }
      case 16 => Step16(env, db); if ok { BodyKeeps16(env, db); }
      case 17 => Step17(env, db); if ok { BodyKeeps17(env, db); }
      case 18 => Step18(env, db); if ok { BodyKeeps18(env, db); }
      case 19 => Step19(env, db); if ok { BodyKeeps19(env, db); }
    }
  }

  /** The version write of an early step cannot fail. */
  lemma WriteRuns(env: Env, db: Db, v: int)
    requires 15 <= v <= 19 && Located(db, v - 1) && Apply(env, db, Body(env, v), false).1
    ensures Exec(env, Apply(env, db, Body(env, v), false).0, VersionWrite(v)).Some?
  {
    var d := Apply(env, db, Body(env, v), false).0;
    if v == 18 {
      RenameMoves(env, db);
    } else if v == 19 {
      AnonymizeKeeps(env, db);
    } else {
      BodyAside(env, v);
      AsideStatements(env, db, Body(env, v), false);
      assert Main(d, "ldpsystem") == Main(db, "ldpsystem");
    }
  }

  /** An early step succeeds exactly if what it needs is there, and leaves what later steps need as it was. */
  lemma StepNeeds(env: Env, db: Db, v: int)
    requires 15 <= v <= 19 && Located(db, v - 1)
    ensures Whole(env, db, v).Some? <==> Needed(db, v - 1, v)
    ensures Whole(env, db, v).Some? ==> Keeps(db, Whole(env, db, v).value, v)
  {
    BodyNeeds(env, db, v);
    var (d, ok) := Apply(env, db, Body(env, v), false);
    if ok {
      WriteRuns(env, db, v);
      WriteKeeps(env, d, v);
    }
  }

  // ---- Whole upgrades --------------------------------------------------------------------------

  ghost predicate AllNeeded(db: Db, v: int) {
    forall w :: v < w <= 19 ==> Needed(db, v, w)
  }

  predicate Absent(public: set<Name>, w: int) {
    forall i :: 0 <= i < |NewTables(w)| ==> NewTables(w)[i] !in public
  }

  /** No table that is still to be added is among the public ones. */
  ghost predicate NoneOf(public: set<Name>, v: int) {
    forall w :: v < w <= LatestVersion ==> Absent(public, w)
  }

  ghost function Foreseen(db: Db, v: int): Outcome
    requires "public" in db
  {
    if AllNeeded(db, v) && NoneOf(PublicOf(db), v) then Completed else Failed
  }

  lemma NeededNext(db: Db, d: Db, v: int)
    requires 14 <= v < 19 && Needed(db, v, v + 1) && Keeps(db, d, v + 1)
    ensures AllNeeded(db, v) <==> AllNeeded(d, v + 1)
  {
    if AllNeeded(d, v + 1) {
      forall w | v < w <= 19
        ensures Needed(db, v, w)
      {
        assert w > v + 1 ==> Needed(d, v + 1, w);
      }
    }
  }

  lemma NoneOfNext(public: set<Name>, v: int)
    requires 14 <= v < 19
    ensures NoneOf(public, v) <==> NoneOf(public, v + 1)
  {
    assert NewTables(v + 1) == [];
    assert Absent(public, v + 1);
  }

  lemma FromNineteen(env: Env, db: Db)
    requires Located(db, 19) && HostedAt(db, 19)
    ensures Ending(env, db, 19) == Foreseen(db, 19)
  {
    StepsRun(env, db, 19);
    VacantIsNoneOf(db);
    NothingNeeded(db);
  }

  lemma NothingNeeded(db: Db)
    ensures AllNeeded(db, 19)
  {
  }

  lemma VacantIsAbsent(db: Db, w: int)
    requires Hosted(db)
    ensures VacantFor(db, w) == Absent(PublicOf(db), w)
  {
  }

  lemma VacantIsNoneOf(db: Db)
    requires HostedAt(db, 19)
    ensures Hosted(db) && Expected(db, 19) == if NoneOf(PublicOf(db), 19) then Completed else Failed
  {
    forall w
      ensures VacantFor(db, w) == Absent(PublicOf(db), w)
    {
      VacantIsAbsent(db, w);
    }
  }

  lemma NextEnding(env: Env, db: Db, v: int)
    requires 14 <= v < 19 && Located(db, v)
    ensures
      var next := Whole(env, db, v + 1);
      Ending(env, db, v) == if next.Some? then Ending(env, next.value, v + 1) else Failed
  {
    StepsNext(env, db, v);
  }

  lemma {:induction false} EarlierRuns(env: Env, db: Db, v: int)
    requires 14 <= v <= 19 && Located(db, v) && HostedAt(db, v)
    ensures Ending(env, db, v) == Foreseen(db, v)
    decreases 19 - v
  {
    if v == 19 {
      FromNineteen(env, db);
    } else {
      NextEnding(env, db, v);
      if Whole(env, db, v + 1).Some? {
        NextForeseen(env, db, v);
        EarlierRuns(env, Whole(env, db, v + 1).value, v + 1);
      } else {
        StepNeeds(env, db, v + 1);
        assert !Needed(db, v, v + 1);
      }
    }
  }

  lemma NextForeseen(env: Env, db: Db, v: int)
    requires 14 <= v < 19 && Located(db, v) && HostedAt(db, v) && Whole(env, db, v + 1).Some?
    ensures
      var d := Whole(env, db, v + 1).value;
      Located(d, v + 1) && HostedAt(d, v + 1) && Foreseen(d, v + 1) == Foreseen(db, v)
  {
    var d := Whole(env, db, v + 1).value;
    StepNeeds(env, db, v + 1);
    StepLocated(env, db, v + 1);
    NeededNext(db, d, v);
    NoneOfNext(PublicOf(db), v);
  }

  /** From any version from 14 to 19, and after any interrupted runs, an uninterrupted upgrade completes exactly if
      the database had what steps 15 to 19 need, and none of the tables still to be added. */
  lemma UpgradeCompletesIff(env: Env, db: Db, from: int, lines: seq<Line>)
    requires 14 <= from <= 19 && Located(db, from) && HostedAt(db, from)
    ensures Upgraded(env, AfterRuns(env, db, lines), Up).1 == Completed <==>
      AllNeeded(db, from) && NoneOf(PublicOf(db), from)
  {
    InterruptionsLeaveNoTrace(env, db, from, lines);
    LocatedRead(db, from);
    EarlierRuns(env, db, from);
  }
}
