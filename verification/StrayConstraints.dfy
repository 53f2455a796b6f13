/** Constraints that are enforced but not recorded: how they arise, how long they stay, and what they block. */
module StrayConstraints {
  import opened Wrappers
  import opened Identifiers
  import opened Database
  import opened ForeignKeys
  import opened StageMerge

  // ---- Keys ------------------------------------------------------------------------------------

  /** The key's constraint is added and not recorded: its name is too long, or its INSERT fails. */
  predicate Loses(db: Db, ref: Reference, f: Faults) {
    !f.dropTemp && Adds(AfterDelete(db, ref, f), ref, f) && !(Fits(ref) && !f.insert)
  }

  /** The constraints that the loop adds without recording them. */
  function LostBy(db: Db, refs: seq<Reference>, fs: seq<Faults>): set<Constraint>
    requires |fs| == |refs|
    decreases |refs|
  {
    if refs == [] then {}
    else
      (if Loses(db, refs[0], fs[0]) then {CutConstraint(refs[0])} else {}) +
      (if fs[0].dropTemp then {} else LostBy(AfterKey(db, refs[0], fs[0]), refs[1..], fs[1..]))
  }

  lemma ConstraintStepStrays(db: Db, ref: Reference, f: Faults)
    requires Tidy(db)
    ensures Tidy(AfterConstraint(db, ref, f))
    ensures Strays(AfterConstraint(db, ref, f)) ==
      if Adds(db, ref, f) && !(Fits(ref) && !f.insert) then Strays(db) + {CutConstraint(ref)} else Strays(db)
  {
    if Adds(db, ref, f) {
      var name, c := ConstraintName(ref), CutConstraint(ref);
      var added, after := AddForeignKey(db, ref, name).value, AfterConstraint(db, ref, f);
      assert c !in db.enforced && c !in db.recorded;
      if Fits(ref) && !f.insert {
        FreshNameFreshKey(db, ref);
        assert InsertCatalog(added, ref, name) == Some(added.(recorded := db.recorded + [c]));
        assert after.recorded == db.recorded + [c];
      } else {
        assert after.recorded == db.recorded && after.enforced == db.enforced + {c};
      }
    }
  }

  /** One key, any swallowed failures. */
  lemma KeyStrays(db: Db, ref: Reference, f: Faults)
    requires Tidy(db)
    ensures Tidy(AfterKey(db, ref, f))
    ensures Strays(AfterKey(db, ref, f)) == if Loses(db, ref, f) then Strays(db) + {CutConstraint(ref)} else Strays(db)
  {
    var deleted := AfterDelete(db, ref, f);
    assert deleted.enforced == db.enforced && deleted.recorded == db.recorded;
    assert Strays(deleted) == Strays(db);
    ConstraintStepStrays(deleted, ref, f);
  }

  lemma {:induction false} KeysStrays(db: Db, refs: seq<Reference>, fs: seq<Faults>)
    requires Tidy(db) && |fs| == |refs|
    ensures Tidy(AfterKeys(db, refs, fs))
    ensures Strays(AfterKeys(db, refs, fs)) == Strays(db) + LostBy(db, refs, fs)
    decreases |refs|
  {
    if refs != [] {
      KeyStrays(db, refs[0], fs[0]);
      if !fs[0].dropTemp {
        KeysStrays(AfterKey(db, refs[0], fs[0]), refs[1..], fs[1..]);
      }
    }
  }

  // ---- Actions ---------------------------------------------------------------------------------

  predicate Commits(db: Db, a: Action) {
    a.Replace? && Outcome(db, a.u).Some?
  }

  /** An action removes the strays of the table that it replaces, and adds those that its keys lose. */
  function StraysAfter(db: Db, a: Action): set<Constraint> {
    if Commits(db, a) then StraysElsewhere(db, a.u.table)
    else if a.Keys? && |a.fs| == |a.refs| then Strays(db) + LostBy(db, a.refs, a.fs)
    else Strays(db)
  }

  ghost predicate Orderly(db: Db) {
    Tidy(db) && LoadingUnused(db)
  }

  lemma CommitKeepsOrderly(db: Db, u: Update)
    requires Orderly(db) && Outcome(db, u).Some?
    ensures Orderly(Outcome(db, u).value) && Strays(Outcome(db, u).value) == StraysElsewhere(db, u.table)
  {
    LoadingUnusedIsFree(db, u.table);
    UpdateCommitsIff(db, u);
    var after := Outcome(db, u).value;
    forall c | c in after.enforced
      ensures Satisfied(after.tables, c.ref)
    {
      assert c in Strays(db) && Satisfied(db.tables, c.ref);
      assert c.ref.referencedTable != u.table;
    }
  }

  lemma StepStrays(db: Db, a: Action)
    requires Orderly(db) && NoLoadingKeys(a)
    ensures Orderly(After(db, a)) && Strays(After(db, a)) == StraysAfter(db, a)
  {
    match a
    case Replace(u) =>
      if Outcome(db, u).Some? {
        CommitKeepsOrderly(db, u);
      }
    case Clear(table) =>
    case Keys(refs, fs) =>
      if |fs| == |refs| {
        KeysStrays(db, refs, fs);
        KeysAvoidLoading(db, refs, fs);
      }
  }

  predicate NoneLoading(actions: seq<Action>) {
    forall i :: 0 <= i < |actions| ==> NoLoadingKeys(actions[i])
  }

  lemma {:induction false} StaysOrderly(db: Db, actions: seq<Action>)
    requires Orderly(db) && NoneLoading(actions)
    ensures Orderly(AfterAll(db, actions))
    decreases |actions|
  {
    if actions != [] {
      StaysOrderly(db, actions[..|actions| - 1]);
      StepStrays(AfterAll(db, actions[..|actions| - 1]), actions[|actions| - 1]);
    }
  }

  // ---- How long a stray stays ------------------------------------------------------------------

  /** A replacement of the table has committed at or after action n. */
  ghost predicate ReplacedSince(db: Db, actions: seq<Action>, n: nat, table: string) {
    exists i :: n <= i < |actions| && ReplacedAt(db, actions, i, table)
  }

  predicate ReplacedAt(db: Db, actions: seq<Action>, i: nat, table: string)
    requires i < |actions|
  {
    Commits(AfterAll(db, actions[..i]), actions[i]) && actions[i].u.table == table
  }

  /** Before action n the constraint was a stray from the start, for n = 0, or was lost by the keys just processed. */
  predicate LostAt(db: Db, actions: seq<Action>, n: nat, c: Constraint)
    requires n <= |actions|
  {
    if n == 0 then c in Strays(db)
    else
      var a := actions[n - 1];
      a.Keys? && |a.fs| == |a.refs| && c in LostBy(AfterAll(db, actions[..n - 1]), a.refs, a.fs)
  }

  /** Lost there, and its table not replaced since. */
  ghost predicate LeftAt(db: Db, actions: seq<Action>, n: nat, c: Constraint)
    requires n <= |actions|
  {
    LostAt(db, actions, n, c) && !ReplacedSince(db, actions, n, c.ref.referencingTable)
  }

  lemma LeftStep(db: Db, actions: seq<Action>, n: nat, c: Constraint)
    requires actions != [] && n < |actions|
    ensures LeftAt(db, actions, n, c) <==>
      LeftAt(db, actions[..|actions| - 1], n, c) && !ReplacedAt(db, actions, |actions| - 1, c.ref.referencingTable)
  {
    var last := |actions| - 1;
    var before := actions[..last];
    assert n > 0 ==> before[..n - 1] == actions[..n - 1];
    forall i | 0 <= i < last
      ensures ReplacedAt(db, before, i, c.ref.referencingTable) == ReplacedAt(db, actions, i, c.ref.referencingTable)
    {
      assert before[..i] == actions[..i];
    }
  }

  ghost predicate Left(db: Db, actions: seq<Action>, c: Constraint) {
    exists n :: 0 <= n <= |actions| && LeftAt(db, actions, n, c)
  }

  lemma LeftLast(db: Db, actions: seq<Action>, c: Constraint)
    requires actions != []
    ensures Left(db, actions, c) <==>
      (Left(db, actions[..|actions| - 1], c) && !ReplacedAt(db, actions, |actions| - 1, c.ref.referencingTable)) ||
      LostAt(db, actions, |actions|, c)
  {
    var last := |actions| - 1;
    assert LeftAt(db, actions, |actions|, c) <==> LostAt(db, actions, |actions|, c);
    forall n | 0 <= n <= last
      ensures LeftAt(db, actions, n, c) <==>
        LeftAt(db, actions[..last], n, c) && !ReplacedAt(db, actions, last, c.ref.referencingTable)
    {
      LeftStep(db, actions, n, c);
    }
  }

  /** After any sequence of updates, clearings and key processing, with any failures, a constraint is a stray if and
      only if it was one before, or its record was lost since, and its table has not been replaced after that. */
  lemma {:induction false} StraysIff(db: Db, actions: seq<Action>, c: Constraint)
    requires Orderly(db) && NoneLoading(actions)
    ensures c in Strays(AfterAll(db, actions)) <==> Left(db, actions, c)
    decreases |actions|
  {
    if actions == [] {
      assert LeftAt(db, actions, 0, c) <==> c in Strays(db);
    } else {
      var before, a := actions[..|actions| - 1], actions[|actions| - 1];
      StraysIff(db, before, c);
      StaysOrderly(db, before);
      StepStrays(AfterAll(db, before), a);
      LeftLast(db, actions, c);
    }
  }

  /** A foreign key blocks an update: a stray of another table, left since some action, references the table. */
  ghost predicate LeftAgainst(db: Db, actions: seq<Action>, table: string) {
    exists c :: Left(db, actions, c) && c.ref.referencedTable == table && c.ref.referencingTable != table
  }

  /** After any such sequence an update commits unless staging fails, the history's key is violated, a fault strikes
      or a stray constraint of another table, whose table was not replaced since, references its table. */
  lemma AnyUpdateCommitsIff(db: Db, actions: seq<Action>, u: Update)
    requires Orderly(db) && NoneLoading(actions)
    ensures Outcome(AfterAll(db, actions), u).Some? <==>
      && u.staged.Some? && HistoryAfter(AfterAll(db, actions), u, u.staged.value).Some? && !Struck(u)
      && !LeftAgainst(db, actions, u.table)
  {
    var after := AfterAll(db, actions);
    StaysOrderly(db, actions);
    LoadingUnusedIsFree(after, u.table);
    UpdateCommitsIff(after, u);
    forall c
      ensures c in Strays(after) <==> Left(db, actions, c)
    {
      StraysIff(db, actions, c);
    }
  }

  /** A stray stays enforced, at every moment, if and only if no replacement of its table commits; and as long as none
      does, every update of the table it references fails. */
  lemma StrayBlocksUntilReplaced(db: Db, actions: seq<Action>, c: Constraint)
    requires Orderly(db) && NoneLoading(actions) && c in Strays(db)
    ensures (forall n :: 0 <= n <= |actions| ==> c in AfterAll(db, actions[..n]).enforced) <==>
      !ReplacedSince(db, actions, 0, c.ref.referencingTable)
    ensures !ReplacedSince(db, actions, 0, c.ref.referencingTable) && c.ref.referencedTable != c.ref.referencingTable ==>
      forall u: Update :: u.table == c.ref.referencedTable ==> Outcome(AfterAll(db, actions), u).None?
  {
    var table := c.ref.referencingTable;
    if i :| 0 <= i < |actions| && ReplacedAt(db, actions, i, table) {
      RemovedByReplacing(db, actions, i, c);
    } else {
      forall n | 0 <= n <= |actions|
        ensures c in AfterAll(db, actions[..n]).enforced
      {
        StaysUnreplaced(db, actions, n, c);
      }
      assert LeftAt(db, actions, 0, c) && Left(db, actions, c);
      forall u: Update | u.table == c.ref.referencedTable && c.ref.referencedTable != c.ref.referencingTable
        ensures Outcome(AfterAll(db, actions), u).None?
      {
        AnyUpdateCommitsIff(db, actions, u);
      }
    }
  }

  lemma RemovedByReplacing(db: Db, actions: seq<Action>, i: nat, c: Constraint)
    requires Orderly(db) && NoneLoading(actions) && i < |actions| && ReplacedAt(db, actions, i, c.ref.referencingTable)
    ensures c !in AfterAll(db, actions[..i + 1]).enforced
  {
    var before := AfterAll(db, actions[..i]);
    AfterPrefix(db, actions, i);
    StaysOrderly(db, actions[..i]);
    LoadingUnusedIsFree(before, actions[i].u.table);
    UpdateCommitsIff(before, actions[i].u);
  }

  lemma StaysUnreplaced(db: Db, actions: seq<Action>, n: nat, c: Constraint)
    requires Orderly(db) && NoneLoading(actions) && c in Strays(db) && n <= |actions|
    requires !ReplacedSince(db, actions, 0, c.ref.referencingTable)
    ensures c in Strays(AfterAll(db, actions[..n]))
  {
    StraysIff(db, actions[..n], c);
    forall i | 0 <= i < n
      ensures !ReplacedAt(db, actions[..n], i, c.ref.referencingTable)
    {
      assert actions[..n][..i] == actions[..i];
      assert !ReplacedAt(db, actions, i, c.ref.referencingTable);
    }
    assert LeftAt(db, actions[..n], 0, c);
  }

  /** A committed update leaves a sound database if and only if every stray was of its own table. */
  lemma ReplacingHealsIff(db: Db, u: Update)
    requires Orderly(db) && Outcome(db, u).Some?
    ensures Sound(Outcome(db, u).value) <==> StraysElsewhere(db, u.table) == {}
  {
    CommitKeepsOrderly(db, u);
    LoadingUnusedIsFree(db, u.table);
    UpdateCommitsIff(db, u);
  }

  /** A constraint whose record is lost makes every update of the table it references fail until its own table is
      replaced; replacing that puts a database that was sound before back in order. */
  lemma LostRecordBlocksUpdates(db: Db, ref: Reference, f: Faults, actions: seq<Action>, u: Update)
    requires Orderly(db) && Loses(db, ref, f) && NoneLoading([Keys([ref], [f])] + actions)
    requires ref.referencedTable != ref.referencingTable
    ensures
      var after := AfterKey(db, ref, f);
      && (u.table == ref.referencedTable && !ReplacedSince(after, actions, 0, ref.referencingTable) ==>
          Outcome(AfterAll(after, actions), u).None?)
      && (Sound(db) && u.table == ref.referencingTable && Outcome(after, u).Some? ==> Sound(Outcome(after, u).value))
  {
    var after, c := AfterKey(db, ref, f), CutConstraint(ref);
    KeyStrays(db, ref, f);
    OneKeyAvoidsLoading(db, ref, f, actions);
    StrayBlocksUntilReplaced(after, actions, c);
    if Sound(db) && u.table == ref.referencingTable && Outcome(after, u).Some? {
      SoundIsTidy(db);
      assert StraysElsewhere(after, u.table) == {};
      ReplacingHealsIff(after, u);
    }
  }

  lemma OneKeyAvoidsLoading(db: Db, ref: Reference, f: Faults, actions: seq<Action>)
    requires LoadingUnused(db) && NoneLoading([Keys([ref], [f])] + actions)
    ensures LoadingUnused(AfterKey(db, ref, f)) && NoneLoading(actions)
  {
    var all := [Keys([ref], [f])] + actions;
    assert NoLoadingKeys(all[0]) && all[0].refs[0] == ref;
    forall i | 0 <= i < |actions|
      ensures NoLoadingKeys(actions[i])
    {
      assert all[i + 1] == actions[i];
    }
  }
}
