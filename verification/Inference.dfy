/** From statistics to columns, and why pass 2 can rely on the columns of pass 1 (src/stage.cpp, stage_table_1). */
module Inference {
  import opened Wrappers
  import opened CStrings
  import opened JsonTree
  import opened JsonPointer
  import opened TypeStats
  import opened Records
  import opened Rows
  import CamelCase
  import Normalization

  datatype SourceType =
    DirectOnly | Notes | NotesLink | NotesNoteLink | Rmb | SrsRecords | SrsMarcRecords | SrsErrorRecords

  /** Fields that get a column. */
  predicate Keeps(st: SourceType, field: string) {
    match st
    case SrsMarcRecords => field == "id"
    case SrsErrorRecords => field == "id" || field == "description"
    case _ => true
  }

  function ColumnFor(field: string, c: TypeCounts): Column {
    Column(CamelCase.Decoded(CStr(field)), SelectType(c), if c.maxLength > 1 then c.maxLength else 1, field)
  }

  predicate InSourceOrder(columns: seq<Column>) {
    forall i, j :: 0 <= i < j < |columns| ==> Less(columns[i].source, columns[j].source)
  }

  /** One column for every kept field, in the order of the statistics map. */
  ghost predicate IsColumns(columns: seq<Column>, stats: Statistics, st: SourceType) {
    && InSourceOrder(columns)
    && (forall i :: 0 <= i < |columns| ==>
        columns[i].source in stats && Keeps(st, columns[i].source) &&
        columns[i] == ColumnFor(columns[i].source, stats[columns[i].source]))
    && (forall f :: f in stats && Keeps(st, f) ==> exists i :: 0 <= i < |columns| && columns[i].source == f)
  }

  predicate IsLeast(f: string, s: set<string>) {
    f in s && forall g :: g in s ==> g == f || Less(f, g)
  }

  lemma {:induction false} LeastExists(s: set<string>)
    requires s != {}
    ensures exists f :: IsLeast(f, s)
  {
    var x :| x in s;
    var rest := s - {x};
    if rest == {} {
      assert s == {x};
      assert IsLeast(x, s);
    } else {
      LeastExists(rest);
      var f :| IsLeast(f, rest);
      LessTotal(x, f);
      if Less(x, f) {
        forall g | g in s
          ensures g == x || Less(x, g)
        {
          if g != x && g != f {
            LessTransitive(x, f, g);
          }
        }
        assert IsLeast(x, s);
      } else {
        assert IsLeast(f, s);
      }
    }
  }

  /** The columns of the fields outside `remaining`, all before those inside. */
  ghost predicate ColumnsSoFar(columns: seq<Column>, stats: Statistics, st: SourceType, remaining: set<string>) {
    && remaining <= stats.Keys
    && IsColumns(columns, stats - remaining, st)
    && forall f, g :: f in stats && f !in remaining && g in remaining ==> Less(f, g)
  }

  lemma SkipField(columns: seq<Column>, stats: Statistics, st: SourceType, remaining: set<string>, field: string)
    requires ColumnsSoFar(columns, stats, st, remaining) && IsLeast(field, remaining) && !Keeps(st, field)
    ensures ColumnsSoFar(columns, stats, st, remaining - {field})
  {
  }

  lemma AddField(columns: seq<Column>, stats: Statistics, st: SourceType, remaining: set<string>, field: string)
    requires ColumnsSoFar(columns, stats, st, remaining) && IsLeast(field, remaining) && Keeps(st, field)
    ensures ColumnsSoFar(columns + [ColumnFor(field, stats[field])], stats, st, remaining - {field})
  {
    var after := columns + [ColumnFor(field, stats[field])];
    var seen := stats - (remaining - {field});
    assert after[|columns|].source == field;
    assert forall i :: 0 <= i < |columns| ==> after[i] == columns[i];
    forall f | f in seen && Keeps(st, f)
      ensures exists i :: 0 <= i < |after| && after[i].source == f
    {
      if f != field {
        assert f in stats - remaining;
        var i :| 0 <= i < |columns| && columns[i].source == f;
        assert after[i].source == f;
      }
    }
  }

  method BuildColumns(stats: Statistics, st: SourceType) returns (columns: seq<Column>)
    ensures IsColumns(columns, stats, st)
  {
    columns := [];
    var remaining := stats.Keys;
    while remaining != {}
      invariant ColumnsSoFar(columns, stats, st, remaining)
      decreases remaining
    {
      LeastExists(remaining);
      var field :| field in remaining && IsLeast(field, remaining);
      var counts := stats[field];
      if Keeps(st, field) {
        AddField(columns, stats, st, remaining, field);
        var newattr := CamelCase.DecodeCamelCase(field);
        var length := if counts.maxLength > 1 then counts.maxLength else 1;
        columns := columns + [Column(newattr, SelectType(counts), length, field)];
      } else {
        SkipField(columns, stats, st, remaining, field);
      }
      remaining := remaining - {field};
    }
    assert stats - {} == stats;
  }

  // ---- What pass 1 sees is what pass 2 looks up ------------------------------------------------

  lemma {:induction false} NothingCountedBelow(r: Rules, v: Json, field: string, depth: nat, obj: bool)
    requires depth >= 2 && !Counts(depth, obj) && field != ""
    ensures Observed(r, v, field, depth, obj) == []
    decreases v, 1, 0
  {
    if !v.Scalar() && !r.Cuts(field) {
      NothingCountedInChildren(r, v, field, depth, ChildCount(Ordered(v)));
    }
  }

  lemma {:induction false} NothingCountedInChildren(r: Rules, v: Json, field: string, depth: nat, n: nat)
    requires n <= ChildCount(Ordered(v)) && depth >= 1 && !Counts(depth + 1, v.Obj?)
    ensures ObservedBelow(r, v, field, depth, n) == []
    decreases v, 0, n
  {
    if n > 0 {
      NothingCountedInChildren(r, v, field, depth, n - 1);
      OrderedChild(v, n - 1);
      NothingCountedBelow(r, Child(Ordered(v), n - 1), field + "/" + ChildName(Ordered(v), n - 1), depth + 1, v.Obj?);
    }
  }

  function ChildField(v: Json, field: string, k: nat): string
    requires k < ChildCount(Ordered(v))
  {
    field + "/" + ChildName(Ordered(v), k)
  }

  function ChildObserved(r: Rules, v: Json, field: string, depth: nat, k: nat): seq<Observation>
    requires k < ChildCount(Ordered(v))
  {
    Observed(r, Child(Ordered(v), k), ChildField(v, field, k), depth + 1, v.Obj?)
  }

  lemma {:induction false} ObservedFromChild(r: Rules, v: Json, field: string, depth: nat, n: nat, k: nat, o: Observation)
    requires k < n <= ChildCount(Ordered(v)) && o in ChildObserved(r, v, field, depth, k)
    ensures o in ObservedBelow(r, v, field, depth, n)
    decreases n
  {
    if k < n - 1 {
      ObservedFromChild(r, v, field, depth, n - 1, k, o);
    }
  }

  lemma {:induction false} ObservedInChild(r: Rules, v: Json, field: string, depth: nat, n: nat, o: Observation) returns (k: nat)
    requires n <= ChildCount(Ordered(v)) && o in ObservedBelow(r, v, field, depth, n)
    ensures k < n && o in ChildObserved(r, v, field, depth, k)
    decreases n
  {
    if o in ChildObserved(r, v, field, depth, n - 1) {
      k := n - 1;
    } else {
      k := ObservedInChild(r, v, field, depth, n - 1, o);
    }
  }

  /** Position of the selected child after the sort. */
  lemma OrderedSelected(v: Json, name: string) returns (k: nat)
    requires Clean(v) && v.Obj? && FindMember(v.members, name) < |v.members|
    ensures k < ChildCount(Ordered(v)) && ChildName(Ordered(v), k) == name
    ensures Child(Ordered(v), k) == v.members[FindMember(v.members, name)].value
  {
    Normalization.SortedLookup(v.members, name);
    k := FindMember(Sorted(v.members), name);
  }

  lemma SelectedOrdered(v: Json, k: nat)
    requires Clean(v) && v.Obj? && k < ChildCount(Ordered(v))
    ensures
      var j := FindMember(v.members, ChildName(Ordered(v), k));
      j < |v.members| && v.members[j].value == Child(Ordered(v), k)
  {
    SortedInOrder(v.members);
    SortedMembers(v.members);
    FindUnique(Sorted(v.members), k);
    Normalization.SortedLookup(v.members, ChildName(Ordered(v), k));
  }

  lemma ClosestField(name: string)
    ensures ("" + "/" + name)[1..] == name
  {
  }

  lemma NestedField(a: string, b: string)
    ensures ("" + "/" + a + "/" + b)[1..] == a + "/" + b
    ensures '/' in a + "/" + b
    ensures "/" + (a + "/" + b) == "" + "/" + a + "/" + b
  {
    assert (a + "/" + b)[|a|] == '/';
  }

  /** What a scalar member contributes to the statistics. */
  lemma ScalarMemberObserved(r: Rules, rec: Json, k: nat)
    requires rec.Obj? && k < ChildCount(Ordered(rec)) && Child(Ordered(rec), k).Scalar()
    ensures
      var name := ChildName(Ordered(rec), k);
      ChildObserved(r, rec, "", 0, k) == [Observation(name, Cleansed(r, Child(Ordered(rec), k), "" + "/" + name))]
  {
    ClosestField(ChildName(Ordered(rec), k));
  }

  /** The member that a processed record shows under a name. */
  lemma MemberShown(r: Rules, rec: Json, name: string, v: Json) returns (k: nat)
    requires Clean(rec) && rec.Obj? && !r.Cuts("") && CleanName(name)
    requires v.Scalar() && !v.Null? && Lookup(Cleansed(r, rec, ""), name) == Some(v)
    ensures k < ChildCount(Ordered(rec)) && ChildName(Ordered(rec), k) == name && Child(Ordered(rec), k).Scalar()
    ensures Cleansed(r, Child(Ordered(rec), k), "" + "/" + name) == v
  {
    Normalization.SelectedAfter(r, rec, "", name);
    k := OrderedSelected(rec, name);
  }

  /** A value at a member name of the processed record was counted under that name. */
  lemma MemberObserved(r: Rules, rec: Json, name: string, v: Json)
    requires Clean(rec) && rec.Obj? && !r.Cuts("") && CleanName(name)
    requires v.Scalar() && !v.Null?
    requires Lookup(Cleansed(r, rec, ""), name) == Some(v)
    ensures Observation(name, v) in Observed(r, rec, "", 0, true)
  {
    var k := MemberShown(r, rec, name, v);
    ScalarMemberObserved(r, rec, k);
    ObservedFromChild(r, rec, "", 0, ChildCount(Ordered(rec)), k, Observation(name, v));
  }

  lemma NestedLookup(doc: Json, a: string, b: string)
    requires doc.Obj? && CleanName(a) && CleanName(b)
    ensures Lookup(doc, a + "/" + b) == GetPointer(doc, [a, b])
    ensures Lookup(doc, a) == GetPointer(doc, [a])
  {
    NestedField(a, b);
    PointerTextSnoc([], a);
    PointerTextSnoc([a], b);
    assert [] + [a] == [a] && [a] + [b] == [a, b];
    PointerTextParses([a, b]);
    assert [a][1..] == [];
  }

  lemma GetTwo(doc: Json, a: string, b: string)
    ensures GetPointer(doc, [a, b]) ==
      if Normalization.Selected(doc, a).None? then None
      else
        var mid := Child(doc, Normalization.Selected(doc, a).value);
        if Normalization.Selected(mid, b).None? then None else Some(Child(mid, Normalization.Selected(mid, b).value))
  {
    assert [a, b][1..] == [b] && [b][1..] == [];
    Normalization.GetStep(doc, [a, b]);
    if Normalization.Selected(doc, a).Some? {
      Normalization.GetStep(Child(doc, Normalization.Selected(doc, a).value), [b]);
    }
  }

  /** Lookups in the processed record, in terms of the ordered children of the record. */
  lemma LookupMember(r: Rules, rec: Json, k: nat)
    requires Clean(rec) && rec.Obj? && !r.Cuts("") && k < ChildCount(Ordered(rec))
    ensures CleanName(ChildName(Ordered(rec), k)) && Clean(Child(Ordered(rec), k))
    ensures Lookup(Cleansed(r, rec, ""), ChildName(Ordered(rec), k)) ==
      Some(Cleansed(r, Child(Ordered(rec), k), ChildField(rec, "", k)))
  {
    OrderedClean(rec);
    SelectedOrdered(rec, k);
    Normalization.SelectedAfter(r, rec, "", ChildName(Ordered(rec), k));
  }

  lemma LookupNested(r: Rules, rec: Json, k: nat, b: string)
    requires Clean(rec) && rec.Obj? && !r.Cuts("") && k < ChildCount(Ordered(rec)) && CleanName(b)
    requires Child(Ordered(rec), k).Obj? && !r.Cuts(ChildField(rec, "", k))
    ensures
      var mid, field := Child(Ordered(rec), k), ChildField(rec, "", k);
      var j := FindMember(mid.members, b);
      Lookup(Cleansed(r, rec, ""), ChildName(Ordered(rec), k) + "/" + b) ==
        if j < |mid.members| then Some(Cleansed(r, mid.members[j].value, field + "/" + b)) else None
  {
    var doc, a := Cleansed(r, rec, ""), ChildName(Ordered(rec), k);
    LookupMember(r, rec, k);
    NestedLookup(doc, a, b);
    GetTwo(doc, a, b);
    Normalization.SelectedAfter(r, Child(Ordered(rec), k), ChildField(rec, "", k), b);
  }

  /** What a scalar grandchild contributes to the statistics. */
  lemma GrandchildObserved(r: Rules, rec: Json, k: nat, j: nat)
    requires rec.Obj? && k < ChildCount(Ordered(rec)) && Child(Ordered(rec), k).Obj?
    requires j < ChildCount(Ordered(Child(Ordered(rec), k)))
    ensures
      var mid, field := Child(Ordered(rec), k), ChildField(rec, "", k);
      var leaf, b := Child(Ordered(mid), j), ChildName(Ordered(mid), j);
      ChildObserved(r, mid, field, 1, j) ==
        if leaf.Scalar()
        then [Observation(ChildName(Ordered(rec), k) + "/" + b, Cleansed(r, leaf, field + "/" + b))] else []
  {
    var mid, field := Child(Ordered(rec), k), ChildField(rec, "", k);
    var leaf := Child(Ordered(mid), j);
    NestedField(ChildName(Ordered(rec), k), ChildName(Ordered(mid), j));
    if !leaf.Scalar() && !r.Cuts(ChildField(mid, field, j)) {
      NothingCountedInChildren(r, leaf, ChildField(mid, field, j), 2, ChildCount(Ordered(leaf)));
    }
  }

  lemma GrandchildCounted(r: Rules, rec: Json, k: nat, j: nat, o: Observation)
    requires rec.Obj? && !r.Cuts("") && k < ChildCount(Ordered(rec))
    requires Child(Ordered(rec), k).Obj? && !r.Cuts(ChildField(rec, "", k))
    requires j < ChildCount(Ordered(Child(Ordered(rec), k)))
    requires o in ChildObserved(r, Child(Ordered(rec), k), ChildField(rec, "", k), 1, j)
    ensures o in Observed(r, rec, "", 0, true)
  {
    var mid, field := Child(Ordered(rec), k), ChildField(rec, "", k);
    ObservedFromChild(r, mid, field, 1, ChildCount(Ordered(mid)), j, o);
    ObservedFromChild(r, rec, "", 0, ChildCount(Ordered(rec)), k, o);
  }

  /** The ordered child behind a member of the processed record. */
  lemma MemberBehind(r: Rules, rec: Json, a: string) returns (k: nat)
    requires Clean(rec) && rec.Obj? && !r.Cuts("") && CleanName(a)
    requires Lookup(Cleansed(r, rec, ""), a).Some?
    ensures k < ChildCount(Ordered(rec)) && ChildName(Ordered(rec), k) == a && Clean(Child(Ordered(rec), k))
    ensures Lookup(Cleansed(r, rec, ""), a).value == Cleansed(r, Child(Ordered(rec), k), ChildField(rec, "", k))
  {
    Normalization.SelectedAfter(r, rec, "", a);
    k := OrderedSelected(rec, a);
    LookupMember(r, rec, k);
  }

  lemma ObjectUncut(r: Rules, v: Json, field: string)
    requires Cleansed(r, v, field).Obj?
    ensures v.Obj? && !r.Cuts(field)
  {
  }

  lemma ScalarBefore(r: Rules, v: Json, field: string)
    requires Cleansed(r, v, field).Scalar() && !Cleansed(r, v, field).Null?
    ensures v.Scalar()
  {
  }

  /** A value below a nested object of the processed record was counted under its path. */
  lemma NestedObserved(r: Rules, rec: Json, a: string, b: string, v: Json)
    requires Clean(rec) && rec.Obj? && !r.Cuts("") && CleanName(a) && CleanName(b)
    requires v.Scalar() && !v.Null?
    requires Lookup(Cleansed(r, rec, ""), a + "/" + b) == Some(v)
    requires Lookup(Cleansed(r, rec, ""), a).Some? && Lookup(Cleansed(r, rec, ""), a).value.Obj?
    ensures Observation(a + "/" + b, v) in Observed(r, rec, "", 0, true)
  {
    var k := MemberBehind(r, rec, a);
    var mid, field := Child(Ordered(rec), k), ChildField(rec, "", k);
    ObjectUncut(r, mid, field);
    LookupNested(r, rec, k, b);
    var j := OrderedSelected(mid, b);
    ScalarBefore(r, Child(Ordered(mid), j), field + "/" + b);
    GrandchildObserved(r, rec, k, j);
    GrandchildCounted(r, rec, k, j, Observation(a + "/" + b, v));
  }

  /** How a counted field is reached: a member of the record, or a member of an object member. */
  ghost predicate Reached(doc: Json, o: Observation)
    requires doc.Obj?
  {
    && o.value.Scalar() && Lookup(doc, o.field) == Some(o.value)
    && (CleanName(o.field) ||
        exists a, b :: CleanName(a) && CleanName(b) && o.field == a + "/" + b &&
          Lookup(doc, a).Some? && Lookup(doc, a).value.Obj?)
  }

  lemma TopReached(r: Rules, rec: Json, k: nat, o: Observation)
    requires Clean(rec) && rec.Obj? && !r.Cuts("")
    requires k < ChildCount(Ordered(rec)) && Child(Ordered(rec), k).Scalar()
    requires o in ChildObserved(r, rec, "", 0, k)
    ensures Reached(Cleansed(r, rec, ""), o)
  {
    ClosestField(ChildName(Ordered(rec), k));
    LookupMember(r, rec, k);
  }

  lemma NestedIsReached(doc: Json, a: string, b: string, o: Observation)
    requires doc.Obj? && CleanName(a) && CleanName(b) && o.field == a + "/" + b && o.value.Scalar()
    requires Lookup(doc, o.field) == Some(o.value)
    requires Lookup(doc, a).Some? && Lookup(doc, a).value.Obj?
    ensures Reached(doc, o)
  {
  }

  lemma GrandchildLookup(r: Rules, rec: Json, k: nat, j: nat)
    requires Clean(rec) && rec.Obj? && !r.Cuts("") && k < ChildCount(Ordered(rec))
    requires Child(Ordered(rec), k).Obj? && !r.Cuts(ChildField(rec, "", k))
    requires j < ChildCount(Ordered(Child(Ordered(rec), k)))
    ensures
      var mid, field := Child(Ordered(rec), k), ChildField(rec, "", k);
      var b := ChildName(Ordered(mid), j);
      && CleanName(b)
      && Lookup(Cleansed(r, rec, ""), ChildName(Ordered(rec), k) + "/" + b) ==
          Some(Cleansed(r, Child(Ordered(mid), j), field + "/" + b))
  {
    var mid := Child(Ordered(rec), k);
    LookupMember(r, rec, k);
    OrderedClean(mid);
    SelectedOrdered(mid, j);
    LookupNested(r, rec, k, ChildName(Ordered(mid), j));
  }

  lemma GrandchildIs(r: Rules, rec: Json, k: nat, j: nat, o: Observation)
    requires rec.Obj? && k < ChildCount(Ordered(rec)) && Child(Ordered(rec), k).Obj?
    requires j < ChildCount(Ordered(Child(Ordered(rec), k)))
    requires o in ChildObserved(r, Child(Ordered(rec), k), ChildField(rec, "", k), 1, j)
    ensures
      var mid, field := Child(Ordered(rec), k), ChildField(rec, "", k);
      var leaf, b := Child(Ordered(mid), j), ChildName(Ordered(mid), j);
      leaf.Scalar() && o == Observation(ChildName(Ordered(rec), k) + "/" + b, Cleansed(r, leaf, field + "/" + b))
  {
    GrandchildObserved(r, rec, k, j);
  }

  /** The object a grandchild is in. */
  lemma ParentLookup(r: Rules, rec: Json, k: nat)
    requires Clean(rec) && rec.Obj? && !r.Cuts("") && k < ChildCount(Ordered(rec))
    requires Child(Ordered(rec), k).Obj? && !r.Cuts(ChildField(rec, "", k))
    ensures
      var parent := Lookup(Cleansed(r, rec, ""), ChildName(Ordered(rec), k));
      CleanName(ChildName(Ordered(rec), k)) && parent.Some? && parent.value.Obj?
  {
    LookupMember(r, rec, k);
  }

  lemma ScalarAfter(r: Rules, v: Json, field: string)
    requires v.Scalar()
    ensures Cleansed(r, v, field).Scalar()
  {
  }

  lemma LeafLookup(r: Rules, rec: Json, k: nat, j: nat)
    requires Clean(rec) && rec.Obj? && !r.Cuts("") && k < ChildCount(Ordered(rec))
    requires Child(Ordered(rec), k).Obj? && !r.Cuts(ChildField(rec, "", k))
    requires j < ChildCount(Ordered(Child(Ordered(rec), k))) && Child(Ordered(Child(Ordered(rec), k)), j).Scalar()
    ensures
      var mid, field := Child(Ordered(rec), k), ChildField(rec, "", k);
      var b := ChildName(Ordered(mid), j);
      var value := Cleansed(r, Child(Ordered(mid), j), field + "/" + b);
      && CleanName(b) && value.Scalar()
      && Lookup(Cleansed(r, rec, ""), ChildName(Ordered(rec), k) + "/" + b) == Some(value)
  {
    GrandchildLookup(r, rec, k, j);
    var mid := Child(Ordered(rec), k);
    ScalarAfter(r, Child(Ordered(mid), j), ChildField(rec, "", k) + "/" + ChildName(Ordered(mid), j));
  }

  lemma NestedReached(r: Rules, rec: Json, k: nat, j: nat, o: Observation)
    requires Clean(rec) && rec.Obj? && !r.Cuts("") && k < ChildCount(Ordered(rec))
    requires Child(Ordered(rec), k).Obj? && !r.Cuts(ChildField(rec, "", k))
    requires j < ChildCount(Ordered(Child(Ordered(rec), k)))
    requires o in ChildObserved(r, Child(Ordered(rec), k), ChildField(rec, "", k), 1, j)
    ensures Reached(Cleansed(r, rec, ""), o)
  {
    ParentLookup(r, rec, k);
    GrandchildIs(r, rec, k, j, o);
    LeafLookup(r, rec, k, j);
    NestedIsReached(Cleansed(r, rec, ""), ChildName(Ordered(rec), k), ChildName(Ordered(Child(Ordered(rec), k)), j), o);
  }

  /** Everything counted in a record is looked up from it by the field it was counted under. */
  lemma ObservedIsReached(r: Rules, rec: Json, o: Observation)
    requires Clean(rec) && rec.Obj? && !r.Cuts("")
    requires o in Observed(r, rec, "", 0, true)
    ensures Reached(Cleansed(r, rec, ""), o)
  {
    var k := ObservedInChild(r, rec, "", 0, ChildCount(Ordered(rec)), o);
    var mid, field := Child(Ordered(rec), k), ChildField(rec, "", k);
    if mid.Scalar() {
      TopReached(r, rec, k, o);
    } else {
      assert !r.Cuts(field);
      if mid.Arr? {
        NothingCountedInChildren(r, mid, field, 1, ChildCount(Ordered(mid)));
      }
      assert mid.Obj?;
      var j := ObservedInChild(r, mid, field, 1, ChildCount(Ordered(mid)), o);
      NestedReached(r, rec, k, j, o);
    }
  }

  // ---- Columns and records --------------------------------------------------------------------

  function AllObserved(r: Rules, recs: seq<Json>): seq<Observation> {
    if recs == [] then [] else Observed(r, recs[0], "", 0, true) + AllObserved(r, recs[1..])
  }

  lemma InConcat(a: seq<Observation>, b: seq<Observation>, o: Observation)
    ensures o in a + b <==> o in a || o in b
  {
  }

  lemma {:induction false} AllObservedHas(r: Rules, recs: seq<Json>, n: nat, o: Observation)
    requires n < |recs| && o in Observed(r, recs[n], "", 0, true)
    ensures o in AllObserved(r, recs)
  {
    if n > 0 {
      AllObservedHas(r, recs[1..], n - 1, o);
    }
    InConcat(Observed(r, recs[0], "", 0, true), AllObserved(r, recs[1..]), o);
  }

  lemma {:induction false} AllObservedFrom(r: Rules, recs: seq<Json>, o: Observation) returns (n: nat)
    requires o in AllObserved(r, recs)
    ensures n < |recs| && o in Observed(r, recs[n], "", 0, true)
  {
    if o in Observed(r, recs[0], "", 0, true) {
      n := 0;
    } else {
      n := AllObservedFrom(r, recs[1..], o);
      n := n + 1;
    }
  }

  lemma {:induction false} ValueObserved(obs: seq<Observation>, field: string, i: nat) returns (o: Observation)
    requires i < |ValuesOf(obs, field)|
    ensures o in obs && o == Observation(field, ValuesOf(obs, field)[i])
  {
    if obs[0].field == field {
      if i == 0 {
        o := obs[0];
      } else {
        o := ValueObserved(obs[1..], field, i - 1);
      }
    } else {
      o := ValueObserved(obs[1..], field, i);
    }
  }

  ghost predicate LoadableRecords(r: Rules, recs: seq<Json>) {
    !r.Cuts("") && forall n :: 0 <= n < |recs| ==> Clean(recs[n]) && recs[n].Obj?
  }

  /** The value pass 2 looks up for a field of record n. */
  ghost function Found(r: Rules, recs: seq<Json>, n: nat, field: string): Option<Json>
    requires LoadableRecords(r, recs) && n < |recs|
  {
    Lookup(Cleansed(r, recs[n], ""), field)
  }

  /** The field is a scalar wherever it is found, and is not found by indexing an array. */
  ghost predicate PlainField(r: Rules, recs: seq<Json>, field: string)
    requires LoadableRecords(r, recs)
  {
    forall n :: 0 <= n < |recs| && Found(r, recs, n, field).Some? ==>
      Found(r, recs, n, field).value.Scalar() &&
      forall a, b :: CleanName(a) && CleanName(b) && field == a + "/" + b && Found(r, recs, n, a).Some? ==>
        !Found(r, recs, n, a).value.Arr?
  }

  /** Some record has a number in the field, another a boolean, and none has a string. */
  ghost predicate MixesNumbersAndBooleans(r: Rules, recs: seq<Json>, field: string)
    requires LoadableRecords(r, recs)
  {
    && (exists n :: 0 <= n < |recs| && Found(r, recs, n, field).Some? && Found(r, recs, n, field).value.Number())
    && (exists n :: 0 <= n < |recs| && Found(r, recs, n, field).Some? && Found(r, recs, n, field).value.Bool?)
    && (forall n :: 0 <= n < |recs| && Found(r, recs, n, field).Some? ==> !Found(r, recs, n, field).value.Str?)
  }

  /** A counted field is a clean name or two of them joined by a slash. */
  lemma CountedFieldShape(r: Rules, recs: seq<Json>, field: string)
    requires LoadableRecords(r, recs) && ValuesOf(AllObserved(r, recs), field) != []
    ensures CleanName(field) || exists a, b :: CleanName(a) && CleanName(b) && field == a + "/" + b
  {
    var o := ValueObserved(AllObserved(r, recs), field, 0);
    var m := AllObservedFrom(r, recs, o);
    ObservedIsReached(r, recs[m], o);
  }

  lemma NestedIsCounted(r: Rules, recs: seq<Json>, a: string, b: string, n: nat)
    requires LoadableRecords(r, recs) && PlainField(r, recs, a + "/" + b) && n < |recs|
    requires CleanName(a) && CleanName(b)
    requires Found(r, recs, n, a + "/" + b).Some? && !Found(r, recs, n, a + "/" + b).value.Null?
    ensures Observation(a + "/" + b, Found(r, recs, n, a + "/" + b).value) in Observed(r, recs[n], "", 0, true)
  {
    var doc := Cleansed(r, recs[n], "");
    NestedLookup(doc, a, b);
    GetTwo(doc, a, b);
    assert Found(r, recs, n, a) == Lookup(doc, a);
    assert GetPointer(doc, [a]).Some? by {
      Normalization.GetStep(doc, [a]);
    }
    NestedObserved(r, recs[n], a, b, Found(r, recs, n, a + "/" + b).value);
  }

  /** A non-null value that pass 2 finds in a plain field was counted by pass 1. */
  lemma FoundIsCounted(r: Rules, recs: seq<Json>, field: string, n: nat)
    requires LoadableRecords(r, recs) && PlainField(r, recs, field) && n < |recs|
    requires ValuesOf(AllObserved(r, recs), field) != []
    requires Found(r, recs, n, field).Some? && !Found(r, recs, n, field).value.Null?
    ensures Found(r, recs, n, field).value in ValuesOf(AllObserved(r, recs), field)
  {
    var o := Observation(field, Found(r, recs, n, field).value);
    CountedFieldShape(r, recs, field);
    if CleanName(field) {
      MemberObserved(r, recs[n], field, o.value);
    } else {
      var a, b :| CleanName(a) && CleanName(b) && field == a + "/" + b;
      NestedIsCounted(r, recs, a, b, n);
    }
    AllObservedHas(r, recs, n, o);
    var obs := AllObserved(r, recs);
    var i :| 0 <= i < |obs| && obs[i] == o;
    ValuesOfContains(obs, i);
  }

  /** And every value counted by pass 1 is found by pass 2. */
  lemma CountedIsFound(r: Rules, recs: seq<Json>, field: string, i: nat) returns (n: nat)
    requires LoadableRecords(r, recs) && i < |ValuesOf(AllObserved(r, recs), field)|
    ensures n < |recs| && Found(r, recs, n, field) == Some(ValuesOf(AllObserved(r, recs), field)[i])
    ensures ValuesOf(AllObserved(r, recs), field)[i].Scalar()
  {
    var o := ValueObserved(AllObserved(r, recs), field, i);
    n := AllObservedFrom(r, recs, o);
    ObservedIsReached(r, recs[n], o);
  }

  /** The values counted for a field are the non-null values found under it. */
  lemma CountedAreFound(r: Rules, recs: seq<Json>, field: string)
    requires LoadableRecords(r, recs) && PlainField(r, recs, field)
    requires ValuesOf(AllObserved(r, recs), field) != []
    ensures
      var vals := ValuesOf(AllObserved(r, recs), field);
      && (forall k :: 0 <= k < |vals| ==>
          vals[k].Scalar() && exists n :: 0 <= n < |recs| && Found(r, recs, n, field) == Some(vals[k]))
      && (forall n :: 0 <= n < |recs| && Found(r, recs, n, field).Some? && !Found(r, recs, n, field).value.Null? ==>
          Found(r, recs, n, field).value in vals)
  {
    var vals := ValuesOf(AllObserved(r, recs), field);
    forall k | 0 <= k < |vals|
      ensures vals[k].Scalar() && exists n :: 0 <= n < |recs| && Found(r, recs, n, field) == Some(vals[k])
    {
      var n := CountedIsFound(r, recs, field, k);
    }
    forall n | 0 <= n < |recs| && Found(r, recs, n, field).Some? && !Found(r, recs, n, field).value.Null?
      ensures Found(r, recs, n, field).value in vals
    {
      FoundIsCounted(r, recs, field, n);
    }
  }

  /** The values of the field, as pass 2 finds them, are of the one kind its type needs. */
  ghost predicate FoundOfOneKind(r: Rules, recs: seq<Json>, field: string, t: ColumnType)
    requires LoadableRecords(r, recs)
  {
    if t in {Id, TimestampTz} then
      forall n :: 0 <= n < |recs| && Found(r, recs, n, field).Some? ==>
        Found(r, recs, n, field).value.Str? || Found(r, recs, n, field).value.Null?
    else !MixesNumbersAndBooleans(r, recs, field)
  }

  lemma KindIsCounted(r: Rules, recs: seq<Json>, field: string, t: ColumnType)
    requires LoadableRecords(r, recs) && PlainField(r, recs, field)
    requires ValuesOf(AllObserved(r, recs), field) != []
    ensures FoundOfOneKind(r, recs, field, t) <==> OfOneKind(t, ValuesOf(AllObserved(r, recs), field))
  {
    CountedAreFound(r, recs, field);
    MixIsCounted(r, recs, field);
  }

  lemma MixIsCounted(r: Rules, recs: seq<Json>, field: string)
    requires LoadableRecords(r, recs) && PlainField(r, recs, field)
    requires ValuesOf(AllObserved(r, recs), field) != []
    ensures
      var vals := ValuesOf(AllObserved(r, recs), field);
      MixesNumbersAndBooleans(r, recs, field) <==> HasNumber(vals) && HasBool(vals) && !HasStr(vals)
  {
    CountedAreFound(r, recs, field);
  }

  lemma SuitsCounted(r: Rules, recs: seq<Json>, field: string, t: ColumnType)
    requires LoadableRecords(r, recs) && PlainField(r, recs, field)
    requires ValuesOf(AllObserved(r, recs), field) != []
    ensures
      var vals := ValuesOf(AllObserved(r, recs), field);
      (forall k :: 0 <= k < |vals| ==> vals[k].Scalar()) &&
      ((forall n :: 0 <= n < |recs| && Found(r, recs, n, field).Some? ==> Suits(t, Found(r, recs, n, field).value)) <==>
       (forall k :: 0 <= k < |vals| ==> Suits(t, vals[k])))
  {
    CountedAreFound(r, recs, field);
  }

  lemma LengthsCounted(r: Rules, recs: seq<Json>, field: string, length: nat)
    requires LoadableRecords(r, recs) && PlainField(r, recs, field)
    requires ValuesOf(AllObserved(r, recs), field) != []
    requires
      var vals := ValuesOf(AllObserved(r, recs), field);
      forall k :: 0 <= k < |vals| && vals[k].Str? ==> |vals[k].s| <= length
    ensures forall n, s :: 0 <= n < |recs| && Found(r, recs, n, field) == Some(Str(s)) ==> |s| <= length
  {
    CountedAreFound(r, recs, field);
  }

  /** The columns chosen by pass 1 suit every value of a plain field that pass 2 writes if and only if the values are
      of one kind; strings always fit the column length. */
  lemma ColumnsSuitRecords(r: Rules, recs: seq<Json>, st: SourceType, columns: seq<Column>, i: nat)
    requires LoadableRecords(r, recs)
    requires IsColumns(columns, Tally(map[], AllObserved(r, recs)), st) && i < |columns|
    requires PlainField(r, recs, columns[i].source)
    ensures
      (forall n :: 0 <= n < |recs| && Found(r, recs, n, columns[i].source).Some? ==>
        Suits(columns[i].ctype, Found(r, recs, n, columns[i].source).value))
      <==> FoundOfOneKind(r, recs, columns[i].source, columns[i].ctype)
    ensures forall n, s ::
      0 <= n < |recs| && Found(r, recs, n, columns[i].source) == Some(Str(s)) ==> |s| <= columns[i].length
  {
    var field, obs := columns[i].source, AllObserved(r, recs);
    var vals := ValuesOf(obs, field);
    TallyAt(map[], obs, field);
    SuitsCounted(r, recs, field, columns[i].ctype);
    SelectedTypeSuits(vals);
    LengthsCounted(r, recs, field, columns[i].length);
    KindIsCounted(r, recs, field, columns[i].ctype);
  }

  // ---- The order of the records does not matter ------------------------------------------------

  lemma {:induction false} AllObservedAppend(r: Rules, a: seq<Json>, b: seq<Json>)
    ensures AllObserved(r, a + b) == AllObserved(r, a) + AllObserved(r, b)
  {
    if a == [] {
      assert a + b == b;
    } else {
      assert (a + b)[0] == a[0] && (a + b)[1..] == a[1..] + b;
      AllObservedAppend(r, a[1..], b);
    }
  }

  lemma ObservedFirst(r: Rules, rec: Json, recs: seq<Json>)
    ensures AllObserved(r, [rec] + recs) == Observed(r, rec, "", 0, true) + AllObserved(r, recs)
  {
    assert ([rec] + recs)[1..] == recs;
  }

  function ObservedBag(r: Rules, recs: seq<Json>): multiset<Observation> {
    multiset(AllObserved(r, recs))
  }

  lemma ObservedAround(r: Rules, before: seq<Json>, rec: Json, after: seq<Json>)
    ensures ObservedBag(r, before + [rec] + after) == ObservedBag(r, [rec] + (before + after))
  {
    var here, front, back := Observed(r, rec, "", 0, true), AllObserved(r, before), AllObserved(r, after);
    assert before + [rec] + after == before + ([rec] + after);
    AllObservedAppend(r, before, [rec] + after);
    AllObservedAppend(r, before, after);
    ObservedFirst(r, rec, after);
    ObservedFirst(r, rec, before + after);
    BagsCommute(here, front, back);
  }

  lemma BagsCommute(here: seq<Observation>, front: seq<Observation>, back: seq<Observation>)
    ensures multiset(front + (here + back)) == multiset(here + (front + back))
  {
    assert multiset(front + (here + back)) == multiset(front) + multiset(here) + multiset(back);
    assert multiset(here + (front + back)) == multiset(front) + multiset(here) + multiset(back);
  }

  lemma BagFirst(r: Rules, rec: Json, recs: seq<Json>)
    ensures ObservedBag(r, [rec] + recs) == multiset(Observed(r, rec, "", 0, true)) + ObservedBag(r, recs)
  {
    ObservedFirst(r, rec, recs);
  }

  lemma {:induction false} SameRecordsObserved(r: Rules, a: seq<Json>, b: seq<Json>)
    requires multiset(a) == multiset(b)
    ensures ObservedBag(r, a) == ObservedBag(r, b)
    decreases |a|
  {
    if a == [] {
      assert |multiset(b)| == 0;
    } else {
      var rec, rest := a[0], a[1..];
      assert a == [rec] + rest;
      var before, after := TakeOut(rec, b);
      SameRecordsObserved(r, rest, before + after);
      ObservedAround(r, before, rec, after);
      BagFirst(r, rec, rest);
      BagFirst(r, rec, before + after);
    }
  }

  lemma HasFirst(a: seq<Column>)
    ensures a == [] || exists c :: c in a
  {
    assert a != [] ==> a[0] in a;
  }

  lemma {:induction false} ColumnsUnique(a: seq<Column>, b: seq<Column>)
    requires InSourceOrder(a) && InSourceOrder(b) && forall c :: c in a <==> c in b
    ensures a == b
    decreases |a|
  {
    if a == [] {
      HasFirst(b);
    } else {
      assert a[0] in b && b != [];
      assert b[0] in a;
      FirstIsFirst(a, b);
      var c := a[0];
      assert a == [c] + a[1..] && b == [c] + b[1..];
      LaterDiffer(a);
      LaterDiffer(b);
      forall d
        ensures d in a[1..] <==> d in b[1..]
      {
        assert d in a <==> d == c || d in a[1..];
        assert d in b <==> d == c || d in b[1..];
      }
      ColumnsUnique(a[1..], b[1..]);
    }
  }

  lemma LaterDiffer(a: seq<Column>)
    requires InSourceOrder(a) && a != []
    ensures a[0] !in a[1..]
  {
    LessTotal(a[0].source, a[0].source);
  }

  lemma FirstIsFirst(a: seq<Column>, b: seq<Column>)
    requires InSourceOrder(a) && InSourceOrder(b) && a != [] && b != [] && a[0] in b && b[0] in a
    ensures a[0] == b[0]
  {
    LessTotal(a[0].source, b[0].source);
  }

  /** The same records in any order, and on any pages, give the same columns. */
  lemma ColumnsIgnoreOrder(r: Rules, recs: seq<Json>, others: seq<Json>, st: SourceType, a: seq<Column>, b: seq<Column>)
    requires multiset(recs) == multiset(others)
    requires IsColumns(a, Tally(map[], AllObserved(r, recs)), st) && IsColumns(b, Tally(map[], AllObserved(r, others)), st)
    ensures Tally(map[], AllObserved(r, recs)) == Tally(map[], AllObserved(r, others)) && a == b
  {
    SameRecordsObserved(r, recs, others);
    TallyOrderIndependent(map[], AllObserved(r, recs), AllObserved(r, others));
    ColumnsUnique(a, b);
  }

  // ---- What the columns are --------------------------------------------------------------------

  /** The fields that get a column, whatever their values. */
  predicate HasColumn(st: SourceType, field: string) {
    (st == SrsMarcRecords ==> field == "id") && (st == SrsErrorRecords ==> field == "id" || field == "description")
  }

  /** A column exists for every field observed, but for those that SRS records skip. Its name is the field's, decoded
      from camel case up to a NUL; its type is chosen by the kinds of the field's values; its length is that of the
      longest string, and at least 1. */
  lemma ColumnsMean(obs: seq<Observation>, st: SourceType, columns: seq<Column>, field: string)
    requires IsColumns(columns, Tally(map[], obs), st)
    ensures (exists i :: 0 <= i < |columns| && columns[i].source == field) <==>
      ValuesOf(obs, field) != [] && HasColumn(st, field)
    ensures forall i :: 0 <= i < |columns| && columns[i].source == field ==>
      && columns[i].name == CamelCase.Decoded(CStr(field))
      && columns[i].ctype == TypeByKinds(ValuesOf(obs, field))
      && columns[i].length == Longest(ValuesOf(obs, field), 1)
  {
    TallyAt(map[], obs, field);
    SelectedByKinds(ValuesOf(obs, field));
    LongestFrom(ValuesOf(obs, field), 0, 1);
  }

  lemma {:induction false} LongestFrom(vals: seq<Json>, m: nat, n: nat)
    requires m <= n
    ensures Longest(vals, n) == if Longest(vals, m) > n then Longest(vals, m) else n
    decreases |vals|
  {
    if vals != [] {
      var v := vals[0];
      var m1, n1 := if v.Str? && |v.s| > m then |v.s| else m, if v.Str? && |v.s| > n then |v.s| else n;
      LongestFrom(vals[1..], m1, n1);
      LongestFrom(vals[1..], m, n);
      LongestFrom(vals[1..], m, n1);
    }
  }
}
