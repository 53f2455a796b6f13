/** process_json_record of src/stage.cpp: one traversal that blanks listed fields through pointers from the
    document root, sorts members and collects statistics, all in place. */
module Records {
  import opened CStrings
  import opened Decimal
  import opened JsonTree
  import opened JsonPointer
  import opened TypeStats

  // ---- Which fields are blanked ---------------------------------------------------------------

  /** The table being loaded and the (table, field) pairs to drop. */
  datatype Rules = Rules(table: string, dropFields: set<(string, string)>) {
    predicate Drops(field: string) {
      (table, field) in dropFields
    }

    /** Arrays and objects that go as a whole. */
    predicate Cuts(field: string) {
      Drops(field) || DataToFilter(table, field)
    }
  }

  predicate EndsWith(s: string, suffix: string) {
    |s| >= |suffix| && s[|s| - |suffix|..] == suffix
  }

  const CourseTables := {
    "course_copyrightstatuses", "course_courselistings", "course_courses", "course_coursetypes",
    "course_departments", "course_processingstatuses", "course_reserves", "course_roles", "course_terms" }

  predicate DataToFilter(table: string, field: string) {
    && table in CourseTables
    && (EndsWith(field, "Object") || EndsWith(field, "Objects"))
    && !(table == "course_courselistings" && "/instructorObjects" <= field)
  }

  // ---- Member order ---------------------------------------------------------------------------

  /** The comparator of the member sort. */
  predicate NameBefore(s1: string, s2: string) {
    s1 == "id" || (s2 != "id" && Less(s1, s2))
  }

  function Inserted(m: Member, ms: seq<Member>): (r: seq<Member>)
    ensures multiset(r) == multiset(ms) + multiset{m}
  {
    if ms == [] || NameBefore(m.name, ms[0].name) then [m] + ms
    else
      assert ms == [ms[0]] + ms[1..];
      [ms[0]] + Inserted(m, ms[1..])
  }

  function Sorted(ms: seq<Member>): (r: seq<Member>)
    ensures multiset(r) == multiset(ms)
  {
    if ms == [] then []
    else
      assert ms == [ms[0]] + ms[1..];
      Inserted(ms[0], Sorted(ms[1..]))
  }

  lemma SortedMembers(ms: seq<Member>)
    ensures |Sorted(ms)| == |ms|
    ensures forall m :: m in Sorted(ms) <==> m in ms
  {
    assert |multiset(Sorted(ms))| == |multiset(ms)|;
    assert forall m :: m in Sorted(ms) <==> m in multiset(Sorted(ms));
  }

  predicate Precedes(s1: string, s2: string) {
    s1 != s2 && NameBefore(s1, s2)
  }

  lemma PrecedesOrder(a: string, b: string, c: string)
    ensures a != b ==> Precedes(a, b) || Precedes(b, a)
    ensures !(Precedes(a, b) && Precedes(b, a))
    ensures Precedes(a, b) && Precedes(b, c) ==> Precedes(a, c)
  {
    LessTotal(a, b);
    LessTotal(a, c);
    if Less(a, b) && Less(b, c) {
      LessTransitive(a, b, c);
    }
  }

  /** `id` first, the other names strictly increasing. */
  predicate InNameOrder(ms: seq<Member>) {
    forall i, j :: 0 <= i < j < |ms| ==> Precedes(ms[i].name, ms[j].name)
  }

  /** `id` is first; of any two others the left name is the smaller where they first differ. */
  ghost predicate IdThenByName(ms: seq<Member>) {
    && (forall k :: 0 <= k < |ms| && ms[k].name == "id" ==> k == 0)
    && (forall i, j :: 0 <= i < j < |ms| && ms[i].name != "id" ==> Smaller(ms[i].name, ms[j].name))
  }

  lemma PrecedesMeans(a: string, b: string)
    ensures Precedes(a, b) <==> b != "id" && (a == "id" || Smaller(a, b))
  {
    LessAtFirstDifference(a, b);
    LessTotal(a, b);
  }

  lemma InNameOrderMeans(ms: seq<Member>)
    ensures InNameOrder(ms) <==> IdThenByName(ms)
  {
    forall i, j | 0 <= i < j < |ms|
      ensures Precedes(ms[i].name, ms[j].name) <==>
        ms[j].name != "id" && (ms[i].name == "id" || Smaller(ms[i].name, ms[j].name))
    {
      PrecedesMeans(ms[i].name, ms[j].name);
    }
    if InNameOrder(ms) {
      forall k | 0 < k < |ms|
        ensures ms[k].name != "id"
      {
        assert Precedes(ms[0].name, ms[k].name);
      }
    }
  }

  lemma SameNamesOrder(a: seq<Member>, b: seq<Member>)
    requires |a| == |b| && forall k :: 0 <= k < |a| ==> a[k].name == b[k].name
    ensures IdThenByName(a) == IdThenByName(b)
  {
  }

  lemma {:induction false} InsertedInOrder(m: Member, ms: seq<Member>)
    requires InNameOrder(ms)
    requires forall i :: 0 <= i < |ms| ==> ms[i].name != m.name
    ensures InNameOrder(Inserted(m, ms))
    ensures forall x :: x in Inserted(m, ms) ==> x == m || x in ms
  {
    if ms != [] {
      PrecedesOrder(m.name, ms[0].name, m.name);
      if NameBefore(m.name, ms[0].name) {
        forall j | 0 <= j < |ms|
          ensures Precedes(m.name, ms[j].name)
        {
          PrecedesOrder(m.name, ms[0].name, ms[j].name);
        }
      } else {
        InsertedInOrder(m, ms[1..]);
        var rest := Inserted(m, ms[1..]);
        forall j | 0 <= j < |rest|
          ensures Precedes(ms[0].name, rest[j].name)
        {
          assert rest[j] in rest;
        }
      }
    }
  }

  lemma {:induction false} SortedInOrder(ms: seq<Member>)
    requires UniqueNames(ms)
    ensures InNameOrder(Sorted(ms)) && UniqueNames(Sorted(ms))
  {
    if ms != [] {
      SortedInOrder(ms[1..]);
      var rest := Sorted(ms[1..]);
      SortedMembers(ms[1..]);
      forall i | 0 <= i < |rest|
        ensures rest[i].name != ms[0].name
      {
        assert rest[i] in ms[1..];
      }
      InsertedInOrder(ms[0], rest);
    }
  }

  /** Sorting puts `id` first and the other names in strict order. */
  lemma SortedByName(ms: seq<Member>)
    requires UniqueNames(ms)
    ensures IdThenByName(Sorted(ms)) && multiset(Sorted(ms)) == multiset(ms)
  {
    SortedInOrder(ms);
    InNameOrderMeans(Sorted(ms));
  }

  /** A node as the traversal leaves it before visiting its children. */
  function Ordered(v: Json): Json {
    if v.Obj? then Obj(Sorted(v.members)) else v
  }

  lemma OrderedChild(v: Json, k: nat)
    requires k < ChildCount(Ordered(v))
    ensures Child(Ordered(v), k) < v
  {
    if v.Obj? {
      SortedMembers(v.members);
      assert Sorted(v.members)[k] in v.members;
    }
  }

  // ---- The pure meaning -----------------------------------------------------------------------

  function ChildValues(v: Json): (r: seq<Json>)
    ensures |r| == ChildCount(v)
    ensures forall k :: 0 <= k < |r| ==> r[k] == Child(v, k)
  {
    seq(ChildCount(v), k requires 0 <= k < ChildCount(v) => Child(v, k))
  }

  /** The container v with its children replaced. */
  function Rebuilt(v: Json, vals: seq<Json>): (r: Json)
    requires |vals| == ChildCount(v)
    ensures ChildCount(r) == ChildCount(v)
    ensures forall k :: 0 <= k < |vals| ==> Child(r, k) == vals[k] && ChildName(r, k) == ChildName(v, k)
  {
    match v
    case Arr(_) => Arr(vals)
    case Obj(ms) => Obj(seq(|ms|, k requires 0 <= k < |ms| => Member(ms[k].name, vals[k])))
    case _ => v
  }

  /** The record after the traversal: listed scalars blanked by kind, cut containers null, members sorted. */
  function Cleansed(r: Rules, v: Json, field: string): Json
    decreases v, 1
  {
    match v
    case Null => Null
    case Bool(_) => if r.Drops(field) then Bool(false) else v
    case Int(_) => if r.Drops(field) then Int(0) else v
    case Dec(_) => if r.Drops(field) then Int(0) else v
    case Str(_) => if r.Drops(field) then Str("") else v
    case _ => if r.Cuts(field) then Null else Rebuilt(Ordered(v), CleansedChildren(r, v, field))
  }

  function CleansedChildren(r: Rules, v: Json, field: string): (vals: seq<Json>)
    ensures |vals| == ChildCount(Ordered(v))
    decreases v, 0
  {
    var u := Ordered(v);
    seq(ChildCount(u), k requires 0 <= k < ChildCount(u) =>
      OrderedChild(v, k); Cleansed(r, Child(u, k), field + "/" + ChildName(u, k)))
  }

  predicate Counts(depth: nat, obj: bool) {
    depth == 1 || (depth == 2 && obj)
  }

  /** What pass 1 counts while traversing v: scalars as they are after blanking. */
  function Observed(r: Rules, v: Json, field: string, depth: nat, obj: bool): seq<Observation>
    requires depth > 0 ==> field != ""
    decreases v, 1, 0
  {
    if v.Scalar() then
      if Counts(depth, obj) then [Observation(field[1..], Cleansed(r, v, field))] else []
    else if r.Cuts(field) then []
    else ObservedBelow(r, v, field, depth, ChildCount(Ordered(v)))
  }

  /** The same for the first n children. */
  function ObservedBelow(r: Rules, v: Json, field: string, depth: nat, n: nat): seq<Observation>
    requires n <= ChildCount(Ordered(v))
    decreases v, 0, n
  {
    if n == 0 then []
    else
      OrderedChild(v, n - 1);
      ObservedBelow(r, v, field, depth, n - 1) +
      Observed(r, Child(Ordered(v), n - 1), field + "/" + ChildName(Ordered(v), n - 1), depth + 1, v.Obj?)
  }

  // ---- In place -------------------------------------------------------------------------------

  lemma OrderedClean(v: Json)
    requires Clean(v)
    ensures Clean(Ordered(v))
  {
    if v.Obj? {
      SortedMembers(v.members);
      SortedInOrder(v.members);
      forall k | 0 <= k < |Sorted(v.members)|
        ensures CleanName(Sorted(v.members)[k].name) && Clean(Sorted(v.members)[k].value)
      {
        assert Sorted(v.members)[k] in v.members;
      }
    }
  }

  lemma RebuiltClean(v: Json, vals: seq<Json>)
    requires |vals| == ChildCount(v) && Clean(v)
    requires forall k :: 0 <= k < |vals| ==> Clean(vals[k])
    ensures Clean(Rebuilt(v, vals))
  {
  }

  lemma {:induction false} CleansedClean(r: Rules, v: Json, field: string)
    requires Clean(v)
    ensures Clean(Cleansed(r, v, field))
  {
    if !v.Scalar() && !r.Cuts(field) {
      var u := Ordered(v);
      OrderedClean(v);
      forall k | 0 <= k < ChildCount(u)
        ensures Clean(CleansedChildren(r, v, field)[k])
      {
        OrderedChild(v, k);
        CleansedClean(r, Child(u, k), field + "/" + ChildName(u, k));
      }
      RebuiltClean(u, CleansedChildren(r, v, field));
    }
  }

  /** The increments, one by one. */
  method Counting(before: TypeCounts, v: Json) returns (c: TypeCounts)
    requires v.Scalar()
    ensures c == Counted(before, v)
  {
    c := before;
    match v {
      case Null =>
        c := c.(nulls := c.nulls + 1);
      case Bool(_) =>
        c := c.(booleans := c.booleans + 1);
      case Int(_) =>
        c := c.(numbers := c.numbers + 1);
        c := c.(integers := c.integers + 1);
      case Dec(_) =>
        c := c.(numbers := c.numbers + 1);
        c := c.(floating := c.floating + 1);
      case Str(s) =>
        c := c.(strings := c.strings + 1);
        if IsUuid(s) {
          c := c.(uuids := c.uuids + 1);
        }
        if LooksLikeDateTime(s) {
          c := c.(dateTimes := c.dateTimes + 1);
        }
        if |s| > c.maxLength {
          c := c.(maxLength := |s|);
        }
    }
  }

  class StatisticsMap {
    var counts: Statistics

    constructor ()
      ensures counts == map[]
    {
      counts := map[];
    }

    /** The counters that one scalar increments. Those of other fields stay; those of its field go on telling the
        kinds of what was counted. */
    method Note(field: string, v: Json)
      requires v.Scalar()
      modifies this
      ensures counts == Tally(old(counts), [Observation(field, v)])
      ensures OneMore(old(counts), counts, field, v)
    {
      var c := Counting(CountsAt(counts, field), v);
      NotedOnce(counts, field, v);
      NotedMeans(counts, field, v);
      counts := counts[field := c];
    }
  }

  /** The statistics after one visit. */
  function Seen(stats: Statistics, collectStats: bool, obs: seq<Observation>): Statistics {
    if collectStats then Tally(stats, obs) else stats
  }

  /** The node under traversal when x children are done. */
  ghost function Partial(r: Rules, v: Json, field: string, x: nat): Json
    requires x <= ChildCount(Ordered(v))
  {
    Rebuilt(Ordered(v), CleansedChildren(r, v, field)[..x] + ChildValues(Ordered(v))[x..])
  }

  lemma PartialEnds(r: Rules, v: Json, field: string)
    requires !v.Scalar()
    ensures Partial(r, v, field, 0) == Ordered(v)
    ensures Partial(r, v, field, ChildCount(Ordered(v))) == Rebuilt(Ordered(v), CleansedChildren(r, v, field))
  {
    var u := Ordered(v);
    assert CleansedChildren(r, v, field)[..0] + ChildValues(u)[0..] == ChildValues(u);
    var n := ChildCount(u);
    assert CleansedChildren(r, v, field)[..n] + ChildValues(u)[n..] == CleansedChildren(r, v, field);
    assert v.Obj? ==> Partial(r, v, field, 0).members == u.members;
  }

  lemma PartialStep(r: Rules, v: Json, field: string, x: nat)
    requires !v.Scalar() && x < ChildCount(Ordered(v))
    ensures ChildCount(Partial(r, v, field, x)) == ChildCount(Ordered(v))
    ensures Child(Partial(r, v, field, x), x) == Child(Ordered(v), x)
    ensures ChildName(Partial(r, v, field, x), x) == ChildName(Ordered(v), x)
    ensures WithChild(Partial(r, v, field, x), x, CleansedChildren(r, v, field)[x]) == Partial(r, v, field, x + 1)
  {
    var u, done := Ordered(v), CleansedChildren(r, v, field);
    var before := done[..x] + ChildValues(u)[x..];
    assert before[x := done[x]] == done[..x + 1] + ChildValues(u)[x + 1..];
    RebuiltWith(u, before, x, done[x]);
  }

  lemma RebuiltWith(u: Json, vals: seq<Json>, x: nat, w: Json)
    requires !u.Scalar() && |vals| == ChildCount(u) && x < |vals|
    ensures WithChild(Rebuilt(u, vals), x, w) == Rebuilt(u, vals[x := w])
  {
    if u.Obj? {
      assert WithChild(Rebuilt(u, vals), x, w).members == Rebuilt(u, vals[x := w]).members;
    }
  }

  lemma PartialClean(r: Rules, v: Json, field: string, x: nat)
    requires !v.Scalar() && Clean(v) && x <= ChildCount(Ordered(v))
    ensures Clean(Partial(r, v, field, x))
  {
    var u := Ordered(v);
    OrderedClean(v);
    forall k | 0 <= k < ChildCount(u)
      ensures Clean(CleansedChildren(r, v, field)[k])
    {
      CleansedClean(r, Child(u, k), field + "/" + ChildName(u, k));
    }
    RebuiltClean(u, CleansedChildren(r, v, field)[..x] + ChildValues(u)[x..]);
  }

  lemma PointerTextSnoc(names: seq<string>, name: string)
    ensures PointerText(names + [name]) == PointerText(names) + "/" + name
  {
    assert (names + [name])[..|names|] == names;
  }

  /** One activation on an array or object: its arguments and the state it started from. */
  datatype Frame = Frame(r: Rules, at: Position, collectStats: bool, field: string, depth: nat,
                         root0: Json, stats0: Statistics)
  {
    ghost predicate Valid() {
      && Clean(root0) && ValidPosition(root0, at) && field == PointerText(NamesAt(root0, at))
      && !NodeAt(root0, at).Scalar()
    }

    ghost function Node(): Json
      requires Valid()
    {
      NodeAt(root0, at)
    }

    ghost function Count(): nat
      requires Valid()
    {
      ChildCount(Ordered(Node()))
    }

    /** The tree when the first x children are done. */
    ghost function RootAfter(x: nat): Json
      requires Valid() && x <= Count()
    {
      PutAt(root0, at, Partial(r, Node(), field, x))
    }

    ghost function StatsAfter(x: nat): Statistics
      requires Valid() && x <= Count()
    {
      Seen(stats0, collectStats, ObservedBelow(r, Node(), field, depth, x))
    }
  }

  lemma FrameStart(f: Frame)
    requires f.Valid()
    ensures f.RootAfter(0) == PutAt(f.root0, f.at, Ordered(f.Node())) && f.StatsAfter(0) == f.stats0
    ensures f.Node().Arr? ==> f.RootAfter(0) == f.root0
    ensures ValidPosition(f.RootAfter(0), f.at) && NodeAt(f.RootAfter(0), f.at) == Ordered(f.Node())
  {
    PutSame(f.root0, f.at);
    PutPut(f.root0, f.at, Ordered(f.Node()), Null);
    PartialEnds(f.r, f.Node(), f.field);
  }

  lemma FrameChild(f: Frame, x: nat)
    requires f.Valid() && x < f.Count()
    ensures
      var root, at := f.RootAfter(x), f.at + [x];
      && Clean(root) && ValidPosition(root, at)
      && NodeAt(root, at) == Child(Ordered(f.Node()), x) && NodeAt(root, at) < f.Node()
      && f.field + "/" + ChildName(Ordered(f.Node()), x) == PointerText(NamesAt(root, at))
      && PutAt(root, at, Cleansed(f.r, NodeAt(root, at), f.field + "/" + ChildName(Ordered(f.Node()), x))) == f.RootAfter(x + 1)
  {
    var v, root := f.Node(), f.RootAfter(x);
    var part := Partial(f.r, v, f.field, x);
    NamesAtClean(f.root0, f.at);
    PartialClean(f.r, v, f.field, x);
    PutClean(f.root0, f.at, part);
    PartialStep(f.r, v, f.field, x);
    PutPut(f.root0, f.at, part, Partial(f.r, v, f.field, x + 1));
    Below(root, f.at, x, CleansedChildren(f.r, v, f.field)[x]);
    PointerTextSnoc(NamesAt(f.root0, f.at), ChildName(Ordered(v), x));
    OrderedChild(v, x);
  }

  lemma FrameChildStats(f: Frame, x: nat)
    requires f.Valid() && x < f.Count()
    ensures
      var u, v := Ordered(f.Node()), f.Node();
      f.StatsAfter(x + 1) ==
        Seen(f.StatsAfter(x), f.collectStats, Observed(f.r, Child(u, x), f.field + "/" + ChildName(u, x), f.depth + 1, v.Obj?))
  {
    var u, v := Ordered(f.Node()), f.Node();
    TallyAppend(f.stats0, ObservedBelow(f.r, v, f.field, f.depth, x),
                Observed(f.r, Child(u, x), f.field + "/" + ChildName(u, x), f.depth + 1, v.Obj?));
  }

  lemma ContainerMeaning(r: Rules, v: Json, field: string, depth: nat, obj: bool)
    requires !v.Scalar() && !r.Cuts(field) && (depth > 0 ==> field != "")
    ensures Cleansed(r, v, field) == Partial(r, v, field, ChildCount(Ordered(v)))
    ensures Observed(r, v, field, depth, obj) == ObservedBelow(r, v, field, depth, ChildCount(Ordered(v)))
  {
    PartialEnds(r, v, field);
  }

  lemma FrameElement(f: Frame, elems: seq<Json>, x: nat)
    requires f.Valid() && Ordered(f.Node()) == Arr(elems) && x < |elems|
    ensures f.Count() == |elems| && NatText(x) == ChildName(Ordered(f.Node()), x) && !f.Node().Obj?
  {
  }

  lemma FrameMember(f: Frame, members: seq<Member>, x: nat)
    requires f.Valid() && Ordered(f.Node()) == Obj(members) && x < |members|
    ensures f.Count() == |members| && members[x].name == ChildName(Ordered(f.Node()), x) && f.Node().Obj?
  {
  }

  lemma FrameEnd(f: Frame, obj: bool)
    requires f.Valid() && !f.r.Cuts(f.field) && (f.depth > 0 ==> f.field != "")
    ensures f.RootAfter(f.Count()) == PutAt(f.root0, f.at, Cleansed(f.r, f.Node(), f.field))
    ensures f.StatsAfter(f.Count()) == Seen(f.stats0, f.collectStats, Observed(f.r, f.Node(), f.field, f.depth, obj))
  {
    ContainerMeaning(f.r, f.Node(), f.field, f.depth, obj);
  }

  class Document {
    var root: Json

    constructor (v: Json)
      ensures root == v
    {
      root := v;
    }

    method SetByPointer(field: string, w: Json)
      modifies this
      ensures root == SetByText(old(root), field, w)
    {
      root := SetByText(root, field, w);
    }

    /** Setting through the pointer text reaches the node under traversal. */
    method Blank(ghost at: Position, field: string, w: Json)
      requires Clean(root) && ValidPosition(root, at) && field == PointerText(NamesAt(root, at))
      modifies this
      ensures root == PutAt(old(root), at, w)
      ensures ValidPosition(root, at) && NodeAt(root, at) == w
    {
      PutPut(root, at, w, w);
      NamesAtClean(root, at);
      PointerTextParses(NamesAt(root, at));
      CleanUnambiguous(root);
      SetReachesNode(root, at, w);
      SetByPointer(field, w);
    }

    /** Sorts the members of the object at `at` where they are. */
    method SortMembers(at: Position)
      requires ValidPosition(root, at) && NodeAt(root, at).Obj?
      modifies this
      ensures root == PutAt(old(root), at, Ordered(NodeAt(old(root), at)))
    {
      root := PutAt(root, at, Obj(Sorted(NodeAt(root, at).members)));
    }

    /** The whole record, from its root. */
    method ProcessRecord(r: Rules, collectStats: bool, stats: StatisticsMap)
      requires Clean(root)
      modifies this, stats
      ensures root == Cleansed(r, old(root), "")
      ensures stats.counts == Seen(old(stats.counts), collectStats, Observed(r, old(root), "", 0, true))
    {
      ProcessNode(r, [], collectStats, "", 0, stats, true);
    }

    method ProcessNode(r: Rules, at: Position, collectStats: bool, field: string, depth: nat, stats: StatisticsMap, obj: bool)
      requires Clean(root) && ValidPosition(root, at) && field == PointerText(NamesAt(root, at))
      requires depth > 0 ==> field != ""
      modifies this, stats
      ensures root == PutAt(old(root), at, Cleansed(r, NodeAt(old(root), at), field))
      ensures stats.counts == Seen(old(stats.counts), collectStats, Observed(r, NodeAt(old(root), at), field, depth, obj))
      decreases NodeAt(root, at), 3
    {
      match NodeAt(root, at)
      case Arr(_) =>
        ProcessArray(r, at, collectStats, field, depth, stats, obj);
      case Obj(_) =>
        ProcessObject(r, at, collectStats, field, depth, stats, obj);
      case _ =>
        ProcessScalar(r, at, collectStats, field, depth, stats, obj);
    }

    method ProcessScalar(r: Rules, at: Position, collectStats: bool, field: string, depth: nat, stats: StatisticsMap, obj: bool)
      requires Clean(root) && ValidPosition(root, at) && field == PointerText(NamesAt(root, at))
      requires depth > 0 ==> field != ""
      requires NodeAt(root, at).Scalar()
      modifies this, stats
      ensures root == PutAt(old(root), at, Cleansed(r, NodeAt(old(root), at), field))
      ensures stats.counts == Seen(old(stats.counts), collectStats, Observed(r, NodeAt(old(root), at), field, depth, obj))
    {
      PutSame(root, at);
      ghost var node := NodeAt(root, at);
      ghost var result := Cleansed(r, node, field);
      if r.Drops(field) {
        match NodeAt(root, at)
        case Bool(_) => Blank(at, field, Bool(false));
        case Int(_) => Blank(at, field, Int(0));
        case Dec(_) => Blank(at, field, Int(0));
        case Str(_) => Blank(at, field, Str(""));
        case Null =>
      }
      assert NodeAt(root, at) == result;
      assert root == PutAt(old(root), at, result);
      if collectStats && (depth == 1 || (depth == 2 && obj)) {
        stats.Note(field[1..], NodeAt(root, at));
      }
    }

    /** One round of either loop. */
    method ProcessChild(ghost f: Frame, x: nat, r: Rules, at: Position, collectStats: bool, field: string, name: string,
                        depth: nat, stats: StatisticsMap, obj: bool)
      requires f.Valid() && x < f.Count() && root == f.RootAfter(x) && stats.counts == f.StatsAfter(x)
      requires f.r == r && f.at == at && f.collectStats == collectStats && f.field == field && f.depth == depth
      requires name == ChildName(Ordered(f.Node()), x) && obj == f.Node().Obj?
      modifies this, stats
      ensures root == f.RootAfter(x + 1) && stats.counts == f.StatsAfter(x + 1)
      decreases f.Node(), 0
    {
      FrameChild(f, x);
      FrameChildStats(f, x);
      ghost var before := root;
      ProcessNode(r, at + [x], collectStats, field + "/" + name, depth + 1, stats, obj);
      assert root == PutAt(before, at + [x], Cleansed(r, NodeAt(before, at + [x]), field + "/" + name));
    }

    method ProcessArray(r: Rules, at: Position, collectStats: bool, field: string, depth: nat, stats: StatisticsMap, obj: bool)
      requires Clean(root) && ValidPosition(root, at) && field == PointerText(NamesAt(root, at))
      requires NodeAt(root, at).Arr? && (depth > 0 ==> field != "")
      modifies this, stats
      ensures root == PutAt(old(root), at, Cleansed(r, NodeAt(old(root), at), field))
      ensures stats.counts == Seen(old(stats.counts), collectStats, Observed(r, NodeAt(old(root), at), field, depth, obj))
      decreases NodeAt(root, at), 2
    {
      if r.Drops(field) {
        Blank(at, field, Null);
        return;
      }
      if DataToFilter(r.table, field) {
        Blank(at, field, Null);
        return;
      }
      ghost var f := Frame(r, at, collectStats, field, depth, root, stats.counts);
      FrameStart(f);
      VisitElements(f, r, at, collectStats, field, depth, stats, NodeAt(root, at).elems);
      FrameEnd(f, obj);
    }

    method VisitElements(ghost f: Frame, r: Rules, at: Position, collectStats: bool, field: string, depth: nat,
                         stats: StatisticsMap, elems: seq<Json>)
      requires f.Valid() && Ordered(f.Node()) == Arr(elems)
      requires root == f.RootAfter(0) && stats.counts == f.StatsAfter(0)
      requires f.r == r && f.at == at && f.collectStats == collectStats && f.field == field && f.depth == depth
      modifies this, stats
      ensures root == f.RootAfter(f.Count()) && stats.counts == f.StatsAfter(f.Count())
      decreases f.Node(), 1
    {
      var x := 0;
      while x < |elems|
        invariant x <= |elems| && root == f.RootAfter(x) && stats.counts == f.StatsAfter(x)
      {
        FrameElement(f, elems, x);
        ProcessChild(f, x, r, at, collectStats, field, NatText(x), depth, stats, false);
        x := x + 1;
      }
    }

    method ProcessObject(r: Rules, at: Position, collectStats: bool, field: string, depth: nat, stats: StatisticsMap, obj: bool)
      requires Clean(root) && ValidPosition(root, at) && field == PointerText(NamesAt(root, at))
      requires NodeAt(root, at).Obj? && (depth > 0 ==> field != "")
      modifies this, stats
      ensures root == PutAt(old(root), at, Cleansed(r, NodeAt(old(root), at), field))
      ensures stats.counts == Seen(old(stats.counts), collectStats, Observed(r, NodeAt(old(root), at), field, depth, obj))
      decreases NodeAt(root, at), 2
    {
      if r.Drops(field) {
        Blank(at, field, Null);
        return;
      }
      if DataToFilter(r.table, field) {
        Blank(at, field, Null);
        return;
      }
      ghost var f := Frame(r, at, collectStats, field, depth, root, stats.counts);
      FrameStart(f);
      SortMembers(at);
      VisitMembers(f, r, at, collectStats, field, depth, stats, NodeAt(root, at).members);
      FrameEnd(f, obj);
    }

    method VisitMembers(ghost f: Frame, r: Rules, at: Position, collectStats: bool, field: string, depth: nat,
                         stats: StatisticsMap, members: seq<Member>)
      requires f.Valid() && Ordered(f.Node()) == Obj(members)
      requires root == f.RootAfter(0) && stats.counts == f.StatsAfter(0)
      requires f.r == r && f.at == at && f.collectStats == collectStats && f.field == field && f.depth == depth
      modifies this, stats
      ensures root == f.RootAfter(f.Count()) && stats.counts == f.StatsAfter(f.Count())
      decreases f.Node(), 1
    {
      var x := 0;
      while x < |members|
        invariant x <= |members| && root == f.RootAfter(x) && stats.counts == f.StatsAfter(x)
      {
        FrameMember(f, members, x);
        ProcessChild(f, x, r, at, collectStats, field, members[x].name, depth, stats, true);
        x := x + 1;
      }
    }
  }
}
