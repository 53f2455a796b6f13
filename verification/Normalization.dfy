/** What the traversal of a record does to its meaning: exactly the listed paths are blanked, and the result is a
    canonical form for records that differ only in member order. */
module Normalization {
  import opened Wrappers
  import opened CStrings
  import opened Decimal
  import opened JsonTree
  import opened JsonPointer
  import opened Records

  // ---- Looking up members through the sort ----------------------------------------------------

  lemma SortedLookup(ms: seq<Member>, name: string)
    requires UniqueNames(ms)
    ensures FindMember(Sorted(ms), name) < |Sorted(ms)| <==> FindMember(ms, name) < |ms|
    ensures FindMember(ms, name) < |ms| ==>
      Sorted(ms)[FindMember(Sorted(ms), name)] == ms[FindMember(ms, name)]
  {
    SortedInOrder(ms);
    SortedMembers(ms);
    var k, j := FindMember(ms, name), FindMember(Sorted(ms), name);
    if k < |ms| {
      assert ms[k] in Sorted(ms);
      var i :| 0 <= i < |Sorted(ms)| && Sorted(ms)[i] == ms[k];
      FindUnique(Sorted(ms), i);
    }
    if j < |Sorted(ms)| {
      assert Sorted(ms)[j] in ms;
      var i :| 0 <= i < |ms| && ms[i] == Sorted(ms)[j];
      FindUnique(ms, i);
    }
  }

  lemma IndexName(token: string)
    requires IndexOf(token).Some?
    ensures NatText(IndexOf(token).value) == token
  {
    if token[0] == '0' {
      OneDigitText('0');
      assert token == ['0'];
    } else {
      DigitsText(token);
    }
  }

  lemma NatTextStep(q: nat, d: nat)
    requires d < 10 && q > 0
    ensures NatText(10 * q + d) == NatText(q) + [Digit(d)]
  {
    assert (10 * q + d) / 10 == q && (10 * q + d) % 10 == d;
  }

  lemma DigitOfValue(c: char)
    requires IsDigit(c)
    ensures Digit(DigitValue(c)) == c
  {
  }

  lemma DigitsSnoc(t: string, c: char)
    requires AllDigits(t) && IsDigit(c)
    ensures AllDigits(t + [c]) && DigitsValue(t + [c]) == 10 * DigitsValue(t) + DigitValue(c)
  {
    var s := t + [c];
    assert s[..|s| - 1] == t && s[|s| - 1] == c;
  }

  lemma OneDigitText(c: char)
    requires IsDigit(c)
    ensures DigitsValue([c]) == DigitValue(c) && NatText(DigitValue(c)) == [c]
  {
    DigitsSnoc("", c);
    DigitOfValue(c);
    assert "" + [c] == [c] && DigitsValue("") == 0;
  }

  lemma {:induction false} DigitsText(s: string)
    requires s != "" && AllDigits(s) && s[0] != '0'
    ensures NatText(DigitsValue(s)) == s && DigitsValue(s) > 0
  {
    var t, c := s[..|s| - 1], s[|s| - 1];
    assert s == t + [c];
    DigitsSnoc(t, c);
    DigitOfValue(c);
    if t == "" {
      assert s == [c];
      OneDigitText(c);
    } else {
      DigitsText(t);
      NatTextStep(DigitsValue(t), DigitValue(c));
    }
  }

  /** The child a pointer token selects. */
  function Selected(v: Json, name: string): (k: Option<nat>)
    ensures k.Some? ==> k.value < ChildCount(v)
  {
    match v
    case Obj(members) => if FindMember(members, name) < |members| then Some(FindMember(members, name)) else None
    case Arr(elems) =>
      if IndexOf(name).Some? && IndexOf(name).value < |elems| then IndexOf(name) else None
    case _ => None
  }

  lemma GetStep(v: Json, names: seq<string>)
    requires names != []
    ensures GetPointer(v, names) ==
      match Selected(v, names[0]) case None => None case Some(k) => GetPointer(Child(v, k), names[1..])
  {
  }

  /** The same child is selected before and after the traversal, under the name the traversal used. */
  lemma SelectedAfter(r: Rules, v: Json, field: string, name: string)
    requires Clean(v) && !v.Scalar() && !r.Cuts(field)
    ensures
      var j, k := Selected(Cleansed(r, v, field), name), Selected(v, name);
      && (j.Some? <==> k.Some?)
      && (k.Some? ==>
          Child(Cleansed(r, v, field), j.value) == Cleansed(r, Child(v, k.value), field + "/" + name))
  {
    var c, u := Cleansed(r, v, field), Ordered(v);
    if v.Arr? {
      if IndexOf(name).Some? {
        IndexName(name);
      }
    } else {
      SortedLookup(v.members, name);
      var j := FindMember(u.members, name);
      SameNames(c.members, u.members, name);
    }
  }

  lemma {:induction false} SameNames(a: seq<Member>, b: seq<Member>, name: string)
    requires |a| == |b| && forall k :: 0 <= k < |a| ==> a[k].name == b[k].name
    ensures FindMember(a, name) == FindMember(b, name)
  {
    if a != [] && a[0].name != name {
      SameNames(a[1..], b[1..], name);
    }
  }

  // ---- Exactly the listed paths are blanked ---------------------------------------------------

  /** The field is listed for the table. */
  predicate Listed(r: Rules, field: string) {
    (r.table, field) in r.dropFields
  }

  /** The embedded objects of the nine course tables, but for the instructors of a course listing. */
  ghost predicate CourseObject(table: string, field: string) {
    && (exists p: string :: field == p + "Object" || field == p + "Objects")
    && table in {"course_copyrightstatuses", "course_courselistings", "course_courses", "course_coursetypes",
                 "course_departments", "course_processingstatuses", "course_reserves", "course_roles", "course_terms"}
    && (table == "course_courselistings" ==> !exists p: string :: field == "/instructorObjects" + p)
  }

  lemma EndsWithMeans(s: string, suffix: string)
    ensures EndsWith(s, suffix) <==> exists p: string :: s == p + suffix
  {
    if EndsWith(s, suffix) {
      assert s == s[..|s| - |suffix|] + suffix;
    }
  }

  /** Which scalars are blanked and which arrays and objects are cut. */
  lemma RulesMean(r: Rules, field: string)
    ensures r.Drops(field) <==> Listed(r, field)
    ensures r.Cuts(field) <==> Listed(r, field) || CourseObject(r.table, field)
  {
    EndsWithMeans(field, "Object");
    EndsWithMeans(field, "Objects");
    assert (exists p: string :: field == "/instructorObjects" + p) <==> "/instructorObjects" <= field by {
      if "/instructorObjects" <= field {
        assert field == "/instructorObjects" + field[18..];
      }
    }
  }

  function Path(field: string, names: seq<string>): string
    decreases |names|
  {
    if names == [] then field else Path(field + "/" + names[0], names[1..])
  }

  /** Some container properly above the path is cut. */
  ghost predicate CutAbove(r: Rules, v: Json, field: string, names: seq<string>)
    decreases |names|
  {
    names != [] &&
    ((!v.Scalar() && (Listed(r, field) || CourseObject(r.table, field))) ||
     match Selected(v, names[0])
     case None => false
     case Some(k) => CutAbove(r, Child(v, k), field + "/" + names[0], names[1..]))
  }

  /** How a node compares with what it was: blanked by kind when listed, otherwise kept. */
  ghost predicate BlankedOrKept(r: Rules, field: string, before: Json, after: Json) {
    match before
    case Null => after == Null
    case Bool(_) => after == if Listed(r, field) then Bool(false) else before
    case Int(_) => after == if Listed(r, field) then Int(0) else before
    case Dec(_) => after == if Listed(r, field) then Int(0) else before
    case Str(_) => after == if Listed(r, field) then Str("") else before
    case Arr(elems) => if Listed(r, field) || CourseObject(r.table, field) then after == Null else after.Arr? && |after.elems| == |elems|
    case Obj(members) => if Listed(r, field) || CourseObject(r.table, field) then after == Null else after.Obj? && |after.members| == |members|
  }

  /** Every path of the document, looked up before and after. */
  lemma {:induction false} BlanksExactlyListedPaths(r: Rules, v: Json, field: string, names: seq<string>)
    requires Clean(v)
    ensures
      var before, after := GetPointer(v, names), GetPointer(Cleansed(r, v, field), names);
      if CutAbove(r, v, field, names) then after == None
      else
        && (after.Some? <==> before.Some?)
        && (before.Some? ==> BlankedOrKept(r, Path(field, names), before.value, after.value))
    decreases |names|
  {
    RulesMean(r, field);
    if names == [] {
      if v.Obj? {
        SortedMembers(v.members);
      }
    } else {
      GetStep(v, names);
      GetStep(Cleansed(r, v, field), names);
      if !v.Scalar() && !r.Cuts(field) {
        SelectedAfter(r, v, field, names[0]);
        var k := Selected(v, names[0]);
        if k.Some? {
          BlanksExactlyListedPaths(r, Child(v, k.value), field + "/" + names[0], names[1..]);
        }
      }
    }
  }

  lemma PointersCollide(x: string, y: string)
    ensures PointerText([x, y]) == PointerText([x + "/" + y])
  {
    PointerTextSnoc([], x);
    PointerTextSnoc([x], y);
    PointerTextSnoc([], x + "/" + y);
    assert [] + [x] == [x] && [x] + [y] == [x, y] && [] + [x + "/" + y] == [x + "/" + y];
    Assoc("/" + x, "/", y);
    Assoc("/", x, "/" + y);
    Assoc(x, "/", y);
  }

  lemma SetTwoMissing(ms: seq<Member>, x: string, y: string, w: Json)
    requires FindMember(ms, x) == |ms| && IndexOf(x).None? && IndexOf(y).None?
    ensures SetPointer(Obj(ms), [x, y], w) == Obj(ms + [Member(x, Obj([Member(y, w)]))])
  {
    SetMissing(ms, x, [y], w);
    SetMissing([], y, [], w);
    SetInNull(y, [], w);
    assert [x] + [y] == [x, y] && [y] + [] == [y] && [] + [Member(y, w)] == [Member(y, w)];
  }

  /** With a slash inside a member name the pointer goes elsewhere: the listed value survives and a new member
      appears beside it. */
  lemma SlashInNameDefeatsBlanking(x: string, y: string, secret: Json)
    requires CleanName(x) && CleanName(y) && IndexOf(x).None? && IndexOf(y).None?
    ensures
      var listed := Member(x + "/" + y, secret);
      var pointer := ParsePointer(PointerText([listed.name]));
      && pointer.Tokens?
      && SetPointer(Obj([listed]), pointer.names, Str("")) == Obj([listed, Member(x, Obj([Member(y, Str(""))]))])
  {
    var listed := Member(x + "/" + y, secret);
    PointersCollide(x, y);
    PointerTextParses([x, y]);
    assert |listed.name| > |x|;
    assert FindMember([listed][1..], x) == 0;
    SetTwoMissing([listed], x, y, Str(""));
  }

  lemma SetMissing(ms: seq<Member>, x: string, rest: seq<string>, w: Json)
    requires FindMember(ms, x) == |ms| && IndexOf(x).None?
    ensures SetPointer(Obj(ms), [x] + rest, w) == Obj(ms + [Member(x, SetPointer(Null, rest, w))])
  {
    assert ([x] + rest)[1..] == rest;
  }

  lemma SetInNull(x: string, rest: seq<string>, w: Json)
    requires IndexOf(x).None?
    ensures SetPointer(Null, [x] + rest, w) == SetPointer(Obj([]), [x] + rest, w)
  {
  }

  // ---- Canonical form -------------------------------------------------------------------------

  function Names(ms: seq<Member>): set<string> {
    set m | m in ms :: m.name
  }

  /** Equal up to the order of members at any depth. */
  ghost predicate SameUpToOrder(a: Json, b: Json) {
    match a
    case Arr(elems) =>
      b.Arr? && |b.elems| == |elems| &&
      forall i :: 0 <= i < |elems| ==> SameUpToOrder(elems[i], b.elems[i])
    case Obj(members) =>
      b.Obj? && Names(members) == Names(b.members) &&
      forall i, j :: 0 <= i < |members| && 0 <= j < |b.members| && members[i].name == b.members[j].name ==>
        SameUpToOrder(members[i].value, b.members[j].value)
    case _ => a == b
  }

  lemma {:induction false} OrderedNamesUnique(xs: seq<Member>, ys: seq<Member>)
    requires InNameOrder(xs) && InNameOrder(ys) && Names(xs) == Names(ys)
    ensures |xs| == |ys| && forall k :: 0 <= k < |xs| ==> xs[k].name == ys[k].name
  {
    if xs == [] {
      assert ys != [] ==> ys[0].name in Names(ys);
    } else {
      assert xs[0].name in Names(ys);
      assert ys != [];
      assert ys[0].name in Names(xs);
      PrecedesOrder(xs[0].name, ys[0].name, xs[0].name);
      assert xs[0].name == ys[0].name;
      NamesWithoutFirst(xs);
      NamesWithoutFirst(ys);
      OrderedNamesUnique(xs[1..], ys[1..]);
    }
  }

  lemma NamesWithoutFirst(xs: seq<Member>)
    requires InNameOrder(xs) && xs != []
    ensures Names(xs[1..]) == Names(xs) - {xs[0].name}
    ensures InNameOrder(xs[1..])
  {
    forall k | 1 <= k < |xs|
      ensures xs[k].name != xs[0].name && xs[k] in xs[1..]
    {
      assert xs[k] == xs[1..][k - 1];
    }
  }

  lemma SortedNames(ms: seq<Member>)
    requires UniqueNames(ms)
    ensures Names(Sorted(ms)) == Names(ms) && InNameOrder(Sorted(ms))
  {
    SortedMembers(ms);
    SortedInOrder(ms);
  }

  lemma SortedAligned(ma: seq<Member>, mb: seq<Member>)
    requires UniqueNames(ma) && UniqueNames(mb) && Names(ma) == Names(mb)
    ensures |Sorted(ma)| == |Sorted(mb)|
    ensures forall k :: 0 <= k < |Sorted(ma)| ==>
      Sorted(ma)[k].name == Sorted(mb)[k].name && Sorted(ma)[k] in ma && Sorted(mb)[k] in mb
  {
    SortedNames(ma);
    SortedNames(mb);
    OrderedNamesUnique(Sorted(ma), Sorted(mb));
    SortedMembers(ma);
    SortedMembers(mb);
  }

  /** Records that differ only in member order leave the traversal identical. */
  lemma {:induction false} NormalizationIsCanonical(r: Rules, a: Json, b: Json, field: string)
    requires Clean(a) && Clean(b) && SameUpToOrder(a, b)
    ensures Cleansed(r, a, field) == Cleansed(r, b, field)
  {
    if !a.Scalar() && !r.Cuts(field) {
      var u, w := Ordered(a), Ordered(b);
      if a.Obj? {
        SortedAligned(a.members, b.members);
      }
      assert ChildCount(u) == ChildCount(w);
      forall k | 0 <= k < ChildCount(u)
        ensures ChildName(u, k) == ChildName(w, k)
        ensures CleansedChildren(r, a, field)[k] == CleansedChildren(r, b, field)[k]
      {
        OrderedChild(a, k);
        assert SameUpToOrder(Child(u, k), Child(w, k));
        NormalizationIsCanonical(r, Child(u, k), Child(w, k), field + "/" + ChildName(u, k));
      }
      SameRebuilt(u, w, CleansedChildren(r, a, field), CleansedChildren(r, b, field));
    }
  }

  lemma SameRebuilt(u: Json, w: Json, xs: seq<Json>, ys: seq<Json>)
    requires !u.Scalar() && !w.Scalar() && u.Arr? == w.Arr?
    requires |xs| == ChildCount(u) && |ys| == ChildCount(w) && xs == ys
    requires forall k :: 0 <= k < |xs| ==> ChildName(u, k) == ChildName(w, k)
    ensures Rebuilt(u, xs) == Rebuilt(w, ys)
  {
    if u.Obj? {
      assert Rebuilt(u, xs).members == Rebuilt(w, ys).members;
    }
  }

  /** When no field is listed, only order is lost: equal results come from equal records. */
  lemma {:induction false} NormalizationKeepsMeaning(r: Rules, a: Json, b: Json, field: string)
    requires Clean(a) && Clean(b)
    requires forall f :: !r.Cuts(f)
    requires Cleansed(r, a, field) == Cleansed(r, b, field)
    ensures SameUpToOrder(a, b)
  {
    assert !r.Cuts(field);
    if a.Arr? {
      ChildrenAgree(r, a, b, field, 0);
      forall i | 0 <= i < |a.elems|
        ensures SameUpToOrder(a.elems[i], b.elems[i])
      {
        ChildrenAgree(r, a, b, field, i);
        NormalizationKeepsMeaning(r, a.elems[i], b.elems[i], field + "/" + NatText(i));
      }
    } else if a.Obj? {
      ResultNamesAgree(r, a, b, field);
      forall i, j | 0 <= i < |a.members| && 0 <= j < |b.members| && a.members[i].name == b.members[j].name
        ensures SameUpToOrder(a.members[i].value, b.members[j].value)
      {
        SameNameAgrees(r, a, b, field, i, j);
        NormalizationKeepsMeaning(r, a.members[i].value, b.members[j].value, field + "/" + a.members[i].name);
      }
    }
  }

  lemma ResultNamesAgree(r: Rules, a: Json, b: Json, field: string)
    requires Clean(a) && Clean(b) && a.Obj? && !r.Cuts(field) && Cleansed(r, a, field) == Cleansed(r, b, field)
    ensures b.Obj? && Names(a.members) == Names(b.members)
    ensures |Sorted(a.members)| == |Sorted(b.members)|
    ensures forall k :: 0 <= k < |Sorted(a.members)| ==> Sorted(a.members)[k].name == Sorted(b.members)[k].name
  {
    ChildrenAgree(r, a, b, field, 0);
    var xs, ys := Sorted(a.members), Sorted(b.members);
    forall k | 0 <= k < |xs|
      ensures xs[k].name == ys[k].name
    {
      ChildrenAgree(r, a, b, field, k);
    }
    SortedNames(a.members);
    SortedNames(b.members);
    EqualNames(xs, ys);
  }

  lemma SortedPosition(ms: seq<Member>, i: nat) returns (k: nat)
    requires i < |ms|
    ensures k < |Sorted(ms)| && Sorted(ms)[k] == ms[i]
  {
    SortedMembers(ms);
    assert ms[i] in Sorted(ms);
    k :| 0 <= k < |Sorted(ms)| && Sorted(ms)[k] == ms[i];
  }

  lemma SameNameAgrees(r: Rules, a: Json, b: Json, field: string, i: nat, j: nat)
    requires Clean(a) && Clean(b) && a.Obj? && !r.Cuts(field) && Cleansed(r, a, field) == Cleansed(r, b, field)
    requires b.Obj? && i < |a.members| && j < |b.members| && a.members[i].name == b.members[j].name
    ensures
      var f := field + "/" + a.members[i].name;
      Cleansed(r, a.members[i].value, f) == Cleansed(r, b.members[j].value, f)
  {
    ResultNamesAgree(r, a, b, field);
    var k := SortedPosition(a.members, i);
    var l := SortedPosition(b.members, j);
    assert k == l by {
      SortedInOrder(b.members);
    }
    ChildrenAgree(r, a, b, field, k);
  }

  lemma EqualNames(xs: seq<Member>, ys: seq<Member>)
    requires |xs| == |ys| && forall k :: 0 <= k < |xs| ==> xs[k].name == ys[k].name
    ensures Names(xs) == Names(ys)
  {
    forall m | m in xs
      ensures m.name in Names(ys)
    {
      var k :| 0 <= k < |xs| && xs[k] == m;
      assert ys[k] in ys;
    }
    forall m | m in ys
      ensures m.name in Names(xs)
    {
      var k :| 0 <= k < |ys| && ys[k] == m;
      assert xs[k] in xs;
    }
  }

  lemma ChildrenAgree(r: Rules, a: Json, b: Json, field: string, k: nat)
    requires !a.Scalar() && !r.Cuts(field) && Cleansed(r, a, field) == Cleansed(r, b, field)
    ensures !b.Scalar() && a.Arr? == b.Arr? && ChildCount(Ordered(a)) == ChildCount(Ordered(b))
    ensures k < ChildCount(Ordered(a)) ==>
      ChildName(Ordered(a), k) == ChildName(Ordered(b), k) &&
      var f := field + "/" + ChildName(Ordered(a), k);
      Cleansed(r, Child(Ordered(a), k), f) == Cleansed(r, Child(Ordered(b), k), f)
  {
    SameKind(r, a, b, field);
    if k < ChildCount(Ordered(a)) {
      RebuiltChild(r, a, field, k);
      RebuiltChild(r, b, field, k);
    }
  }

  lemma SameKind(r: Rules, a: Json, b: Json, field: string)
    requires !a.Scalar() && !r.Cuts(field) && Cleansed(r, a, field) == Cleansed(r, b, field)
    ensures !b.Scalar() && a.Arr? == b.Arr? && ChildCount(Ordered(a)) == ChildCount(Ordered(b))
  {
    assert ChildCount(Cleansed(r, a, field)) == ChildCount(Ordered(a));
  }

  lemma RebuiltChild(r: Rules, a: Json, field: string, k: nat)
    requires !a.Scalar() && !r.Cuts(field) && k < ChildCount(Ordered(a))
    ensures
      var c := Cleansed(r, a, field);
      && k < ChildCount(c) && ChildName(c, k) == ChildName(Ordered(a), k)
      && Child(c, k) == Cleansed(r, Child(Ordered(a), k), field + "/" + ChildName(Ordered(a), k))
  {
    assert CleansedChildren(r, a, field)[k] ==
      Cleansed(r, Child(Ordered(a), k), field + "/" + ChildName(Ordered(a), k));
  }

  // ---- Order and idempotence ------------------------------------------------------------------

  ghost predicate OrderedThroughout(v: Json) {
    match v
    case Arr(elems) => forall i :: 0 <= i < |elems| ==> OrderedThroughout(elems[i])
    case Obj(members) =>
      IdThenByName(members) && forall i :: 0 <= i < |members| ==> OrderedThroughout(members[i].value)
    case _ => true
  }

  lemma {:induction false} ResultInNameOrder(r: Rules, v: Json, field: string)
    requires Clean(v)
    ensures OrderedThroughout(Cleansed(r, v, field))
  {
    if !v.Scalar() && !r.Cuts(field) {
      var u, c := Ordered(v), Cleansed(r, v, field);
      OrderedClean(v);
      forall k | 0 <= k < ChildCount(u)
        ensures OrderedThroughout(Child(c, k))
      {
        OrderedChild(v, k);
        ResultInNameOrder(r, Child(u, k), field + "/" + ChildName(u, k));
        assert Child(c, k) == CleansedChildren(r, v, field)[k];
      }
      if v.Obj? {
        SortedByName(v.members);
        SameNamesOrder(u.members, c.members);
      }
    }
  }

  lemma {:induction false} SortedFixed(ms: seq<Member>)
    requires InNameOrder(ms)
    ensures Sorted(ms) == ms
  {
    if ms != [] {
      SortedFixed(ms[1..]);
      assert ms == [ms[0]] + ms[1..];
    }
  }

  /** Processing a processed record changes nothing. */
  lemma {:induction false} NormalizationIsIdempotent(r: Rules, v: Json, field: string)
    requires Clean(v)
    ensures Cleansed(r, Cleansed(r, v, field), field) == Cleansed(r, v, field)
  {
    if !v.Scalar() && !r.Cuts(field) {
      var u, c := Ordered(v), Cleansed(r, v, field);
      OrderedClean(v);
      OrderedAlready(r, v, field);
      forall k | 0 <= k < ChildCount(u)
        ensures CleansedChildren(r, c, field)[k] == CleansedChildren(r, v, field)[k]
      {
        OrderedChild(v, k);
        RebuiltChild(r, v, field, k);
        NormalizationIsIdempotent(r, Child(u, k), field + "/" + ChildName(u, k));
      }
      assert CleansedChildren(r, c, field) == CleansedChildren(r, v, field);
      SameRebuilt(c, u, CleansedChildren(r, c, field), CleansedChildren(r, v, field));
    }
  }

  lemma OrderedAlready(r: Rules, v: Json, field: string)
    requires Clean(v) && !v.Scalar() && !r.Cuts(field)
    ensures
      var u, c := Ordered(v), Cleansed(r, v, field);
      && Ordered(c) == c && !c.Scalar() && c.Arr? == u.Arr? && ChildCount(c) == ChildCount(u)
      && forall k :: 0 <= k < ChildCount(u) ==> ChildName(c, k) == ChildName(u, k)
  {
    ResultInNameOrder(r, v, field);
    if v.Obj? {
      InNameOrderMeans(Cleansed(r, v, field).members);
    }
    if v.Obj? {
      SortedFixed(Cleansed(r, v, field).members);
    }
  }
}
