/** What the handler keeps of an object outside the top-level arrays: names and brackets, without scalars. It parses
    only if no member at any depth is a scalar. */
module HollowText {
  import opened CStrings
  import opened JsonTree
  import opened JsonText

  // ---- The text --------------------------------------------------------------------------------

  function Hollow(v: Json): string
    decreases v, 1
  {
    match v
    case Arr(elems) => "[" + (HollowElems(elems) + "],")
    case Obj(members) => "{" + (HollowMembers(members) + "},")
    case _ => ""
  }

  function HollowElems(elems: seq<Json>): string
    decreases elems, 0
  {
    if elems == [] then "" else Hollow(elems[0]) + HollowElems(elems[1..])
  }

  function HollowMembers(ms: seq<Member>): string
    decreases ms, 0
  {
    if ms == [] then "" else NameText(Handler, ms[0].name) + (Hollow(ms[0].value) + HollowMembers(ms[1..]))
  }

  // ---- The tree without its scalars ------------------------------------------------------------

  /** No member of an object, at any depth, is a scalar. */
  predicate Whole(v: Json)
    decreases v, 1
  {
    match v
    case Arr(elems) => WholeElems(elems)
    case Obj(members) => WholeMembers(members)
    case _ => true
  }

  predicate WholeElems(elems: seq<Json>)
    decreases elems, 0
  {
    elems == [] || (Whole(elems[0]) && WholeElems(elems[1..]))
  }

  predicate WholeMembers(ms: seq<Member>)
    decreases ms, 0
  {
    ms == [] || (!ms[0].value.Scalar() && Whole(ms[0].value) && WholeMembers(ms[1..]))
  }

  function Skeleton(v: Json): (r: Json)
    ensures r.Scalar() == v.Scalar() && r.Obj? == v.Obj?
    decreases v, 1
  {
    match v
    case Arr(elems) => Arr(SkeletonElems(elems))
    case Obj(members) => Obj(SkeletonMembers(members))
    case _ => v
  }

  function SkeletonElems(elems: seq<Json>): (r: seq<Json>)
    ensures forall i :: 0 <= i < |r| ==> !r[i].Scalar()
    decreases elems, 0
  {
    if elems == [] then []
    else (if elems[0].Scalar() then [] else [Skeleton(elems[0])]) + SkeletonElems(elems[1..])
  }

  function SkeletonMembers(ms: seq<Member>): (r: seq<Member>)
    ensures |r| == |ms| && forall i :: 0 <= i < |r| ==> r[i].name == ms[i].name
    decreases ms, 0
  {
    if ms == [] then [] else [Member(ms[0].name, Skeleton(ms[0].value))] + SkeletonMembers(ms[1..])
  }

  // ---- Where no member is a scalar -------------------------------------------------------------

  lemma Bracketed(open: string, body: string, close: string)
    ensures open + (body + (close + ",")) == open + body + "" + close + ","
  {
    assert open + body + "" == open + body;
    Assoc(open, body, close + ",");
    Assoc(open + body, close, ",");
  }

  lemma {:induction false} WholeText(v: Json, k: nat)
    requires !v.Scalar() && Whole(v)
    ensures Hollow(v) == Text(Handler, k, Skeleton(v)) + ","
    decreases v, 1
  {
    match v
    case Arr(elems) =>
      WholeElemsText(elems, k + 1);
      Bracketed("[", ElemsText(Handler, k + 1, SkeletonElems(elems)), "]");
      assert "]" + "," == "],";
    case Obj(members) =>
      WholeMembersText(members, k + 1);
      Bracketed("{", MembersText(Handler, k + 1, SkeletonMembers(members)), "}");
      assert "}" + "," == "},";
  }

  lemma ElemsTextFirst(v: Json, rest: seq<Json>, k: nat)
    ensures ElemsText(Handler, k, [v] + rest) == (Text(Handler, k, v) + ",") + ElemsText(Handler, k, rest)
  {
    var all, text, more := [v] + rest, Text(Handler, k, v), ElemsText(Handler, k, rest);
    assert all[1..] == rest && all[0] == v;
    assert "" + (text + ("," + more)) == text + ("," + more);
    Assoc(text, ",", more);
  }

  lemma {:induction false} WholeElemsText(elems: seq<Json>, k: nat)
    requires WholeElems(elems)
    ensures HollowElems(elems) == ElemsText(Handler, k, SkeletonElems(elems))
    decreases elems, 0
  {
    if elems != [] {
      var rest := SkeletonElems(elems[1..]);
      WholeElemsText(elems[1..], k);
      if elems[0].Scalar() {
        assert "" + HollowElems(elems[1..]) == HollowElems(elems[1..]);
        assert [] + rest == rest;
      } else {
        WholeText(elems[0], k);
        ElemsTextFirst(Skeleton(elems[0]), rest, k);
      }
    }
  }

  lemma {:induction false} WholeMembersText(ms: seq<Member>, k: nat)
    requires WholeMembers(ms)
    ensures HollowMembers(ms) == MembersText(Handler, k, SkeletonMembers(ms))
    decreases ms, 0
  {
    if ms != [] {
      var m, rest := Member(ms[0].name, Skeleton(ms[0].value)), SkeletonMembers(ms[1..]);
      WholeMembersText(ms[1..], k);
      WholeText(ms[0].value, k);
      assert ([m] + rest)[1..] == rest;
      MembersTextParts(Handler, k, [m] + rest, "");
      var more := MembersText(Handler, k, rest);
      Assoc(Text(Handler, k, m.value), ",", more);
      assert more + "" == more;
      var all := MembersText(Handler, k, [m] + rest);
      assert all + "" == all;
      assert "" + (NameText(Handler, m.name) + (Text(Handler, k, m.value) + ("," + more))) ==
        NameText(Handler, m.name) + (Text(Handler, k, m.value) + ("," + more));
    }
  }

  // ---- Where some member is --------------------------------------------------------------------

  lemma NoSpace(s: string)
    requires s != "" && !IsSpace(s[0])
    ensures SkipSpace(s) == s
  {
  }

  lemma ValueThen(v: Json, more: string)
    requires !v.Scalar() && Whole(v)
    ensures ParseValue(true, Hollow(v) + more) == Done(Skeleton(v), "," + more)
  {
    WholeText(v, 0);
    Assoc(Text(Handler, 0, Skeleton(v)), ",", more);
    ValueReads(Handler, true, 0, Skeleton(v), "," + more);
  }

  lemma HollowHead(v: Json, more: string)
    requires !v.Scalar()
    ensures Hollow(v) + more != "" && (Hollow(v) + more)[0] in "[{" && SkipSpace(Hollow(v) + more) == Hollow(v) + more
  {
    var s := Hollow(v) + more;
    assert s[0] == Hollow(v)[0];
    NoSpace(s);
  }

  lemma {:induction false} BrokenValue(v: Json, more: string)
    requires !v.Scalar() && !Whole(v)
    ensures ParseValue(true, Hollow(v) + more) == Fail
    decreases v, 2
  {
    HollowHead(v, more);
    match v
    case Arr(elems) =>
      var body := HollowElems(elems);
      Assoc("[", body + "],", more);
      Assoc(body, "],", more);
      assert ("[" + (body + ("]," + more)))[1..] == body + ("]," + more);
      BrokenElems(elems, true, "]," + more);
    case Obj(members) =>
      var body := HollowMembers(members);
      Assoc("{", body + "},", more);
      Assoc(body, "},", more);
      assert ("{" + (body + ("}," + more)))[1..] == body + ("}," + more);
      BrokenMembers(members, true, "}," + more);
  }

  lemma {:induction false} BrokenElems(elems: seq<Json>, first: bool, end: string)
    requires !WholeElems(elems)
    ensures ParseElems(true, first, HollowElems(elems) + end) == Fail
    decreases elems, 1
  {
    var v, rest := elems[0], HollowElems(elems[1..]);
    Assoc(Hollow(v), rest, end);
    if v.Scalar() {
      assert "" + (rest + end) == rest + end;
      BrokenElems(elems[1..], first, end);
    } else {
      HollowHead(v, rest + end);
      if Whole(v) {
        ValueThen(v, rest + end);
        BrokenElems(elems[1..], false, end);
        assert ("," + (rest + end))[1..] == rest + end;
      } else {
        BrokenValue(v, rest + end);
      }
    }
  }

  function Named(name: string, v: Parsed<Json>): Parsed<Member> {
    match v
    case Fail => Fail
    case Done(value, rest) => Done(Member(name, value), rest)
  }

  lemma NameReads(name: string, after: string)
    ensures
      var s := NameText(Handler, name) + after;
      && s != "" && s[0] == '"' && SkipSpace(s) == s
      && ParseValue(true, s) == Done(Str(name), ":" + after)
      && ParseMember(true, s) == Named(name, ParseValue(true, after))
  {
    var s := NameText(Handler, name) + after;
    Assoc(Quoted(name), ":", after);
    Assoc("\"" + Escaped(name), "\"", ":" + after);
    Assoc("\"", Escaped(name), "\"" + (":" + after));
    assert s == "\"" + (Escaped(name) + ("\"" + (":" + after)));
    assert s[1..] == Escaped(name) + ("\"" + (":" + after));
    CharsRead(name, ":" + after);
    NoSpace(s);
    NoSpace(":" + after);
    assert (":" + after)[1..] == after;
  }

  lemma {:induction false} BrokenMembers(ms: seq<Member>, first: bool, end: string)
    requires !WholeMembers(ms) && end != "" && end[0] == '}'
    ensures ParseMembers(true, first, HollowMembers(ms) + end) == Fail
    decreases ms, 1
  {
    var name, v, rest := ms[0].name, ms[0].value, HollowMembers(ms[1..]);
    Assoc(NameText(Handler, name), Hollow(v) + rest, end);
    Assoc(Hollow(v), rest, end);
    var after := Hollow(v) + (rest + end);
    NameReads(name, after);
    if v.Scalar() {
      assert "" + (rest + end) == rest + end;
      ScalarBreaks(ms[1..], end);
    } else if Whole(v) {
      ValueThen(v, rest + end);
      BrokenMembers(ms[1..], false, end);
      NoSpace("," + (rest + end));
      assert ("," + (rest + end))[1..] == rest + end;
    } else {
      BrokenValue(v, rest + end);
    }
  }

  /** What follows the colon of a scalar's name: the next name, or the end. */
  lemma ScalarBreaks(ms: seq<Member>, end: string)
    requires end != "" && end[0] == '}'
    ensures
      match ParseValue(true, HollowMembers(ms) + end)
      case Fail => true
      case Done(_, rest) => SkipSpace(rest) != "" && SkipSpace(rest)[0] == ':'
  {
    if ms == [] {
      assert "" + end == end;
      NoSpace(end);
    } else {
      var more := Hollow(ms[0].value) + HollowMembers(ms[1..]);
      Assoc(NameText(Handler, ms[0].name), more, end);
      NameReads(ms[0].name, more + end);
      NoSpace(":" + (more + end));
    }
  }

  /** What the handler closes for an object outside the arrays. */
  function Hollowed(v: Json): Json {
    if Whole(v) then Skeleton(v) else Null
  }

  lemma HollowParses(ms: seq<Member>)
    ensures
      ParseDocument(true, "{" + HollowMembers(ms) + "}") ==
        if WholeMembers(ms) then Done(Skeleton(Obj(ms)), "") else Fail
  {
    var body := HollowMembers(ms);
    if WholeMembers(ms) {
      WholeMembersText(ms, 1);
      DocumentRoundTrip(Handler, Skeleton(Obj(ms)));
      assert "{" + body + "" == "{" + body;
    } else {
      Assoc("{", body, "}");
      assert ("{" + (body + "}"))[1..] == body + "}";
      NoSpace("{" + (body + "}"));
      BrokenMembers(ms, true, "}");
    }
  }

  lemma {:induction false} SkeletonClean(v: Json)
    requires Clean(v)
    ensures Clean(Skeleton(v))
    decreases v, 1
  {
    match v
    case Arr(elems) => SkeletonElemsClean(elems);
    case Obj(members) => SkeletonMembersClean(members);
    case _ =>
  }

  lemma {:induction false} SkeletonElemsClean(elems: seq<Json>)
    requires forall i :: 0 <= i < |elems| ==> Clean(elems[i])
    ensures forall i :: 0 <= i < |SkeletonElems(elems)| ==> Clean(SkeletonElems(elems)[i])
    decreases elems, 0
  {
    if elems != [] {
      SkeletonClean(elems[0]);
      SkeletonElemsClean(elems[1..]);
    }
  }

  lemma {:induction false} SkeletonMembersClean(ms: seq<Member>)
    requires forall i :: 0 <= i < |ms| ==> Clean(ms[i].value)
    ensures forall i :: 0 <= i < |ms| ==> Clean(SkeletonMembers(ms)[i].value)
    decreases ms, 0
  {
    if ms != [] {
      SkeletonClean(ms[0].value);
      SkeletonMembersClean(ms[1..]);
    }
  }
}
