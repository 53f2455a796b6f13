/** What staging a page means: the records are the objects directly inside its top-level arrays. */
module Pages {
  import opened CStrings
  import opened JsonTree
  import opened TypeStats
  import opened Events
  import opened Staging
  import opened HollowText
  import JsonText

  // ---- Running the machine over a tree --------------------------------------------------------

  lemma {:induction false} RunAppend(job: Job, st: State, a: seq<Event>, b: seq<Event>)
    ensures Run(job, st, a + b) == Run(job, Run(job, st, a), b)
    ensures RunReady(job, st, a + b) <==> RunReady(job, st, a) && RunReady(job, Run(job, st, a), b)
    decreases |a|
  {
    if a == [] {
      assert a + b == b;
    } else {
      assert (a + b)[0] == a[0] && (a + b)[1..] == a[1..] + b;
      RunAppend(job, Step(job, st, a[0]), a[1..], b);
    }
  }

  lemma RunOne(job: Job, st: State, e: Event)
    ensures Run(job, st, [e]) == Step(job, st, e)
    ensures RunReady(job, st, [e]) <==> StepReady(st, e)
  {
    assert [e][1..] == [];
    assert Run(job, Step(job, st, e), []) == Step(job, st, e);
  }

  /** Opening event, body, closing event. */
  lemma RunBracket(job: Job, st: State, open: Event, body: seq<Event>, close: Event)
    ensures
      var inside := Run(job, Step(job, st, open), body);
      && Run(job, st, [open] + (body + [close])) == Step(job, inside, close)
      && (RunReady(job, st, [open] + (body + [close])) <==>
          StepReady(st, open) && RunReady(job, Step(job, st, open), body) && StepReady(inside, close))
  {
    RunOne(job, st, open);
    RunAppend(job, st, [open], body + [close]);
    RunAppend(job, Step(job, st, open), body, [close]);
    RunOne(job, Run(job, Step(job, st, open), body), close);
  }

  /** The state with text added to the record. */
  function Wrote(st: State, text: string): State {
    st.(record := st.record + text)
  }

  lemma WroteTwice(st: State, a: string, b: string)
    ensures Wrote(Wrote(st, a), b) == Wrote(st, a + b)
  {
    Assoc(st.record, a, b);
  }

  predicate Inside(st: State) {
    st.level > 2 && st.active && !st.work.thrown
  }

  /** Inside a record every value appends its text and a comma. */
  lemma {:induction false} RunValue(job: Job, st: State, v: Json, k: nat)
    requires Inside(st) && Clean(v)
    ensures Run(job, st, EventsOf(v)) == Wrote(st, JsonText.Text(JsonText.Handler, k, v) + ",")
    ensures RunReady(job, st, EventsOf(v))
    decreases v, 1
  {
    match v
    case Arr(elems) =>
      RunElems(job, Step(job, st, StartArray), elems, k + 1);
      RunArray(job, st, elems, k);
    case Obj(members) =>
      RunMembers(job, Step(job, st, StartObject), members, k + 1);
      RunObject(job, st, members, k);
    case _ =>
      RunScalar(job, st, v, k);
  }

  lemma CloseArray(job: Job, st: State, text: string)
    requires Inside(st)
    ensures Step(job, Wrote(Step(job, st, StartArray), text), EndArray) == Wrote(st, "[" + text + "" + "]" + ",")
  {
    ContainerText(st, "[", text, "]");
    Assoc(st.record, "[", text);
    Assoc(st.record + "[", text, "],");
    assert "]" + "," == "],";
  }

  lemma RunArray(job: Job, st: State, elems: seq<Json>, k: nat)
    requires Inside(st)
    requires
      var open := Step(job, st, StartArray);
      && RunReady(job, open, ElemEvents(elems))
      && Run(job, open, ElemEvents(elems)) == Wrote(open, JsonText.ElemsText(JsonText.Handler, k + 1, elems))
    ensures Run(job, st, EventsOf(Arr(elems))) == Wrote(st, JsonText.Text(JsonText.Handler, k, Arr(elems)) + ",")
    ensures RunReady(job, st, EventsOf(Arr(elems)))
  {
    var text := JsonText.ElemsText(JsonText.Handler, k + 1, elems);
    RunBracket(job, st, StartArray, ElemEvents(elems), EndArray);
    CloseArray(job, st, text);
    assert JsonText.Text(JsonText.Handler, k, Arr(elems)) == "[" + text + "" + "]";
  }

  lemma CloseObject(job: Job, st: State, text: string)
    requires Inside(st)
    ensures Step(job, Wrote(Step(job, st, StartObject), text), EndObject) == Wrote(st, "{" + text + "" + "}" + ",")
  {
    ContainerText(st, "{", text, "}");
    Assoc(st.record, "{", text);
    Assoc(st.record + "{", text, "},");
    assert "}" + "," == "},";
  }

  lemma RunObject(job: Job, st: State, members: seq<Member>, k: nat)
    requires Inside(st)
    requires
      var open := Step(job, st, StartObject);
      && RunReady(job, open, MemberEvents(members))
      && Run(job, open, MemberEvents(members)) == Wrote(open, JsonText.MembersText(JsonText.Handler, k + 1, members))
    ensures Run(job, st, EventsOf(Obj(members))) == Wrote(st, JsonText.Text(JsonText.Handler, k, Obj(members)) + ",")
    ensures RunReady(job, st, EventsOf(Obj(members)))
  {
    var text := JsonText.MembersText(JsonText.Handler, k + 1, members);
    RunBracket(job, st, StartObject, MemberEvents(members), EndObject);
    CloseObject(job, st, text);
    assert JsonText.Text(JsonText.Handler, k, Obj(members)) == "{" + text + "" + "}";
  }

  lemma RunScalar(job: Job, st: State, v: Json, k: nat)
    requires Inside(st) && Clean(v) && v.Scalar()
    ensures Run(job, st, EventsOf(v)) == Wrote(st, JsonText.Text(JsonText.Handler, k, v) + ",")
    ensures RunReady(job, st, EventsOf(v))
  {
    if v.Str? {
      CStrOfClean(v.s);
    }
    assert EventsOf(v) == [EventsOf(v)[0]];
    RunOne(job, st, EventsOf(v)[0]);
  }

  lemma ContainerText(st: State, open: string, text: string, close: string)
    ensures st.record + open + text + (close + ",") == st.record + (open + text + "" + close + ",")
  {
    assert open + text + "" == open + text;
    Assoc(st.record, open, text);
    Assoc(st.record, open + text, close + ",");
    Assoc(open + text, close, ",");
  }

  lemma ElemsTextSteps(elems: seq<Json>, k: nat)
    requires elems != []
    ensures JsonText.ElemsText(JsonText.Handler, k, elems) ==
      (JsonText.Text(JsonText.Handler, k, elems[0]) + ",") + JsonText.ElemsText(JsonText.Handler, k, elems[1..])
  {
    var text, rest := JsonText.Text(JsonText.Handler, k, elems[0]), JsonText.ElemsText(JsonText.Handler, k, elems[1..]);
    Assoc(text, ",", rest);
    assert "" + (text + ("," + rest)) == text + ("," + rest);
  }

  function MemberText(m: Member, k: nat): string {
    JsonText.NameText(JsonText.Handler, m.name) + (JsonText.Text(JsonText.Handler, k, m.value) + ",")
  }

  lemma MembersTextSteps(ms: seq<Member>, k: nat)
    requires ms != []
    ensures JsonText.MembersText(JsonText.Handler, k, ms) ==
      MemberText(ms[0], k) + JsonText.MembersText(JsonText.Handler, k, ms[1..])
  {
    var name, text, rest := JsonText.NameText(JsonText.Handler, ms[0].name),
      JsonText.Text(JsonText.Handler, k, ms[0].value), JsonText.MembersText(JsonText.Handler, k, ms[1..]);
    Assoc(text, ",", rest);
    Assoc(name, text + ",", rest);
    assert "" + (name + (text + ("," + rest))) == name + (text + ("," + rest));
  }

  lemma MemberEventsSteps(ms: seq<Member>)
    requires ms != []
    ensures MemberEvents(ms) == ([Key(ms[0].name)] + EventsOf(ms[0].value)) + MemberEvents(ms[1..])
  {
  }

  lemma WroteNothing(st: State)
    ensures Wrote(st, "") == st
  {
    assert st.record + "" == st.record;
  }

  lemma {:induction false} RunElems(job: Job, st: State, elems: seq<Json>, k: nat)
    requires Inside(st) && forall i :: 0 <= i < |elems| ==> Clean(elems[i])
    ensures Run(job, st, ElemEvents(elems)) == Wrote(st, JsonText.ElemsText(JsonText.Handler, k, elems))
    ensures RunReady(job, st, ElemEvents(elems))
    decreases elems, 0
  {
    if elems == [] {
      WroteNothing(st);
    } else {
      var text := JsonText.Text(JsonText.Handler, k, elems[0]) + ",";
      var after := Wrote(st, text);
      RunValue(job, st, elems[0], k);
      RunElems(job, after, elems[1..], k);
      RunAppend(job, st, EventsOf(elems[0]), ElemEvents(elems[1..]));
      ElemsTextSteps(elems, k);
      WroteTwice(st, text, JsonText.ElemsText(JsonText.Handler, k, elems[1..]));
    }
  }

  lemma RunKey(job: Job, st: State, name: string)
    requires Inside(st) && CleanName(name)
    ensures Run(job, st, [Key(name)]) == Wrote(st, JsonText.NameText(JsonText.Handler, name))
    ensures RunReady(job, st, [Key(name)])
  {
    CStrOfClean(name);
    RunOne(job, st, Key(name));
  }

  lemma {:induction false} RunMember(job: Job, st: State, m: Member, k: nat)
    requires Inside(st) && CleanName(m.name) && Clean(m.value)
    ensures Run(job, st, [Key(m.name)] + EventsOf(m.value)) == Wrote(st, MemberText(m, k))
    ensures RunReady(job, st, [Key(m.name)] + EventsOf(m.value))
    decreases m, 0
  {
    var name := JsonText.NameText(JsonText.Handler, m.name);
    RunKey(job, st, m.name);
    RunValue(job, Wrote(st, name), m.value, k);
    RunAppend(job, st, [Key(m.name)], EventsOf(m.value));
    WroteTwice(st, name, JsonText.Text(JsonText.Handler, k, m.value) + ",");
  }

  lemma {:induction false} RunMembers(job: Job, st: State, ms: seq<Member>, k: nat)
    requires Inside(st)
    requires forall i :: 0 <= i < |ms| ==> CleanName(ms[i].name) && Clean(ms[i].value)
    ensures Run(job, st, MemberEvents(ms)) == Wrote(st, JsonText.MembersText(JsonText.Handler, k, ms))
    ensures RunReady(job, st, MemberEvents(ms))
    decreases ms, 0
  {
    if ms == [] {
      WroteNothing(st);
    } else {
      RunMember(job, st, ms[0], k);
      RunMembers(job, Wrote(st, MemberText(ms[0], k)), ms[1..], k);
      MemberEventsSteps(ms);
      RunAppend(job, st, [Key(ms[0].name)] + EventsOf(ms[0].value), MemberEvents(ms[1..]));
      MembersTextSteps(ms, k);
      WroteTwice(st, MemberText(ms[0], k), JsonText.MembersText(JsonText.Handler, k, ms[1..]));
    }
  }

  // ---- Records --------------------------------------------------------------------------------

  /** At an object directly inside a top-level array. */
  predicate AtRecord(st: State) {
    st.level == 2 && st.active && !st.work.thrown
  }

  lemma RunRecord(job: Job, st: State, rec: Json)
    requires AtRecord(st) && rec.Obj? && Clean(rec)
    ensures RunReady(job, st, EventsOf(rec))
    ensures Run(job, st, EventsOf(rec)).work == Closed(job, st.work, rec)
    ensures !Closed(job, st.work, rec).thrown ==> AtRecord(Run(job, st, EventsOf(rec)))
  {
    var open := Step(job, st, StartObject);
    var text := JsonText.MembersText(JsonText.Handler, 1, rec.members);
    RunMembers(job, open, rec.members, 1);
    RunBracket(job, st, StartObject, MemberEvents(rec.members), EndObject);
    var inside := Wrote(open, text);
    assert "{" + text + "" == "{" + text;
    assert inside.record + "}" == JsonText.Text(JsonText.Handler, 0, rec);
    JsonText.DocumentRoundTrip(JsonText.Handler, rec);
    assert ParsedRecord(inside.record + "}") == rec;
  }

  lemma RunOther(job: Job, st: State, v: Json)
    requires AtRecord(st) && !v.Obj? && Clean(v)
    ensures RunReady(job, st, EventsOf(v))
    ensures Run(job, st, EventsOf(v)).work == st.work && AtRecord(Run(job, st, EventsOf(v)))
  {
    if v.Arr? {
      RunOtherArray(job, st, v.elems);
    } else {
      RunOne(job, st, EventsOf(v)[0]);
      assert EventsOf(v) == [EventsOf(v)[0]];
    }
  }

  lemma RunOtherArray(job: Job, st: State, elems: seq<Json>)
    requires AtRecord(st) && Clean(Arr(elems))
    ensures RunReady(job, st, EventsOf(Arr(elems)))
    ensures
      var after := Run(job, st, EventsOf(Arr(elems)));
      after.work == st.work && AtRecord(after)
  {
    RunElems(job, Step(job, st, StartArray), elems, 0);
    RunBracket(job, st, StartArray, ElemEvents(elems), EndArray);
  }

  /** The objects among the elements of a top-level array. */
  function Objects(elems: seq<Json>): seq<Json> {
    if elems == [] then [] else (if elems[0].Obj? then [elems[0]] else []) + Objects(elems[1..])
  }

  /** The work of records one after another, up to an exception. */
  function ClosedAll(job: Job, w: Work, recs: seq<Json>): Work
    decreases |recs|
  {
    if recs == [] || w.thrown then w else ClosedAll(job, Closed(job, w, recs[0]), recs[1..])
  }

  lemma {:induction false} RunThrown(job: Job, st: State, es: seq<Event>)
    requires st.work.thrown
    ensures Run(job, st, es) == st && RunReady(job, st, es)
    decreases |es|
  {
    if es != [] {
      RunThrown(job, st, es[1..]);
    }
  }

  lemma {:induction false} RunTopElems(job: Job, st: State, elems: seq<Json>)
    requires AtRecord(st) && forall i :: 0 <= i < |elems| ==> Clean(elems[i])
    ensures RunReady(job, st, ElemEvents(elems))
    ensures Run(job, st, ElemEvents(elems)).work == ClosedAll(job, st.work, Objects(elems))
    ensures !Run(job, st, ElemEvents(elems)).work.thrown ==> AtRecord(Run(job, st, ElemEvents(elems)))
    decreases elems
  {
    if elems != [] {
      var v, rest := elems[0], ElemEvents(elems[1..]);
      var after := Run(job, st, EventsOf(v));
      RunAppend(job, st, EventsOf(v), rest);
      if v.Obj? {
        RunRecord(job, st, v);
        assert ([v] + Objects(elems[1..]))[1..] == Objects(elems[1..]);
      } else {
        RunOther(job, st, v);
        assert [] + Objects(elems[1..]) == Objects(elems[1..]);
      }
      if after.work.thrown {
        RunThrown(job, after, rest);
      } else {
        RunTopElems(job, after, elems[1..]);
      }
    }
  }

  // ---- Pages ----------------------------------------------------------------------------------

  /** The records: the objects directly inside top-level arrays. */
  function RecordsIn(ms: seq<Member>): seq<Json> {
    if ms == [] then []
    else (if ms[0].value.Arr? then Objects(ms[0].value.elems) else []) + RecordsIn(ms[1..])
  }

  /** What is closed inside an object directly under the page: its objects, without their scalars. */
  function InnerObjects(ms: seq<Member>): seq<Json> {
    if ms == [] then []
    else (if ms[0].value.Obj? then [Hollowed(ms[0].value)] else []) + InnerObjects(ms[1..])
  }

  /** What is closed inside a value directly under the page. */
  function ClosedHere(v: Json): seq<Json> {
    match v
    case Arr(elems) => Objects(elems)
    case Obj(members) => InnerObjects(members)
    case _ => []
  }

  function ClosedIn(ms: seq<Member>): seq<Json> {
    if ms == [] then [] else ClosedHere(ms[0].value) + ClosedIn(ms[1..])
  }

  predicate HoldsObject(v: Json) {
    v.Obj? && exists i :: 0 <= i < |v.members| && v.members[i].value.Obj?
  }

  /** An object directly under the page directly holds another one. */
  predicate HasInner(page: Json) {
    page.Obj? && exists i :: 0 <= i < |page.members| && HoldsObject(page.members[i].value)
  }

  function RecordsOf(page: Json): seq<Json>
    requires page.Obj?
  {
    RecordsIn(page.members)
  }

  function MemberWork(job: Job, w: Work, v: Json): Work {
    if v.Arr? then
      var loaded := ClosedAll(job, w, Objects(v.elems));
      if loaded.thrown then loaded else ArrayEnded(job, loaded)
    else ClosedAll(job, w, ClosedHere(v))
  }

  function PageWork(job: Job, w: Work, ms: seq<Member>): Work
    decreases |ms|
  {
    if ms == [] || w.thrown then w else PageWork(job, MemberWork(job, w, ms[0].value), ms[1..])
  }

  predicate AtTop(st: State) {
    st.level == 1 && !st.active && !st.work.thrown
  }

  /** Outside the top-level arrays only names and brackets are kept. */
  predicate Outside(st: State) {
    st.level >= 2 && !st.active && !st.work.thrown
  }

  lemma {:induction false} RunHollow(job: Job, st: State, v: Json)
    requires Outside(st) && Clean(v) && (v.Obj? ==> st.level >= 3)
    ensures RunReady(job, st, EventsOf(v)) && Run(job, st, EventsOf(v)) == Wrote(st, Hollow(v))
    decreases v, 1
  {
    match v
    case Arr(elems) =>
      RunHollowElems(job, Step(job, st, StartArray), elems);
      RunBracket(job, st, StartArray, ElemEvents(elems), EndArray);
      Assoc(st.record, "[", HollowElems(elems));
      Assoc(st.record + "[", HollowElems(elems), "],");
      Assoc(st.record, "[", HollowElems(elems) + "],");
    case Obj(members) =>
      RunHollowMembers(job, Step(job, st, StartObject), members);
      RunBracket(job, st, StartObject, MemberEvents(members), EndObject);
      Assoc(st.record, "{", HollowMembers(members));
      Assoc(st.record + "{", HollowMembers(members), "},");
      Assoc(st.record, "{", HollowMembers(members) + "},");
    case _ =>
      assert EventsOf(v) == [EventsOf(v)[0]];
      RunOne(job, st, EventsOf(v)[0]);
      WroteNothing(st);
  }

  lemma {:induction false} RunHollowElems(job: Job, st: State, elems: seq<Json>)
    requires Outside(st) && st.level >= 3 && forall i :: 0 <= i < |elems| ==> Clean(elems[i])
    ensures RunReady(job, st, ElemEvents(elems)) && Run(job, st, ElemEvents(elems)) == Wrote(st, HollowElems(elems))
    decreases elems, 0
  {
    if elems == [] {
      WroteNothing(st);
    } else {
      RunHollow(job, st, elems[0]);
      RunHollowElems(job, Wrote(st, Hollow(elems[0])), elems[1..]);
      RunAppend(job, st, EventsOf(elems[0]), ElemEvents(elems[1..]));
      WroteTwice(st, Hollow(elems[0]), HollowElems(elems[1..]));
    }
  }

  lemma RunOuterKey(job: Job, st: State, name: string)
    requires !st.work.thrown && CleanName(name)
    ensures RunReady(job, st, [Key(name)]) && Run(job, st, [Key(name)]) == Wrote(st, JsonText.NameText(JsonText.Handler, name))
  {
    CStrOfClean(name);
    RunOne(job, st, Key(name));
  }

  lemma {:induction false} RunHollowMembers(job: Job, st: State, ms: seq<Member>)
    requires Outside(st) && st.level >= 3
    requires forall i :: 0 <= i < |ms| ==> CleanName(ms[i].name) && Clean(ms[i].value)
    ensures RunReady(job, st, MemberEvents(ms)) && Run(job, st, MemberEvents(ms)) == Wrote(st, HollowMembers(ms))
    decreases ms, 0
  {
    if ms == [] {
      WroteNothing(st);
    } else {
      var name, value, rest := JsonText.NameText(JsonText.Handler, ms[0].name), Hollow(ms[0].value), HollowMembers(ms[1..]);
      RunOuterKey(job, st, ms[0].name);
      RunHollow(job, Wrote(st, name), ms[0].value);
      RunAppend(job, st, [Key(ms[0].name)], EventsOf(ms[0].value));
      WroteTwice(st, name, value);
      RunHollowMembers(job, Wrote(st, name + value), ms[1..]);
      MemberEventsSteps(ms);
      RunAppend(job, st, [Key(ms[0].name)] + EventsOf(ms[0].value), MemberEvents(ms[1..]));
      WroteTwice(st, name + value, rest);
      Assoc(name, value, rest);
    }
  }

  /** Directly inside an object that is directly under the page. */
  predicate AtInner(st: State) {
    st.level == 2 && !st.active && !st.work.thrown
  }

  /** An object there is closed as if it were a record. */
  lemma RunInner(job: Job, st: State, v: Json)
    requires AtInner(st) && v.Obj? && Clean(v)
    ensures RunReady(job, st, EventsOf(v))
    ensures Run(job, st, EventsOf(v)).work == Closed(job, st.work, Hollowed(v))
    ensures !Closed(job, st.work, Hollowed(v)).thrown ==> AtInner(Run(job, st, EventsOf(v)))
  {
    var open := Step(job, st, StartObject);
    RunHollowMembers(job, open, v.members);
    RunBracket(job, st, StartObject, MemberEvents(v.members), EndObject);
    var inside := Wrote(open, HollowMembers(v.members));
    assert inside.record + "}" == "{" + HollowMembers(v.members) + "}";
    HollowParses(v.members);
    SkeletonClean(v);
    assert ParsedRecord(inside.record + "}") == Hollowed(v);
  }

  lemma RunInnerMember(job: Job, st: State, m: Member)
    requires AtInner(st) && CleanName(m.name) && Clean(m.value)
    ensures
      var es, here := [Key(m.name)] + EventsOf(m.value), if m.value.Obj? then [Hollowed(m.value)] else [];
      && RunReady(job, st, es) && Run(job, st, es).work == ClosedAll(job, st.work, here)
      && (!Run(job, st, es).work.thrown ==> AtInner(Run(job, st, es)))
  {
    var named := Wrote(st, JsonText.NameText(JsonText.Handler, m.name));
    RunOuterKey(job, st, m.name);
    RunAppend(job, st, [Key(m.name)], EventsOf(m.value));
    if m.value.Obj? {
      RunInner(job, named, m.value);
      assert [Hollowed(m.value)][1..] == [];
    } else {
      RunHollow(job, named, m.value);
    }
  }

  lemma {:induction false} ClosedAllAppend(job: Job, w: Work, a: seq<Json>, b: seq<Json>)
    ensures ClosedAll(job, w, a + b) == ClosedAll(job, ClosedAll(job, w, a), b)
    decreases |a|
  {
    if a == [] {
      assert a + b == b;
    } else if !w.thrown {
      assert (a + b)[0] == a[0] && (a + b)[1..] == a[1..] + b;
      ClosedAllAppend(job, Closed(job, w, a[0]), a[1..], b);
    }
  }

  lemma {:induction false} RunInnerMembers(job: Job, st: State, ms: seq<Member>)
    requires AtInner(st) && forall i :: 0 <= i < |ms| ==> CleanName(ms[i].name) && Clean(ms[i].value)
    ensures RunReady(job, st, MemberEvents(ms))
    ensures Run(job, st, MemberEvents(ms)).work == ClosedAll(job, st.work, InnerObjects(ms))
    ensures !Run(job, st, MemberEvents(ms)).work.thrown ==> AtInner(Run(job, st, MemberEvents(ms)))
    decreases |ms|
  {
    if ms != [] {
      var es, rest := [Key(ms[0].name)] + EventsOf(ms[0].value), MemberEvents(ms[1..]);
      var here := if ms[0].value.Obj? then [Hollowed(ms[0].value)] else [];
      MemberEventsSteps(ms);
      RunAppend(job, st, es, rest);
      RunInnerMember(job, st, ms[0]);
      ClosedAllAppend(job, st.work, here, InnerObjects(ms[1..]));
      var after := Run(job, st, es);
      if after.work.thrown {
        RunThrown(job, after, rest);
      } else {
        RunInnerMembers(job, after, ms[1..]);
      }
    }
  }

  /** An object directly under the page. */
  lemma RunTopObject(job: Job, st: State, v: Json)
    requires AtTop(st) && v.Obj? && Clean(v)
    ensures
      var es := EventsOf(v);
      && RunReady(job, st, es) && Run(job, st, es).work == MemberWork(job, st.work, v)
      && (!Run(job, st, es).work.thrown ==> AtTop(Run(job, st, es)))
  {
    var open := Step(job, st, StartObject);
    RunInnerMembers(job, open, v.members);
    RunBracket(job, st, StartObject, MemberEvents(v.members), EndObject);
    var inside := Run(job, open, MemberEvents(v.members));
    if inside.work.thrown {
      assert Step(job, inside, EndObject) == inside;
    }
  }

  lemma RunTopMember(job: Job, st: State, m: Member)
    requires AtTop(st) && Clean(m.value)
    ensures
      var es := [Key(m.name)] + EventsOf(m.value);
      && RunReady(job, st, es)
      && Run(job, st, es).work == MemberWork(job, st.work, m.value)
      && (!Run(job, st, es).work.thrown ==> AtTop(Run(job, st, es)))
  {
    var named := Step(job, st, Key(m.name));
    RunOne(job, st, Key(m.name));
    RunAppend(job, st, [Key(m.name)], EventsOf(m.value));
    if m.value.Arr? {
      RunTopArray(job, named, m.value.elems);
    } else if m.value.Obj? {
      RunTopObject(job, named, m.value);
    } else {
      RunOne(job, named, EventsOf(m.value)[0]);
      assert EventsOf(m.value) == [EventsOf(m.value)[0]];
    }
  }

  lemma RunTopArray(job: Job, st: State, elems: seq<Json>)
    requires AtTop(st) && Clean(Arr(elems))
    ensures
      var es := EventsOf(Arr(elems));
      && RunReady(job, st, es)
      && Run(job, st, es).work == MemberWork(job, st.work, Arr(elems))
      && (!Run(job, st, es).work.thrown ==> AtTop(Run(job, st, es)))
  {
    var open := Step(job, st, StartArray);
    RunTopElems(job, open, elems);
    RunBracket(job, st, StartArray, ElemEvents(elems), EndArray);
    var inside := Run(job, open, ElemEvents(elems));
    if inside.work.thrown {
      assert Step(job, inside, EndArray) == inside;
    }
  }

  lemma {:induction false} RunTopMembers(job: Job, st: State, ms: seq<Member>)
    requires AtTop(st) && forall i :: 0 <= i < |ms| ==> Clean(ms[i].value)
    ensures RunReady(job, st, MemberEvents(ms))
    ensures Run(job, st, MemberEvents(ms)).work == PageWork(job, st.work, ms)
    ensures !Run(job, st, MemberEvents(ms)).work.thrown ==> AtTop(Run(job, st, MemberEvents(ms)))
    decreases ms
  {
    if ms != [] {
      var es, rest := [Key(ms[0].name)] + EventsOf(ms[0].value), MemberEvents(ms[1..]);
      MemberEventsSteps(ms);
      RunAppend(job, st, es, rest);
      RunTopMember(job, st, ms[0]);
      var after := Run(job, st, es);
      if after.work.thrown {
        RunThrown(job, after, rest);
      } else {
        RunTopMembers(job, after, ms[1..]);
      }
    }
  }

  function Fresh(stats: Statistics): State {
    State(0, false, "", Work(stats, 0, "", [], false))
  }

  lemma RunPage(job: Job, stats: Statistics, page: Json)
    requires page.Obj? && Clean(page)
    ensures RunReady(job, Fresh(stats), EventsOf(page))
    ensures Run(job, Fresh(stats), EventsOf(page)).work == PageWork(job, Fresh(stats).work, page.members)
    ensures !Run(job, Fresh(stats), EventsOf(page)).work.thrown ==>
      Run(job, Fresh(stats), EventsOf(page)).level == 0 && !Run(job, Fresh(stats), EventsOf(page)).active
  {
    var open := Step(job, Fresh(stats), StartObject);
    RunTopMembers(job, open, page.members);
    RunBracket(job, Fresh(stats), StartObject, MemberEvents(page.members), EndObject);
  }
}
