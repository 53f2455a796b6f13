/** src/paging.cpp: the check whether a page holds any record, and its agreement with the staging handler. */
module Paging {
  import opened JsonTree
  import opened TypeStats
  import opened Events
  import Staging
  import Pages

  datatype State = State(level: int, found: bool)

  /** The first object at level 2 stops the reader. */
  function Step(st: State, e: Event): State {
    if st.found then st
    else
      match e
      case StartObject => if st.level == 2 then State(st.level, true) else State(st.level + 1, false)
      case EndObject => State(st.level - 1, false)
      case StartArray => State(st.level + 1, false)
      case EndArray => State(st.level - 1, false)
      case _ => st
  }

  function Run(st: State, es: seq<Event>): State
    decreases |es|
  {
    if es == [] then st else Run(Step(st, es[0]), es[1..])
  }

  class PagingJSONHandler {
    var level: int
    var foundRecord: bool

    constructor ()
      ensures View() == State(0, false)
    {
      level, foundRecord := 0, false;
    }

    function View(): State
      reads this
    {
      State(level, foundRecord)
    }

    /** Returns whether the reader goes on. */
    method Handle(e: Event) returns (more: bool)
      requires !foundRecord
      modifies this
      ensures View() == Step(old(View()), e) && more == !foundRecord
    {
      more := true;
      match e {
        case StartObject =>
          if level == 2 {
            foundRecord := true;
            return false;
          }
          level := level + 1;
        case EndObject => level := level - 1;
        case StartArray => level := level + 1;
        case EndArray => level := level - 1;
        case _ =>
      }
    }
  }

  method PageIsEmpty(events: seq<Event>) returns (empty: bool)
    ensures empty == !Run(State(0, false), events).found
  {
    var handler := new PagingJSONHandler();
    var i, more := 0, true;
    assert events[0..] == events;
    while i < |events| && more
      invariant i <= |events| && more == !handler.foundRecord
      invariant Run(handler.View(), events[i..]) == Run(State(0, false), events)
    {
      assert events[i..][1..] == events[i + 1..];
      more := handler.Handle(events[i]);
      i := i + 1;
    }
    if !more {
      FoundStays(handler.View(), events[i..]);
    }
    empty := !handler.foundRecord;
  }

  lemma {:induction false} FoundStays(st: State, es: seq<Event>)
    requires st.found
    ensures Run(st, es) == st
    decreases |es|
  {
    if es != [] {
      FoundStays(st, es[1..]);
    }
  }

  lemma {:induction false} RunAppend(st: State, a: seq<Event>, b: seq<Event>)
    ensures Run(st, a + b) == Run(Run(st, a), b)
    decreases |a|
  {
    if a == [] {
      assert a + b == b;
    } else {
      assert (a + b)[0] == a[0] && (a + b)[1..] == a[1..] + b;
      RunAppend(Step(st, a[0]), a[1..], b);
    }
  }

  // ---- Records by position in the tree ---------------------------------------------------------

  /** Whether v, read from this level on, has an object that opens at level 2. */
  predicate HasRecord(v: Json, level: nat) {
    (v.Obj? && level == 2) ||
    match v
    case Arr(elems) => exists i :: 0 <= i < |elems| && HasRecord(elems[i], level + 1)
    case Obj(ms) => exists i :: 0 <= i < |ms| && HasRecord(ms[i].value, level + 1)
    case _ => false
  }

  predicate AnyHasRecord(vs: seq<Json>, level: nat) {
    exists i :: 0 <= i < |vs| && HasRecord(vs[i], level)
  }

  predicate AnyMemberHasRecord(ms: seq<Member>, level: nat) {
    exists i :: 0 <= i < |ms| && HasRecord(ms[i].value, level)
  }

  lemma AnyFirst(vs: seq<Json>, level: nat)
    requires vs != []
    ensures AnyHasRecord(vs, level) <==> HasRecord(vs[0], level) || AnyHasRecord(vs[1..], level)
  {
    assert vs == [vs[0]] + vs[1..];
  }

  lemma AnyMemberFirst(ms: seq<Member>, level: nat)
    requires ms != []
    ensures AnyMemberHasRecord(ms, level) <==> HasRecord(ms[0].value, level) || AnyMemberHasRecord(ms[1..], level)
  {
    assert ms == [ms[0]] + ms[1..];
  }

  lemma {:induction false} NoRecordBelow(v: Json, level: nat)
    requires level > 2
    ensures !HasRecord(v, level)
  {
    match v
    case Arr(elems) =>
      forall i | 0 <= i < |elems|
        ensures !HasRecord(elems[i], level + 1)
      {
        NoRecordBelow(elems[i], level + 1);
      }
    case Obj(ms) =>
      forall i | 0 <= i < |ms|
        ensures !HasRecord(ms[i].value, level + 1)
      {
        NoRecordBelow(ms[i].value, level + 1);
      }
    case _ =>
  }

  // ---- The paging machine ----------------------------------------------------------------------

  /** Started at a level on something that holds a record or not, a run finds it or comes back to the level. */
  predicate Scanned(st: State, es: seq<Event>, has: bool) {
    if has then Run(st, es).found else Run(st, es) == st
  }

  lemma {:induction false} ScanValue(st: State, v: Json)
    requires !st.found && st.level >= 0
    ensures Scanned(st, EventsOf(v), HasRecord(v, st.level))
    decreases v, 1
  {
    match v
    case Arr(elems) =>
      ScanElems(Step(st, StartArray), elems);
      ScanBracket(st, StartArray, ElemEvents(elems), EndArray);
    case Obj(ms) =>
      if st.level == 2 {
        FoundStays(Step(st, StartObject), MemberEvents(ms) + [EndObject]);
      } else {
        ScanMembers(Step(st, StartObject), ms);
      }
      ScanBracket(st, StartObject, MemberEvents(ms), EndObject);
    case _ =>
      assert EventsOf(v) == [EventsOf(v)[0]] && EventsOf(v)[1..] == [];
  }

  lemma ScanBracket(st: State, open: Event, body: seq<Event>, close: Event)
    ensures Run(st, [open] + (body + [close])) == Step(Run(Step(st, open), body), close)
  {
    var inside := Run(Step(st, open), body);
    assert ([open] + (body + [close]))[1..] == body + [close];
    RunAppend(Step(st, open), body, [close]);
    assert [close][1..] == [];
    assert Run(Step(inside, close), []) == Step(inside, close);
  }

  lemma {:induction false} ScanElems(st: State, elems: seq<Json>)
    requires !st.found && st.level >= 0
    ensures Scanned(st, ElemEvents(elems), AnyHasRecord(elems, st.level))
    decreases elems, 0
  {
    if elems != [] {
      AnyFirst(elems, st.level);
      ScanValue(st, elems[0]);
      RunAppend(st, EventsOf(elems[0]), ElemEvents(elems[1..]));
      if HasRecord(elems[0], st.level) {
        FoundStays(Run(st, EventsOf(elems[0])), ElemEvents(elems[1..]));
      } else {
        ScanElems(st, elems[1..]);
      }
    }
  }

  lemma {:induction false} ScanMembers(st: State, ms: seq<Member>)
    requires !st.found && st.level >= 0
    ensures Scanned(st, MemberEvents(ms), AnyMemberHasRecord(ms, st.level))
    decreases ms, 0
  {
    if ms != [] {
      AnyMemberFirst(ms, st.level);
      var key := Key(ms[0].name);
      ScanValue(st, ms[0].value);
      assert ([key] + (EventsOf(ms[0].value) + MemberEvents(ms[1..])))[1..] ==
        EventsOf(ms[0].value) + MemberEvents(ms[1..]);
      RunAppend(st, EventsOf(ms[0].value), MemberEvents(ms[1..]));
      if HasRecord(ms[0].value, st.level) {
        FoundStays(Run(st, EventsOf(ms[0].value)), MemberEvents(ms[1..]));
      } else {
        ScanMembers(st, ms[1..]);
      }
    }
  }

  // ---- The staging machine ---------------------------------------------------------------------

  /** How many records the staging handler closes. */
  function Closings(job: Staging.Job, st: Staging.State, es: seq<Event>): nat
    decreases |es|
  {
    if es == [] || st.work.thrown then 0
    else (if es[0].EndObject? && st.level == 3 then 1 else 0) + Closings(job, Staging.Step(job, st, es[0]), es[1..])
  }

  lemma {:induction false} ClosingsAppend(job: Staging.Job, st: Staging.State, a: seq<Event>, b: seq<Event>)
    ensures Closings(job, st, a + b) == Closings(job, st, a) + Closings(job, Staging.Run(job, st, a), b)
    decreases |a|
  {
    if a == [] {
      assert a + b == b;
    } else if st.work.thrown {
      Pages.RunThrown(job, st, a);
    } else {
      assert (a + b)[0] == a[0] && (a + b)[1..] == a[1..] + b;
      ClosingsAppend(job, Staging.Step(job, st, a[0]), a[1..], b);
    }
  }

  /** A run that closes nothing comes back to its level without an exception. */
  predicate Staged(job: Staging.Job, st: Staging.State, es: seq<Event>, has: bool) {
    && (Closings(job, st, es) > 0 <==> has)
    && (!Staging.Run(job, st, es).work.thrown ==> Staging.Run(job, st, es).level == st.level)
    && (!has ==> !Staging.Run(job, st, es).work.thrown)
  }

  lemma StageBracket(job: Staging.Job, st: Staging.State, open: Event, body: seq<Event>, close: Event, has: bool)
    requires !st.work.thrown && st.level >= 0
    requires (open, close) in {(StartArray, EndArray), (StartObject, EndObject)}
    requires Staged(job, Staging.Step(job, st, open), body, has)
    ensures Staged(job, st, [open] + (body + [close]), has || (open.StartObject? && st.level == 2))
  {
    var entered := Staging.Step(job, st, open);
    var inside := Staging.Run(job, entered, body);
    Pages.RunBracket(job, st, open, body, close);
    assert ([open] + (body + [close]))[1..] == body + [close];
    ClosingsAppend(job, entered, body, [close]);
    assert [close][1..] == [];
    assert Closings(job, Staging.Step(job, inside, close), []) == 0;
  }

  lemma {:induction false} StageValue(job: Staging.Job, st: Staging.State, v: Json)
    requires !st.work.thrown && st.level >= 0
    ensures Staged(job, st, EventsOf(v), HasRecord(v, st.level))
    decreases v, 1
  {
    match v
    case Arr(elems) =>
      StageElems(job, Staging.Step(job, st, StartArray), elems);
      StageBracket(job, st, StartArray, ElemEvents(elems), EndArray, AnyHasRecord(elems, st.level + 1));
    case Obj(ms) =>
      StageMembers(job, Staging.Step(job, st, StartObject), ms);
      StageBracket(job, st, StartObject, MemberEvents(ms), EndObject, AnyMemberHasRecord(ms, st.level + 1));
    case _ =>
      StageScalar(job, st, v);
  }

  lemma StageScalar(job: Staging.Job, st: Staging.State, v: Json)
    requires !st.work.thrown && st.level >= 0 && v.Scalar()
    ensures Staged(job, st, EventsOf(v), HasRecord(v, st.level))
  {
    Pages.RunOne(job, st, EventsOf(v)[0]);
    assert EventsOf(v) == [EventsOf(v)[0]] && EventsOf(v)[1..] == [];
    assert Closings(job, Staging.Step(job, st, EventsOf(v)[0]), []) == 0;
  }

  lemma StageThen(job: Staging.Job, st: Staging.State, a: seq<Event>, b: seq<Event>, first: bool, second: bool)
    requires Staged(job, st, a, first)
    requires !Staging.Run(job, st, a).work.thrown ==> Staged(job, Staging.Run(job, st, a), b, second)
    ensures Staged(job, st, a + b, first || second)
  {
    var after := Staging.Run(job, st, a);
    Pages.RunAppend(job, st, a, b);
    ClosingsAppend(job, st, a, b);
    if after.work.thrown {
      Pages.RunThrown(job, after, b);
    }
  }

  lemma {:induction false} StageElems(job: Staging.Job, st: Staging.State, elems: seq<Json>)
    requires !st.work.thrown && st.level >= 0
    ensures Staged(job, st, ElemEvents(elems), AnyHasRecord(elems, st.level))
    decreases elems, 0
  {
    if elems != [] {
      AnyFirst(elems, st.level);
      StageValue(job, st, elems[0]);
      var after := Staging.Run(job, st, EventsOf(elems[0]));
      if !after.work.thrown {
        StageElems(job, after, elems[1..]);
      }
      StageThen(job, st, EventsOf(elems[0]), ElemEvents(elems[1..]),
                HasRecord(elems[0], st.level), AnyHasRecord(elems[1..], st.level));
    }
  }

  lemma {:induction false} StageMembers(job: Staging.Job, st: Staging.State, ms: seq<Member>)
    requires !st.work.thrown && st.level >= 0
    ensures Staged(job, st, MemberEvents(ms), AnyMemberHasRecord(ms, st.level))
    decreases ms, 0
  {
    if ms != [] {
      AnyMemberFirst(ms, st.level);
      var key := Key(ms[0].name);
      var named := Staging.Step(job, st, key);
      var value, rest := EventsOf(ms[0].value), MemberEvents(ms[1..]);
      StageValue(job, named, ms[0].value);
      var after := Staging.Run(job, named, value);
      if !after.work.thrown {
        StageMembers(job, after, ms[1..]);
      }
      StageThen(job, named, value, rest, HasRecord(ms[0].value, st.level), AnyMemberHasRecord(ms[1..], st.level));
      assert ([key] + (value + rest))[1..] == value + rest;
      assert Closings(job, st, [key] + (value + rest)) == Closings(job, named, value + rest);
    }
  }

  // ---- Agreement -------------------------------------------------------------------------------

  /** The page is empty exactly when staging closes no record, and both levels return to 0 unless a reader is
      stopped. */
  lemma MachinesAgree(job: Staging.Job, stats: Statistics, v: Json)
    ensures
      var paging, staging := Run(State(0, false), EventsOf(v)), Staging.Run(job, Pages.Fresh(stats), EventsOf(v));
      && (paging.found <==> Closings(job, Pages.Fresh(stats), EventsOf(v)) > 0)
      && (!paging.found ==> paging.level == 0)
      && (!staging.work.thrown ==> staging.level == 0)
  {
    ScanValue(State(0, false), v);
    StageValue(job, Pages.Fresh(stats), v);
  }
}
