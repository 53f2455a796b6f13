/** Two passes over the pages of a table (src/stage.cpp: stage_page, stage_table_1, stage_table_2): what the server
    stores is the row function mapped over the records. */
module Loading {
  import opened Wrappers
  import opened Identifiers
  import opened JsonTree
  import opened JsonPointer
  import opened TypeStats
  import opened Records
  import opened Rows
  import opened Events
  import opened Inference
  import opened Staging
  import opened HollowText
  import opened Pages
  import CopyText
  import JsonText

  // ---- Batches --------------------------------------------------------------------------------

  type Batch = seq<CopyText.Row>

  function Concat(batches: seq<Batch>): Batch {
    if batches == [] then [] else Concat(batches[..|batches| - 1]) + batches[|batches| - 1]
  }

  /** The chunks sent hold whole rows, and unsent rows are never forgotten. */
  ghost predicate Batched(w: Work, batches: seq<Batch>, pending: Batch) {
    && |w.sent| == |batches|
    && (forall i :: 0 <= i < |batches| ==> w.sent[i] == CopyText.EncodedRows(batches[i]))
    && w.buffer == CopyText.EncodedRows(pending)
    && (pending != [] ==> w.recordCount > 0)
  }

  lemma ConcatSnoc(batches: seq<Batch>, batch: Batch)
    ensures Concat(batches + [batch]) == Concat(batches) + batch
  {
    assert (batches + [batch])[..|batches|] == batches;
  }

  lemma SentBatched(w: Work, batches: seq<Batch>, pending: Batch)
    requires Batched(w, batches, pending)
    ensures Batched(Sent(w), batches + [pending], [])
    ensures Concat(batches + [pending]) + [] == Concat(batches) + pending
  {
    ConcatSnoc(batches, pending);
    var all := batches + [pending];
    forall i | 0 <= i < |all|
      ensures Sent(w).sent[i] == CopyText.EncodedRows(all[i])
    {
      assert i < |batches| ==> all[i] == batches[i];
    }
  }

  lemma RoomBatched(w: Work, batches: seq<Batch>, pending: Batch) returns (batches': seq<Batch>, pending': Batch)
    requires Batched(w, batches, pending)
    ensures Batched(WithRoom(w), batches', pending') && Concat(batches') + pending' == Concat(batches) + pending
  {
    batches', pending' := batches, pending;
    if |w.buffer| > CopyBufferSize - 2_000_000 {
      SentBatched(w, batches, pending);
      batches', pending' := batches + [pending], [];
    }
  }

  /** A record appends its row to the rows sent or pending; the buffer it is appended to is bounded. */
  lemma ClosedBatched(job: Job, w: Work, rec: Json, batches: seq<Batch>, pending: Batch)
    returns (batches': seq<Batch>, pending': Batch)
    requires job.pass.Load? && Batched(w, batches, pending)
    requires RowOf(job.build, job.columns, Cleansed(job.rules, rec, "")).Some?
    ensures
      var row := RowOf(job.build, job.columns, Cleansed(job.rules, rec, "")).value;
      && Batched(Closed(job, w, rec), batches', pending')
      && Concat(batches') + pending' == Concat(batches) + pending + [row]
      && |Closed(job, w, rec).buffer| <= 10_500_000 + |CopyText.EncodedRow(row)|
  {
    var row := RowOf(job.build, job.columns, Cleansed(job.rules, rec, "")).value;
    batches', pending' := RoomBatched(w, batches, pending);
    CopyText.EncodedRowsAppend(pending', [row]);
    assert [row][1..] == [] && CopyText.EncodedRows([row]) == CopyText.EncodedRow(row) + "";
    assert CopyText.EncodedRow(row) + "" == CopyText.EncodedRow(row);
    assert Concat(batches') + (pending' + [row]) == Concat(batches') + pending' + [row];
    pending' := pending' + [row];
  }

  ghost predicate AllLoad(job: Job, recs: seq<Json>) {
    forall i :: 0 <= i < |recs| ==> RowOf(job.build, job.columns, Cleansed(job.rules, recs[i], "")).Some?
  }

  function RowFor(job: Job, rec: Json): Option<CopyText.Row> {
    RowOf(job.build, job.columns, Cleansed(job.rules, rec, ""))
  }

  /** The row function mapped over the records. */
  ghost function RowsOf(job: Job, recs: seq<Json>): (rows: Batch)
    requires AllLoad(job, recs)
    ensures |rows| == |recs| && forall i :: 0 <= i < |recs| ==> RowFor(job, recs[i]) == Some(rows[i])
  {
    if recs == [] then []
    else
      assert forall i :: 0 <= i < |recs[1..]| ==> recs[1..][i] == recs[i + 1];
      [RowFor(job, recs[0]).value] + RowsOf(job, recs[1..])
  }

  lemma RowsOfAppend(job: Job, a: seq<Json>, b: seq<Json>)
    ensures AllLoad(job, a + b) <==> AllLoad(job, a) && AllLoad(job, b)
    ensures AllLoad(job, a + b) ==> RowsOf(job, a + b) == RowsOf(job, a) + RowsOf(job, b)
  {
    if AllLoad(job, a + b) {
      forall i | 0 <= i < |a|
        ensures RowOf(job.build, job.columns, Cleansed(job.rules, a[i], "")).Some?
      {
        assert (a + b)[i] == a[i];
      }
      forall i | 0 <= i < |b|
        ensures RowOf(job.build, job.columns, Cleansed(job.rules, b[i], "")).Some?
      {
        assert (a + b)[|a| + i] == b[i];
      }
    }
  }

  lemma RowsOfCons(job: Job, head: Json, tail: seq<Json>)
    ensures AllLoad(job, [head] + tail) <==> RowFor(job, head).Some? && AllLoad(job, tail)
    ensures AllLoad(job, [head] + tail) ==> RowsOf(job, [head] + tail) == [RowFor(job, head).value] + RowsOf(job, tail)
  {
    RowsOfAppend(job, [head], tail);
    if RowFor(job, head).Some? {
      assert AllLoad(job, [head]);
      assert RowsOf(job, [head]) == [RowFor(job, head).value];
    }
    assert AllLoad(job, [head]) ==> RowFor(job, [head][0]).Some?;
  }

  lemma Regroup(a: Batch, b: Batch, c: Batch)
    ensures (a + b) + c == a + (b + c)
  {
  }

  lemma {:induction false} ClosedAllBatched(job: Job, w: Work, recs: seq<Json>, batches: seq<Batch>, pending: Batch)
    returns (batches': seq<Batch>, pending': Batch)
    requires job.pass.Load? && Batched(w, batches, pending) && !w.thrown
    ensures ClosedAll(job, w, recs).thrown <==> !AllLoad(job, recs)
    ensures ClosedAll(job, w, recs).stats == w.stats
    ensures AllLoad(job, recs) ==> Batched(ClosedAll(job, w, recs), batches', pending')
    ensures AllLoad(job, recs) ==>
      Concat(batches') + pending' == (Concat(batches) + pending) + RowsOf(job, recs)
    decreases |recs|
  {
    batches', pending' := batches, pending;
    ghost var before := Concat(batches) + pending;
    if recs == [] {
      assert before + [] == before;
    } else {
      var head, tail := recs[0], recs[1..];
      assert recs == [head] + tail;
      RowsOfCons(job, head, tail);
      if RowFor(job, head).Some? {
        batches', pending' := ClosedBatched(job, w, head, batches, pending);
        batches', pending' := ClosedAllBatched(job, Closed(job, w, head), tail, batches', pending');
        if AllLoad(job, tail) {
          Regroup(before, [RowFor(job, head).value], RowsOf(job, tail));
        }
      }
    }
  }

  /** After a top-level array nothing is left in the buffer. */
  lemma ArrayBatched(job: Job, w: Work, v: Json, batches: seq<Batch>) returns (batches': seq<Batch>)
    requires job.pass.Load? && Batched(w, batches, []) && !w.thrown && v.Arr?
    ensures MemberWork(job, w, v).thrown <==> !AllLoad(job, Objects(v.elems))
    ensures MemberWork(job, w, v).stats == w.stats
    ensures AllLoad(job, Objects(v.elems)) ==>
      Batched(MemberWork(job, w, v), batches', []) &&
      Concat(batches') == Concat(batches) + RowsOf(job, Objects(v.elems))
  {
    var pending;
    batches', pending := ClosedAllBatched(job, w, Objects(v.elems), batches, []);
    var loaded := ClosedAll(job, w, Objects(v.elems));
    assert Concat(batches) + [] == Concat(batches);
    if AllLoad(job, Objects(v.elems)) {
      assert Concat(batches') + [] == Concat(batches');
      if loaded.recordCount > 0 {
        SentBatched(loaded, batches', pending);
        batches' := batches' + [pending];
        assert Concat(batches') + [] == Concat(batches');
      }
    }
  }

  // ---- Objects outside the arrays --------------------------------------------------------------

  /** No scalar in it, at any depth. */
  predicate Scalarless(v: Json) {
    match v
    case Arr(elems) => forall i :: 0 <= i < |elems| ==> Scalarless(elems[i])
    case Obj(members) => forall i :: 0 <= i < |members| ==> Scalarless(members[i].value)
    case _ => false
  }

  /** Null, or an object without scalars. */
  predicate IsHollow(v: Json) {
    v.Null? || (v.Obj? && Scalarless(v))
  }

  lemma {:induction false} SkeletonScalarless(v: Json)
    requires !v.Scalar() && Whole(v)
    ensures Scalarless(Skeleton(v))
    decreases v, 1
  {
    match v
    case Arr(elems) => ElemsScalarless(elems);
    case Obj(members) => MembersScalarless(members);
  }

  lemma {:induction false} ElemsScalarless(elems: seq<Json>)
    requires WholeElems(elems)
    ensures forall i :: 0 <= i < |SkeletonElems(elems)| ==> Scalarless(SkeletonElems(elems)[i])
    decreases elems, 0
  {
    if elems != [] {
      ElemsScalarless(elems[1..]);
      if !elems[0].Scalar() {
        SkeletonScalarless(elems[0]);
      }
    }
  }

  lemma {:induction false} MembersScalarless(ms: seq<Member>)
    requires WholeMembers(ms)
    ensures forall i :: 0 <= i < |ms| ==> Scalarless(SkeletonMembers(ms)[i].value)
    decreases ms, 0
  {
    if ms != [] {
      MembersScalarless(ms[1..]);
      SkeletonScalarless(ms[0].value);
    }
  }

  lemma {:induction false} InnerAreHollow(ms: seq<Member>)
    ensures forall i :: 0 <= i < |InnerObjects(ms)| ==> IsHollow(InnerObjects(ms)[i])
    ensures InnerObjects(ms) == [] <==> forall i :: 0 <= i < |ms| ==> !ms[i].value.Obj?
    decreases |ms|
  {
    if ms != [] {
      InnerAreHollow(ms[1..]);
      assert forall i :: 0 < i < |ms| ==> ms[i] == ms[1..][i - 1];
      if ms[0].value.Obj? && Whole(ms[0].value) {
        SkeletonScalarless(ms[0].value);
      }
    }
  }

  lemma HollowMember(r: Rules, v: Json, k: nat)
    requires v.Obj? && Scalarless(v) && Cleansed(r, v, "").Obj? && k < |Cleansed(r, v, "").members|
    ensures !Cleansed(r, v, "").members[k].value.Str?
  {
    OrderedScalarless(v, k);
    OrderedChild(v, k);
    assert Cleansed(r, v, "").members[k].value == CleansedChildren(r, v, "")[k];
  }

  lemma NoStringFound(doc: Json, name: string)
    requires doc.Obj? && '/' !in name && forall k :: 0 <= k < |doc.members| ==> !doc.members[k].value.Str?
    ensures Lookup(doc, name).Some? ==> !Lookup(doc, name).value.Str?
  {
  }

  lemma NoStringNoId(doc: Json)
    requires doc.Obj? && forall k :: 0 <= k < |doc.members| ==> !doc.members[k].value.Str?
    ensures IdOf(doc).None?
  {
    NoStringFound(doc, "id");
    NoStringFound(doc, "notificationId");
  }

  /** Pass 2 cannot load it: it has no id. */
  lemma HollowNeverLoads(job: Job, v: Json)
    requires IsHollow(v)
    ensures RowFor(job, v).None?
  {
    var doc := Cleansed(job.rules, v, "");
    if doc.Obj? {
      forall k | 0 <= k < |doc.members|
        ensures !doc.members[k].value.Str?
      {
        HollowMember(job.rules, v, k);
      }
      NoStringNoId(doc);
    }
  }

  lemma OrderedScalarless(v: Json, k: nat)
    requires Scalarless(v) && k < ChildCount(Ordered(v))
    ensures Scalarless(Child(Ordered(v), k))
  {
    if v.Obj? {
      SortedMembers(v.members);
      assert Sorted(v.members)[k] in v.members;
    }
  }

  /** Pass 1 counts nothing of it. */
  lemma {:induction false} ScalarlessUnobserved(r: Rules, v: Json, field: string, depth: nat, obj: bool)
    requires Scalarless(v) && (depth > 0 ==> field != "")
    ensures Observed(r, v, field, depth, obj) == []
    decreases v, 1, 0
  {
    if !r.Cuts(field) {
      ChildrenUnobserved(r, v, field, depth, ChildCount(Ordered(v)));
    }
  }

  lemma {:induction false} ChildrenUnobserved(r: Rules, v: Json, field: string, depth: nat, n: nat)
    requires Scalarless(v) && n <= ChildCount(Ordered(v))
    ensures ObservedBelow(r, v, field, depth, n) == []
    decreases v, 0, n
  {
    if n > 0 {
      ChildrenUnobserved(r, v, field, depth, n - 1);
      OrderedChild(v, n - 1);
      OrderedScalarless(v, n - 1);
      ScalarlessUnobserved(r, Child(Ordered(v), n - 1), field + "/" + ChildName(Ordered(v), n - 1), depth + 1, v.Obj?);
    }
  }

  lemma {:induction false} HollowsUnobserved(r: Rules, vs: seq<Json>)
    requires forall i :: 0 <= i < |vs| ==> IsHollow(vs[i])
    ensures AllObserved(r, vs) == []
    decreases |vs|
  {
    if vs != [] {
      HollowsUnobserved(r, vs[1..]);
      if vs[0].Obj? {
        ScalarlessUnobserved(r, vs[0], "", 0, true);
      }
    }
  }

  lemma {:induction false} ClosedObserved(r: Rules, ms: seq<Member>)
    ensures AllObserved(r, ClosedIn(ms)) == AllObserved(r, RecordsIn(ms))
    decreases |ms|
  {
    if ms != [] {
      var v := ms[0].value;
      var here := if v.Arr? then Objects(v.elems) else [];
      ClosedObserved(r, ms[1..]);
      AllObservedAppend(r, ClosedHere(v), ClosedIn(ms[1..]));
      AllObservedAppend(r, here, RecordsIn(ms[1..]));
      if v.Obj? {
        InnerAreHollow(v.members);
        HollowsUnobserved(r, InnerObjects(v.members));
      }
    }
  }

  predicate HoldsNone(ms: seq<Member>) {
    forall i :: 0 <= i < |ms| ==> !HoldsObject(ms[i].value)
  }

  lemma FirstLoads(job: Job, v: Json)
    ensures
      var here := if v.Arr? then Objects(v.elems) else [];
      (AllLoad(job, ClosedHere(v)) == (AllLoad(job, here) && !HoldsObject(v))) &&
      (!HoldsObject(v) ==> ClosedHere(v) == here)
  {
    if v.Obj? {
      InnerLoad(job, v);
    }
  }

  lemma {:induction false} ClosedLoad(job: Job, ms: seq<Member>)
    ensures AllLoad(job, ClosedIn(ms)) == (AllLoad(job, RecordsIn(ms)) && HoldsNone(ms))
    ensures HoldsNone(ms) ==> ClosedIn(ms) == RecordsIn(ms)
    decreases |ms|
  {
    if ms != [] {
      var v := ms[0].value;
      var here := if v.Arr? then Objects(v.elems) else [];
      ClosedLoad(job, ms[1..]);
      FirstLoads(job, v);
      RowsOfAppend(job, ClosedHere(v), ClosedIn(ms[1..]));
      RowsOfAppend(job, here, RecordsIn(ms[1..]));
      assert HoldsNone(ms) == (!HoldsObject(v) && HoldsNone(ms[1..])) by {
        assert forall i :: 0 < i < |ms| ==> ms[i] == ms[1..][i - 1];
      }
    }
  }

  lemma InnerLoad(job: Job, v: Json)
    requires v.Obj?
    ensures AllLoad(job, InnerObjects(v.members)) <==> !HoldsObject(v)
    ensures !HoldsObject(v) ==> InnerObjects(v.members) == []
  {
    InnerAreHollow(v.members);
    if InnerObjects(v.members) != [] {
      HollowNeverLoads(job, InnerObjects(v.members)[0]);
    }
  }

  // ---- Pages -----------------------------------------------------------------------------------

  lemma MemberBatched(job: Job, w: Work, v: Json, batches: seq<Batch>) returns (batches': seq<Batch>)
    requires job.pass.Load? && Batched(w, batches, []) && !w.thrown
    ensures MemberWork(job, w, v).thrown <==> !AllLoad(job, ClosedHere(v))
    ensures MemberWork(job, w, v).stats == w.stats
    ensures AllLoad(job, ClosedHere(v)) ==> Batched(MemberWork(job, w, v), batches', [])
    ensures AllLoad(job, ClosedHere(v)) ==> Concat(batches') == Concat(batches) + RowsOf(job, ClosedHere(v))
  {
    if v.Arr? {
      batches' := ArrayBatched(job, w, v, batches);
    } else {
      batches' := batches;
      assert Concat(batches) + [] == Concat(batches);
      if v.Obj? {
        var inner := InnerObjects(v.members);
        InnerAreHollow(v.members);
        if inner != [] {
          HollowNeverLoads(job, inner[0]);
          assert !AllLoad(job, inner);
        }
        var _, _ := ClosedAllBatched(job, w, inner, batches, []);
      }
    }
  }

  lemma {:induction false} PageBatched(job: Job, w: Work, ms: seq<Member>, batches: seq<Batch>) returns (batches': seq<Batch>)
    requires job.pass.Load? && Batched(w, batches, []) && !w.thrown
    ensures PageWork(job, w, ms).thrown <==> !AllLoad(job, ClosedIn(ms))
    ensures PageWork(job, w, ms).stats == w.stats
    ensures AllLoad(job, ClosedIn(ms)) ==> Batched(PageWork(job, w, ms), batches', [])
    ensures AllLoad(job, ClosedIn(ms)) ==> Concat(batches') == Concat(batches) + RowsOf(job, ClosedIn(ms))
    decreases |ms|
  {
    batches' := batches;
    if ms == [] {
      assert Concat(batches) + [] == Concat(batches);
    } else {
      var here, rest := ClosedHere(ms[0].value), ClosedIn(ms[1..]);
      var w' := MemberWork(job, w, ms[0].value);
      assert ClosedIn(ms) == here + rest;
      RowsOfAppend(job, here, rest);
      batches' := MemberBatched(job, w, ms[0].value, batches);
      if AllLoad(job, here) {
        batches' := PageBatched(job, w', ms[1..], batches');
        if AllLoad(job, rest) {
          Regroup(Concat(batches), RowsOf(job, here), RowsOf(job, rest));
        }
      }
    }
  }

  // ---- What the server receives ---------------------------------------------------------------

  /** The COPY stream: the chunks one after another. */
  function Stream(sent: seq<string>): string {
    if sent == [] then "" else Stream(sent[..|sent| - 1]) + sent[|sent| - 1]
  }

  lemma {:induction false} StreamOfBatches(sent: seq<string>, batches: seq<Batch>)
    requires |sent| == |batches| && forall i :: 0 <= i < |sent| ==> sent[i] == CopyText.EncodedRows(batches[i])
    ensures Stream(sent) == CopyText.EncodedRows(Concat(batches))
  {
    if sent != [] {
      var n := |sent| - 1;
      StreamOfBatches(sent[..n], batches[..n]);
      CopyText.EncodedRowsAppend(Concat(batches[..n]), batches[n]);
    }
  }

  lemma RowsNotEmpty(job: Job, recs: seq<Json>)
    requires AllLoad(job, recs)
    ensures forall i :: 0 <= i < |recs| ==> RowsOf(job, recs)[i] != []
  {
  }

  /** End to end for one page: the server decodes exactly one row per record, in order, and each chunk on its own
      holds whole rows. A record that cannot be loaded makes the page fail. */
  lemma PageStaged(job: Job, stats: Statistics, page: Json) returns (batches: seq<Batch>)
    requires job.pass.Load? && page.Obj? && Clean(page)
    ensures
      var w := Run(job, Fresh(stats), EventsOf(page)).work;
      && (w.thrown <==> !AllLoad(job, RecordsOf(page)) || HasInner(page))
      && w.stats == stats
      && (!w.thrown ==>
        && w.buffer == ""
        && CopyText.DecodedRows(Stream(w.sent)) == CopyText.Copied(RowsOf(job, RecordsOf(page)))
        && Concat(batches) == RowsOf(job, RecordsOf(page)) && |batches| == |w.sent|
        && forall i :: 0 <= i < |w.sent| ==> w.sent[i] == CopyText.EncodedRows(batches[i]))
  {
    RunPage(job, stats, page);
    batches := PageBatched(job, Fresh(stats).work, page.members, []);
    ClosedLoad(job, page.members);
    if AllLoad(job, ClosedIn(page.members)) {
      var rows := RowsOf(job, RecordsOf(page));
      assert [] + rows == rows;
      StreamOfBatches(PageWork(job, Fresh(stats).work, page.members).sent, batches);
      RowsNotEmpty(job, RecordsOf(page));
      CopyText.CopyRoundTrip(rows);
    }
  }

  /** A stream that breaks off inside an array, which the reader's caller does not notice, leaves the last rows in
      the buffer: nothing fails and nothing is sent. */
  lemma CutPageLosesRows(job: Job, stats: Statistics, name: string, rec: Json)
    requires job.pass.Load? && rec.Obj? && Clean(rec) && RowFor(job, rec).Some?
    ensures
      var cut := [StartObject, Key(name), StartArray] + EventsOf(rec);
      var w := Run(job, Fresh(stats), cut).work;
      !w.thrown && w.sent == [] && w.buffer == CopyText.EncodedRow(RowFor(job, rec).value)
  {
    var opening := [StartObject, Key(name), StartArray];
    RunOpening(job, stats, name);
    RunAppend(job, Fresh(stats), opening, EventsOf(rec));
    RunRecord(job, Run(job, Fresh(stats), opening), rec);
    ClosedFirst(job, Fresh(stats).work, rec);
  }

  lemma RunOpening(job: Job, stats: Statistics, name: string)
    ensures
      var st := Run(job, Fresh(stats), [StartObject, Key(name), StartArray]);
      AtRecord(st) && st.work == Fresh(stats).work
  {
    var opening := [StartObject, Key(name), StartArray];
    assert opening == [StartObject] + ([Key(name)] + [StartArray]);
    RunAppend(job, Fresh(stats), [StartObject], [Key(name)] + [StartArray]);
    RunOne(job, Fresh(stats), StartObject);
    var inside := Step(job, Fresh(stats), StartObject);
    RunAppend(job, inside, [Key(name)], [StartArray]);
    RunOne(job, inside, Key(name));
    RunOne(job, Step(job, inside, Key(name)), StartArray);
  }

  lemma ClosedFirst(job: Job, w: Work, rec: Json)
    requires job.pass.Load? && RowFor(job, rec).Some? && w.buffer == "" && w.sent == [] && !w.thrown
    ensures
      var c := Closed(job, w, rec);
      !c.thrown && c.sent == [] && c.buffer == CopyText.EncodedRow(RowFor(job, rec).value)
  {
    assert "" + CopyText.EncodedRow(RowFor(job, rec).value) == CopyText.EncodedRow(RowFor(job, rec).value);
  }

  // ---- Pass 1 ---------------------------------------------------------------------------------

  lemma {:induction false} ClosedAllCounts(job: Job, w: Work, recs: seq<Json>)
    requires job.pass.Analyze? && !w.thrown
    ensures ClosedAll(job, w, recs) == w.(stats := Tally(w.stats, AllObserved(job.rules, recs)))
    decreases |recs|
  {
    if recs != [] {
      TallyAppend(w.stats, Observed(job.rules, recs[0], "", 0, true), AllObserved(job.rules, recs[1..]));
      ClosedAllCounts(job, Closed(job, w, recs[0]), recs[1..]);
    }
  }

  lemma {:induction false} PageCounts(job: Job, w: Work, ms: seq<Member>)
    requires job.pass.Analyze? && !w.thrown
    ensures PageWork(job, w, ms) == w.(stats := Tally(w.stats, AllObserved(job.rules, ClosedIn(ms))))
    decreases |ms|
  {
    if ms != [] {
      var v := ms[0].value;
      var here := ClosedHere(v);
      ClosedAllCounts(job, w, here);
      PageCounts(job, MemberWork(job, w, v), ms[1..]);
      AllObservedAppend(job.rules, here, ClosedIn(ms[1..]));
      TallyAppend(w.stats, AllObserved(job.rules, here), AllObserved(job.rules, ClosedIn(ms[1..])));
    }
  }

  lemma PageAnalyzed(job: Job, stats: Statistics, page: Json)
    requires job.pass.Analyze? && page.Obj? && Clean(page)
    ensures
      var w := Run(job, Fresh(stats), EventsOf(page)).work;
      !w.thrown && w.sent == [] && w.stats == Tally(stats, AllObserved(job.rules, RecordsOf(page)))
  {
    RunPage(job, stats, page);
    PageCounts(job, Fresh(stats).work, page.members);
    ClosedObserved(job.rules, page.members);
  }

  // ---- The two passes -------------------------------------------------------------------------

  method StagePage(job: Job, events: seq<Event>, stats: StatisticsMap) returns (thrown: bool, sent: seq<string>)
    requires RunReady(job, Fresh(stats.counts), events)
    modifies stats
    ensures
      var w := Run(job, Fresh(old(stats.counts)), events).work;
      thrown == w.thrown && sent == w.sent && stats.counts == w.stats
  {
    var handler := new JSONHandler(job, stats);
    var i := 0;
    assert events[0..] == events;
    while i < |events| && !handler.thrown
      invariant i <= |events| && handler.job == job && handler.stats == stats
      invariant Run(job, handler.View(), events[i..]) == Run(job, Fresh(old(stats.counts)), events)
      invariant RunReady(job, handler.View(), events[i..])
    {
      assert events[i..][1..] == events[i + 1..];
      handler.Handle(events[i]);
      i := i + 1;
    }
    if handler.thrown {
      RunThrown(job, handler.View(), events[i..]);
    }
    thrown, sent := handler.thrown, handler.sent;
  }

  function TableRecords(pages: seq<Json>): seq<Json>
    requires forall i :: 0 <= i < |pages| ==> pages[i].Obj?
  {
    if pages == [] then [] else TableRecords(pages[..|pages| - 1]) + RecordsOf(pages[|pages| - 1])
  }

  ghost predicate Readable(pages: seq<Json>) {
    forall i :: 0 <= i < |pages| ==> pages[i].Obj? && Clean(pages[i])
  }

  /** Pass 1: statistics over all pages, then the columns. */
  method StageTable1(b: Build, rules: Rules, st: SourceType, pages: seq<Json>) returns (columns: seq<Column>)
    requires Readable(pages)
    ensures IsColumns(columns, Tally(map[], AllObserved(rules, TableRecords(pages))), st)
  {
    var stats := new StatisticsMap();
    var job := Job(b, Analyze, rules, []);
    var page := 0;
    while page < |pages|
      invariant page <= |pages|
      invariant stats.counts == Tally(map[], AllObserved(rules, TableRecords(pages[..page])))
    {
      RunPage(job, stats.counts, pages[page]);
      PageAnalyzed(job, stats.counts, pages[page]);
      var _, _ := StagePage(job, EventsOf(pages[page]), stats);
      assert pages[..page + 1][..page] == pages[..page];
      AllObservedAppend(rules, TableRecords(pages[..page]), RecordsOf(pages[page]));
      TallyAppend(map[], AllObserved(rules, TableRecords(pages[..page])), AllObserved(rules, RecordsOf(pages[page])));
      page := page + 1;
    }
    assert pages[..page] == pages;
    columns := BuildColumns(stats.counts, st);
  }

  /** On some page an object directly under it directly holds another one. */
  predicate SomeInner(pages: seq<Json>) {
    exists i :: 0 <= i < |pages| && HasInner(pages[i])
  }

  lemma InnerSnoc(pages: seq<Json>, page: nat)
    requires page < |pages|
    ensures SomeInner(pages[..page + 1]) == (SomeInner(pages[..page]) || HasInner(pages[page]))
    ensures SomeInner(pages[..page + 1]) ==> SomeInner(pages)
  {
    var before, after := pages[..page], pages[..page + 1];
    assert after == before + [pages[page]];
    if SomeInner(after) {
      var i :| 0 <= i < |after| && HasInner(after[i]);
      assert after[i] == pages[i] && (i < page ==> before[i] == pages[i]);
    }
    if SomeInner(before) {
      var i :| 0 <= i < |before| && HasInner(before[i]);
      assert after[i] == before[i];
    }
    assert after[page] == pages[page];
  }

  /** What one more page adds, or that it cannot be loaded. */
  lemma NextPage(job: Job, stats: Statistics, pages: seq<Json>, page: nat)
    requires job.pass.Load? && Readable(pages) && page < |pages| && AllLoad(job, TableRecords(pages[..page]))
    ensures RunReady(job, Fresh(stats), EventsOf(pages[page]))
    ensures
      var w := Run(job, Fresh(stats), EventsOf(pages[page])).work;
      && (w.thrown <==> !AllLoad(job, TableRecords(pages[..page + 1])) || HasInner(pages[page]))
      && (!w.thrown ==>
          CopyText.DecodedRows(Stream(w.sent)).Copied? &&
          RowsOf(job, TableRecords(pages[..page + 1])) ==
            RowsOf(job, TableRecords(pages[..page])) + CopyText.DecodedRows(Stream(w.sent)).rows)
  {
    RunPage(job, stats, pages[page]);
    var batches := PageStaged(job, stats, pages[page]);
    assert pages[..page + 1][..page] == pages[..page];
    RowsOfAppend(job, TableRecords(pages[..page]), RecordsOf(pages[page]));
  }

  /** Pass 2: every page is sent as one COPY stream, which the server decodes. */
  method StageTable2(job: Job, pages: seq<Json>) returns (ok: bool, rows: Batch)
    requires job.pass.Load? && Readable(pages)
    ensures ok <==> AllLoad(job, TableRecords(pages)) && !SomeInner(pages)
    ensures ok ==> rows == RowsOf(job, TableRecords(pages))
  {
    var stats := new StatisticsMap();
    ok, rows := true, [];
    var page := 0;
    while page < |pages|
      invariant page <= |pages|
      invariant !SomeInner(pages[..page])
      invariant AllLoad(job, TableRecords(pages[..page])) && rows == RowsOf(job, TableRecords(pages[..page]))
    {
      NextPage(job, stats.counts, pages, page);
      InnerSnoc(pages, page);
      var thrown, sent := StagePage(job, EventsOf(pages[page]), stats);
      if thrown {
        if !HasInner(pages[page]) {
          TablePrefix(job, pages, page + 1);
        }
        return false, [];
      }
      rows := rows + CopyText.DecodedRows(Stream(sent)).rows;
      page := page + 1;
    }
    assert pages[..page] == pages;
  }

  lemma {:induction false} TablePrefix(job: Job, pages: seq<Json>, n: nat)
    requires Readable(pages) && n <= |pages| && !AllLoad(job, TableRecords(pages[..n]))
    ensures !AllLoad(job, TableRecords(pages))
    decreases |pages| - n
  {
    if n == |pages| {
      assert pages[..n] == pages;
    } else {
      assert pages[..n + 1][..n] == pages[..n];
      RowsOfAppend(job, TableRecords(pages[..n]), RecordsOf(pages[n]));
      TablePrefix(job, pages, n + 1);
    }
  }

  /** Both passes. The loading table exists unless its column names are refused. */
  method StageTable(b: Build, rules: Rules, st: SourceType, pages: seq<Json>)
    returns (ok: bool, columns: seq<Column>, rows: Batch)
    requires Readable(pages)
    ensures IsColumns(columns, Tally(map[], AllObserved(rules, TableRecords(pages))), st)
    ensures ok <==>
      Creatable(LoadingColumns(columns)) && AllLoad(Job(b, Load, rules, columns), TableRecords(pages)) && !SomeInner(pages)
    ensures ok ==> rows == RowsOf(Job(b, Load, rules, columns), TableRecords(pages))
  {
    columns := StageTable1(b, rules, st, pages);
    if !Creatable(LoadingColumns(columns)) {
      return false, columns, [];
    }
    ok, rows := StageTable2(Job(b, Load, rules, columns), pages);
  }

  // ---- The data field -------------------------------------------------------------------------

  /** The data field, when present, is JSON for the processed record itself. */
  lemma DataReadsBack(b: Build, columns: seq<Column>, doc: Json)
    requires RowOf(b, columns, doc).Some?
    ensures
      var row := RowOf(b, columns, doc).value;
      row[|row| - 1].Value? ==> JsonText.ParseDocument(false, row[|row| - 1].text) == JsonText.Done(doc, "")
  {
    RowIdAndData(b, columns, doc);
    DataIsJson(doc);
  }

  lemma DataIsJson(doc: Json)
    ensures DataOf(doc).Value? ==> JsonText.ParseDocument(false, DataOf(doc).text) == JsonText.Done(doc, "")
  {
    JsonText.DocumentRoundTrip(JsonText.Pretty, doc);
    JsonText.DocumentRoundTrip(JsonText.Compact, doc);
  }
}
