/** Streams that break off: stage_page ignores what the reader returns, so a page may end at any event. */
module CutPages {
  import opened JsonTree
  import opened TypeStats
  import opened Events
  import opened Staging
  import opened Pages
  import opened Loading
  import CopyText

  /** What a look at the stream alone tells: the nesting level, how many records were closed, and how many of them
      since the end of the last top-level array. */
  datatype Scan = Scan(level: int, closed: nat, inArray: nat)

  const Start := Scan(0, 0, 0)

  function ScanEvent(s: Scan, e: Event): Scan {
    match e
    case StartObject => s.(level := s.level + 1)
    case StartArray => s.(level := s.level + 1)
    case EndObject =>
      if s.level == 3 then Scan(s.level - 1, s.closed + 1, s.inArray + 1) else s.(level := s.level - 1)
    case EndArray => if s.level == 2 then Scan(s.level - 1, s.closed, 0) else s.(level := s.level - 1)
    case _ => s
  }

  function ScanAll(s: Scan, es: seq<Event>): Scan
    decreases |es|
  {
    if es == [] then s else ScanAll(ScanEvent(s, es[0]), es[1..])
  }

  predicate NonEmpty(rows: Batch) {
    forall i :: 0 <= i < |rows| ==> rows[i] != []
  }

  /** The rows sent and pending are as many as the records closed, and rows are pending exactly if a record was
      closed since the end of the last top-level array. */
  ghost predicate Tracks(st: State, s: Scan, batches: seq<Batch>, pending: Batch) {
    && !st.work.thrown && st.level == s.level
    && Batched(st.work, batches, pending)
    && |Concat(batches)| + |pending| == s.closed
    && |pending| <= s.inArray && (pending == [] <==> s.inArray == 0)
    && NonEmpty(Concat(batches)) && NonEmpty(pending)
  }

  lemma RoomTracked(w: Work, batches: seq<Batch>, pending: Batch) returns (batches': seq<Batch>, pending': Batch)
    requires Batched(w, batches, pending) && NonEmpty(Concat(batches)) && NonEmpty(pending)
    ensures Batched(WithRoom(w), batches', pending') && Concat(batches') + pending' == Concat(batches) + pending
    ensures |pending'| <= |pending| && NonEmpty(Concat(batches')) && NonEmpty(pending')
  {
    batches', pending' := batches, pending;
    if |w.buffer| > CopyBufferSize - 2_000_000 {
      SentBatched(w, batches, pending);
      ConcatSnoc(batches, pending);
      batches', pending' := batches + [pending], [];
    }
  }

  lemma RowAppended(job: Job, w: Work, doc: Json, batches: seq<Batch>, pending: Batch)
    requires job.pass.Load? && Batched(WithRoom(w), batches, pending) && RowFor(job, doc).Some?
    ensures Batched(Closed(job, w, doc), batches, pending + [RowFor(job, doc).value])
  {
    var row := RowFor(job, doc).value;
    CopyText.EncodedRowsAppend(pending, [row]);
    assert [row][1..] == [] && CopyText.EncodedRows([row]) == CopyText.EncodedRow(row) + "";
    assert CopyText.EncodedRow(row) + "" == CopyText.EncodedRow(row);
  }

  /** A record closed without an exception becomes a pending row. */
  lemma ClosedTracked(job: Job, w: Work, doc: Json, batches: seq<Batch>, pending: Batch)
    returns (batches': seq<Batch>, pending': Batch)
    requires job.pass.Load? && !w.thrown && !Closed(job, w, doc).thrown
    requires Batched(w, batches, pending) && NonEmpty(Concat(batches)) && NonEmpty(pending)
    ensures RowFor(job, doc).Some? && Batched(Closed(job, w, doc), batches', pending')
    ensures Concat(batches') + pending' == Concat(batches) + pending + [RowFor(job, doc).value]
    ensures 0 < |pending'| <= |pending| + 1 && NonEmpty(Concat(batches')) && NonEmpty(pending')
  {
    var row := RowFor(job, doc).value;
    batches', pending' := RoomTracked(w, batches, pending);
    RowAppended(job, w, doc, batches', pending');
    Regroup(Concat(batches'), pending', [row]);
    NonEmptySnoc(pending', row);
    pending' := pending' + [row];
  }

  lemma NonEmptySnoc(rows: Batch, row: CopyText.Row)
    requires NonEmpty(rows) && row != []
    ensures NonEmpty(rows + [row])
  {
  }

  lemma SentTracked(w: Work, batches: seq<Batch>, pending: Batch)
    requires Batched(w, batches, pending) && NonEmpty(Concat(batches)) && NonEmpty(pending)
    ensures Batched(Sent(w), batches + [pending], []) && NonEmpty(Concat(batches + [pending]))
    ensures Concat(batches + [pending]) == Concat(batches) + pending
  {
    SentBatched(w, batches, pending);
    ConcatSnoc(batches, pending);
  }

  lemma StepTracked(job: Job, st: State, e: Event, s: Scan, batches: seq<Batch>, pending: Batch)
    returns (batches': seq<Batch>, pending': Batch, added: Batch)
    requires job.pass.Load? && Tracks(st, s, batches, pending) && !Step(job, st, e).work.thrown
    ensures Tracks(Step(job, st, e), ScanEvent(s, e), batches', pending')
    ensures Concat(batches') + pending' == Concat(batches) + pending + added
  {
    batches', pending', added := batches, pending, [];
    assert Concat(batches) + pending + [] == Concat(batches) + pending;
    if e.EndObject? && st.level == 3 {
      var doc := ParsedRecord(st.record + "}");
      batches', pending' := ClosedTracked(job, st.work, doc, batches, pending);
      added := [RowFor(job, doc).value];
      assert |Concat(batches') + pending'| == |Concat(batches) + pending| + 1;
    } else if e.EndArray? && st.level == 2 {
      if st.work.recordCount > 0 {
        SentTracked(st.work, batches, pending);
        batches', pending' := batches + [pending], [];
        assert Concat(batches') + [] == Concat(batches');
      }
    }
  }

  lemma {:induction false} RunTracked(job: Job, st: State, es: seq<Event>, s: Scan, batches: seq<Batch>, pending: Batch)
    returns (batches': seq<Batch>, pending': Batch, added: Batch)
    requires job.pass.Load? && Tracks(st, s, batches, pending) && !Run(job, st, es).work.thrown
    ensures Tracks(Run(job, st, es), ScanAll(s, es), batches', pending')
    ensures Concat(batches') + pending' == Concat(batches) + pending + added
    decreases |es|
  {
    batches', pending', added := batches, pending, [];
    assert Concat(batches) + pending + [] == Concat(batches) + pending;
    if es != [] {
      var next := Step(job, st, es[0]);
      if next.work.thrown {
        RunThrown(job, next, es[1..]);
      }
      var first, rest;
      batches', pending', first := StepTracked(job, st, es[0], s, batches, pending);
      batches', pending', rest := RunTracked(job, next, es[1..], ScanEvent(s, es[0]), batches', pending');
      added := first + rest;
      Regroup(Concat(batches) + pending, first, rest);
    }
  }

  lemma FreshTracked(stats: Statistics)
    ensures Tracks(Fresh(stats), Start, [], [])
  {
  }

  lemma PendingIffBuffer(pending: Batch)
    ensures CopyText.EncodedRows(pending) == "" <==> pending == []
  {
  }

  /** The rows of a stream that was tracked to its end, as the server reads them. */
  lemma TrackedDecodes(w: Work, batches: seq<Batch>, pending: Batch)
    requires Batched(w, batches, pending) && NonEmpty(Concat(batches))
    ensures CopyText.DecodedRows(Stream(w.sent)) == CopyText.Copied(Concat(batches))
    ensures w.buffer == "" <==> pending == []
  {
    StreamOfBatches(w.sent, batches);
    CopyText.CopyRoundTrip(Concat(batches));
    PendingIffBuffer(pending);
  }

  lemma PrefixDoesNotThrow(job: Job, stats: Statistics, es: seq<Event>, n: nat)
    requires n <= |es| && !Run(job, Fresh(stats), es).work.thrown
    ensures !Run(job, Fresh(stats), es[..n]).work.thrown
    ensures Run(job, Fresh(stats), es) == Run(job, Run(job, Fresh(stats), es[..n]), es[n..])
  {
    assert es == es[..n] + es[n..];
    RunAppend(job, Fresh(stats), es[..n], es[n..]);
    if Run(job, Fresh(stats), es[..n]).work.thrown {
      RunThrown(job, Run(job, Fresh(stats), es[..n]), es[n..]);
    }
  }

  /** The rows tracked over a whole page are the rows of its records. */
  lemma WholePage(job: Job, stats: Statistics, page: Json, batches: seq<Batch>, pending: Batch, s: Scan)
    requires job.pass.Load? && page.Obj? && !HasInner(page) && Clean(page) && AllLoad(job, RecordsOf(page))
    requires Tracks(Run(job, Fresh(stats), EventsOf(page)), s, batches, pending)
    ensures Concat(batches) + pending == RowsOf(job, RecordsOf(page))
  {
    var staged := PageStaged(job, stats, page);
    TrackedDecodes(Run(job, Fresh(stats), EventsOf(page)).work, batches, pending);
    assert Concat(batches) + [] == Concat(batches);
  }

  lemma RowsOfFirst(job: Job, recs: seq<Json>, n: nat)
    requires AllLoad(job, recs) && n <= |recs|
    ensures AllLoad(job, recs[..n]) && RowsOf(job, recs[..n]) == RowsOf(job, recs)[..n]
  {
    assert recs == recs[..n] + recs[n..];
    RowsOfAppend(job, recs[..n], recs[n..]);
  }

  /** A page that breaks off after any number of its events, while the whole of it would load: nothing is thrown; the rows
      sent and the rows left in the buffer are those of the records closed so far; and the server gets them all if
      and only if no record was closed since the end of the last top-level array. */
  lemma CutPageLosesRowsIff(job: Job, stats: Statistics, page: Json, n: nat) returns (batches: seq<Batch>, lost: Batch)
    requires job.pass.Load? && page.Obj? && !HasInner(page) && Clean(page) && AllLoad(job, RecordsOf(page))
    requires n <= |EventsOf(page)|
    ensures
      var w, s := Run(job, Fresh(stats), EventsOf(page)[..n]).work, ScanAll(Start, EventsOf(page)[..n]);
      && !w.thrown && s.closed <= |RecordsOf(page)| && AllLoad(job, RecordsOf(page)[..s.closed])
      && CopyText.DecodedRows(Stream(w.sent)) == CopyText.Copied(Concat(batches))
      && w.buffer == CopyText.EncodedRows(lost)
      && Concat(batches) + lost == RowsOf(job, RecordsOf(page)[..s.closed])
      && (lost == [] <==> s.inArray == 0) && |lost| <= s.inArray
  {
    var events := EventsOf(page);
    var staged := PageStaged(job, stats, page);
    PrefixDoesNotThrow(job, stats, events, n);
    FreshTracked(stats);
    var none, added;
    batches, lost, none := RunTracked(job, Fresh(stats), events[..n], Start, [], []);
    var cut, s := Run(job, Fresh(stats), events[..n]), ScanAll(Start, events[..n]);
    TrackedDecodes(cut.work, batches, lost);
    var all, rest;
    all, rest, added := RunTracked(job, cut, events[n..], s, batches, lost);
    WholePage(job, stats, page, all, rest, ScanAll(s, events[n..]));
    assert (Concat(batches) + lost)[..s.closed] == Concat(batches) + lost;
    assert RowsOf(job, RecordsOf(page))[..s.closed] == Concat(batches) + lost;
    RowsOfFirst(job, RecordsOf(page), s.closed);
  }
}
