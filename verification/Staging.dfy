/** src/stage.cpp: JSONHandler cuts a page into records; pass 1 counts them, pass 2 writes them as COPY text in
    batches. */
module Staging {
  import opened CStrings
  import opened JsonTree
  import opened TypeStats
  import opened Records
  import opened Rows
  import opened Events
  import CopyText
  import JsonText

  // ---- The machine ----------------------------------------------------------------------------

  const CopyBufferSize := 12_500_000

  datatype Pass = Analyze | Load

  datatype Job = Job(build: Build, pass: Pass, rules: Rules, columns: seq<Column>)

  /** What leaves the handler: statistics, the copy buffer, and the chunks already sent. */
  datatype Work = Work(stats: Statistics, recordCount: nat, buffer: string, sent: seq<string>, thrown: bool)

  datatype State = State(level: int, active: bool, record: string, work: Work)

  function Sent(w: Work): Work {
    w.(sent := w.sent + [w.buffer], buffer := "")
  }

  /** Room is made before a row is appended. */
  function WithRoom(w: Work): (r: Work)
    ensures |r.buffer| <= CopyBufferSize - 2_000_000
  {
    if |w.buffer| > CopyBufferSize - 2_000_000 then Sent(w).(recordCount := 0) else w
  }

  /** The work of one record that has been read. */
  function Closed(job: Job, w: Work, doc: Json): Work {
    match job.pass
    case Analyze => w.(stats := Tally(w.stats, Observed(job.rules, doc, "", 0, true)))
    case Load =>
      var r := WithRoom(w);
      match RowOf(job.build, job.columns, Cleansed(job.rules, doc, ""))
      case None => r.(thrown := true)
      case Some(row) =>
        r.(buffer := r.buffer + CopyText.EncodedRow(row), recordCount := r.recordCount + 1)
  }

  lemma ClosedAfterRoom(job: Job, w: Work, rec: Json)
    requires job.pass.Load?
    ensures
      var r, row := WithRoom(w), RowOf(job.build, job.columns, Cleansed(job.rules, rec, ""));
      Closed(job, w, rec) ==
        if row.None? then r.(thrown := true)
        else r.(buffer := r.buffer + CopyText.EncodedRow(row.value), recordCount := r.recordCount + 1)
  {
  }

  function ArrayEnded(job: Job, w: Work): Work {
    if w.recordCount > 0 && job.pass.Load? then Sent(w) else w
  }

  /** The document a record text denotes; null when it does not parse. */
  function ParsedRecord(record: string): Json {
    match JsonText.ParseDocument(true, record)
    case Fail => Null
    case Done(v, _) => v
  }

  function Appended(st: State, text: string): State {
    if st.active && st.level > 2 then st.(record := st.record + (text + ",")) else st
  }

  /** The state after one event; nothing happens after an exception. */
  function Step(job: Job, st: State, e: Event): State {
    if st.work.thrown then st
    else
      match e
      case StartObject =>
        State(st.level + 1, st.active,
              if st.level == 2 then "{" else if st.level > 2 then st.record + "{" else st.record, st.work)
      case EndObject =>
        if st.level == 3 then
          var record := st.record + "}";
          var w := Closed(job, st.work, ParsedRecord(record));
          State(if w.thrown then st.level else st.level - 1, st.active, record, w)
        else
          State(st.level - 1, st.active, if st.level > 3 then st.record + "}," else st.record, st.work)
      case StartArray =>
        State(st.level + 1, st.active || st.level == 1, if st.level > 1 then st.record + "[" else st.record, st.work)
      case EndArray =>
        if st.level == 2 then State(st.level - 1, false, st.record, ArrayEnded(job, st.work))
        else State(st.level - 1, st.active, if st.level > 2 then st.record + "]," else st.record, st.work)
      case Key(name) => st.(record := st.record + ("\"" + JsonText.Escaped(CStr(name)) + "\"" + ":"))
      case StringValue(s) => Appended(st, "\"" + JsonText.Escaped(CStr(s)) + "\"")
      case IntValue(i) => Appended(st, JsonText.Text(JsonText.Handler, 0, Int(i)))
      case DoubleValue(m) => Appended(st, JsonText.Text(JsonText.Handler, 0, Dec(m)))
      case BoolValue(b) => Appended(st, if b then "true" else "false")
      case NullValue => Appended(st, "null")
  }

  function Run(job: Job, st: State, es: seq<Event>): State
    decreases |es|
  {
    if es == [] then st else Run(job, Step(job, st, es[0]), es[1..])
  }

  /** The record closed by this event, if any, has clean names. */
  predicate StepReady(st: State, e: Event) {
    e.EndObject? && st.level == 3 && !st.work.thrown ==> Clean(ParsedRecord(st.record + "}"))
  }

  predicate RunReady(job: Job, st: State, es: seq<Event>)
    decreases |es|
  {
    es == [] || (StepReady(st, es[0]) && RunReady(job, Step(job, st, es[0]), es[1..]))
  }

  // ---- The handler ----------------------------------------------------------------------------

  class JSONHandler {
    const job: Job
    const stats: StatisticsMap
    var level: int
    var active: bool
    var record: string
    var recordCount: nat
    var copyBuffer: string
    var sent: seq<string>
    var thrown: bool

    constructor (job: Job, stats: StatisticsMap)
      ensures this.job == job && this.stats == stats
      ensures View() == State(0, false, "", Work(stats.counts, 0, "", [], false))
    {
      this.job := job;
      this.stats := stats;
      level, active, record, recordCount, copyBuffer, sent, thrown := 0, false, "", 0, "", [], false;
    }

    ghost function View(): State
      reads this, stats
    {
      State(level, active, record, Work(stats.counts, recordCount, copyBuffer, sent, thrown))
    }

    method StartObject()
      requires !thrown
      modifies this
      ensures View() == Step(job, old(View()), Event.StartObject)
    {
      if level == 2 {
        record := "{";
      } else {
        if level > 2 {
          record := record + "{";
        }
      }
      level := level + 1;
    }

    method EndCopyBatch()
      modifies this
      ensures View() == old(View()).(work := Sent(old(View()).work))
    {
      sent := sent + [copyBuffer];
      copyBuffer := "";
    }

    /** Pass 2 for a processed record. */
    method LoadRecord(ghost rec: Json, doc: Json)
      requires !thrown && job.pass.Load? && doc == Cleansed(job.rules, rec, "")
      modifies this
      ensures View() == old(View()).(work := Closed(job, old(View()).work, rec))
    {
      if |copyBuffer| > CopyBufferSize - 2_000_000 {
        EndCopyBatch();
        recordCount := 0;
      }
      ghost var roomed := View();
      assert roomed == old(View()).(work := WithRoom(old(View()).work));
      ClosedAfterRoom(job, old(View()).work, rec);
      var ok, out := WriteTuple(job.build, job.columns, doc, copyBuffer);
      if ok {
        copyBuffer := out;
        recordCount := recordCount + 1;
      } else {
        thrown := true;
      }
    }

    /** Parses, processes and, in pass 2, writes the record. */
    method CloseRecord()
      requires !thrown && Clean(ParsedRecord(record))
      modifies this, stats
      ensures View() == old(View()).(work := Closed(job, old(View()).work, ParsedRecord(record)))
    {
      var doc := new Document(ParsedRecord(record));
      doc.ProcessRecord(job.rules, job.pass.Analyze?, stats);
      if job.pass.Load? {
        LoadRecord(ParsedRecord(record), doc.root);
      }
    }

    method EndObject()
      requires !thrown && StepReady(View(), Event.EndObject)
      modifies this, stats
      ensures View() == Step(job, old(View()), Event.EndObject)
    {
      if level == 3 {
        record := record + "}";
        CloseRecord();
        if thrown {
          return;
        }
      } else {
        if level > 3 {
          record := record + "},";
        }
      }
      level := level - 1;
    }

    method StartArray()
      requires !thrown
      modifies this
      ensures View() == Step(job, old(View()), Event.StartArray)
    {
      if level == 1 {
        active := true;
      } else {
        if level > 1 {
          record := record + "[";
        }
      }
      level := level + 1;
    }

    method EndArray()
      requires !thrown
      modifies this
      ensures View() == Step(job, old(View()), Event.EndArray)
    {
      if level == 2 {
        active := false;
        if recordCount > 0 {
          if job.pass.Load? {
            EndCopyBatch();
          }
        }
      } else {
        if level > 2 {
          record := record + "],";
        }
      }
      level := level - 1;
    }

    method Key(name: string)
      requires !thrown
      modifies this
      ensures View() == Step(job, old(View()), Event.Key(name))
    {
      var before := record;
      record := record + "\"";
      var encStr := JsonText.EncodeJson(name, "");
      assert "" + JsonText.Escaped(CStr(name)) == JsonText.Escaped(CStr(name));
      record := record + encStr;
      record := record + ("\"" + ":");
      Assoc(before + "\"", encStr, "\"" + ":");
      Assoc(before, "\"", encStr + ("\"" + ":"));
      Assoc("\"", encStr, "\"" + ":");
      Assoc("\"" + encStr, "\"", ":");
    }

    method AppendScalar(text: string)
      requires !thrown
      modifies this
      ensures View() == Appended(old(View()), text)
    {
      if active && level > 2 {
        record := record + (text + ",");
      }
    }

    method String(s: string)
      requires !thrown
      modifies this
      ensures View() == Step(job, old(View()), StringValue(s))
    {
      var encStr := JsonText.EncodeJson(s, "");
      assert "" + JsonText.Escaped(CStr(s)) == JsonText.Escaped(CStr(s));
      AppendScalar("\"" + encStr + "\"");
    }

    /** One event from the reader. */
    method Handle(e: Event)
      requires !thrown && StepReady(View(), e)
      modifies this, stats
      ensures View() == Step(job, old(View()), e)
    {
      match e
      case StartObject => StartObject();
      case EndObject => EndObject();
      case StartArray => StartArray();
      case EndArray => EndArray();
      case Key(name) => Key(name);
      case StringValue(s) => String(s);
      case IntValue(i) => AppendScalar(JsonText.Text(JsonText.Handler, 0, Int(i)));
      case DoubleValue(m) => AppendScalar(JsonText.Text(JsonText.Handler, 0, Dec(m)));
      case BoolValue(b) => AppendScalar(if b then "true" else "false");
      case NullValue => AppendScalar("null");
    }
  }
}
