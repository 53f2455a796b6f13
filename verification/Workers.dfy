/** The fork/wait loop of run_update (src/update.cpp): one worker stages a table while the next table is extracted,
    and each table's extraction files are deleted by the parent. */
module Workers {
  import opened Wrappers

  /** How a worker process ends. */
  datatype Ending = Exited | Killed

  datatype Extraction = FoundData | NoData | ExtractionThrew

  datatype Staging = Completed | Refused | StagingThrew

  /** What happens to one table. `stale` is what the uninitialized wait status says when the process waited for has
      already been reaped; `canLog` says whether the exception handlers can open their log connection. */
  datatype Table = Table(selected: bool, setupThrows: bool, anonymized: bool, extraction: Extraction, forks: bool,
                         ending: Ending, stale: bool, staging: Staging, canLog: bool)

  datatype Options = Options(parallelUpdate: bool, oneTable: bool, extractOnly: bool) {
    predicate Forking() {
      parallelUpdate && !oneTable
    }
  }

  /** Events, by the number of the table; Stage is stage_merge in the process itself. */
  datatype Event =
    Allocate(table: nat) | Fork(table: nat) | Stage(table: nat) | Reap(table: nat) | Delete(table: nat)

  type Trace = seq<Event>

  /** Workers forked and not yet reaped. */
  function Running(t: Trace): set<nat> {
    if t == [] then {}
    else
      var before, e := Running(t[..|t| - 1]), t[|t| - 1];
      if e.Fork? then before + {e.table} else if e.Reap? then before - {e.table} else before
  }

  // ---- The loop --------------------------------------------------------------------------------

  /** The loop's variables: the worker (a table number, or none), the files it reads, and what has happened. */
  datatype State = State(worker: Option<nat>, workerFiles: Option<nat>, trace: Trace)

  function Did(s: State, e: Event): State {
    s.(trace := s.trace + [e])
  }

  /** wait_stage_merge: whether the worker exited normally, and the state after the wait. */
  function Waited(s: State, tables: seq<Table>, stale: bool): (State, bool)
    requires s.worker.Some? ==> s.worker.value < |tables|
  {
    if s.worker.None? then (s, true)
    else if s.worker.value in Running(s.trace) then
      (Did(s, Reap(s.worker.value)), tables[s.worker.value].ending.Exited?)
    else (s, stale)
  }

  function Released(s: State): State {
    if s.workerFiles.Some? then Did(s, Delete(s.workerFiles.value)).(workerFiles := None) else s
  }

  /** Waiting for the previous worker before a fork. */
  function Joined(s: State, tables: seq<Table>, stale: bool): State
    requires s.worker.Some? ==> s.worker.value < |tables|
  {
    var (waited, exited) := Waited(s, tables, stale);
    if exited && s.worker.Some? then Released(waited).(worker := None) else waited
  }

  /** Whether table t reaches the point where its data are staged. */
  predicate Stages(o: Options, t: Table) {
    t.selected && !t.setupThrows && !t.anonymized && t.extraction.FoundData? && !o.extractOnly
  }

  predicate Allocates(t: Table) {
    t.selected && !t.setupThrows && !t.anonymized
  }

  function AfterTable(o: Options, tables: seq<Table>, s: State, i: nat): State
    requires i < |tables| && (s.worker.Some? ==> s.worker.value < |tables|)
  {
    var t := tables[i];
    if !Allocates(t) then s
    else
      var a := Did(s, Allocate(i));
      if t.extraction.ExtractionThrew? then a
      else if t.extraction.NoData? || o.extractOnly then Did(a, Delete(i))
      else if o.Forking() then
        var joined := Joined(a, tables, t.stale);
        if t.forks then State(Some(i), Some(i), joined.trace + [Fork(i)]) else joined
      else
        var staged := Did(a, Stage(i));
        if t.staging.StagingThrew? then staged else Did(staged, Delete(i))
  }

  /** Whether an exception is thrown while the table is processed. */
  predicate Throws(o: Options, t: Table) {
    t.selected &&
    (t.setupThrows ||
     (!t.anonymized &&
      (t.extraction.ExtractionThrew? ||
       (Stages(o, t) && if o.Forking() then !t.forks else t.staging.StagingThrew?))))
  }

  function AfterTables(o: Options, tables: seq<Table>, n: nat): (s: State)
    requires n <= |tables|
    ensures s.worker.Some? ==> s.worker.value < n
  {
    if n == 0 then State(None, None, []) else AfterTable(o, tables, AfterTables(o, tables, n - 1), n - 1)
  }

  /** The wait after the loop. */
  function Final(o: Options, tables: seq<Table>, s: State): State
    requires s.worker.Some? ==> s.worker.value < |tables|
  {
    if o.parallelUpdate then Released(Waited(s, tables, false).0) else s
  }

  class UpdateLoop {
    var workerPid: nat
    var workerExtFiles: Option<nat>
    var trace: Trace

    constructor ()
      ensures View() == State(None, None, [])
    {
      workerPid, workerExtFiles, trace := 0, None, [];
    }

    /** Process numbers start at 1. */
    ghost function View(): State
      reads this
    {
      State(if workerPid == 0 then None else Some(workerPid - 1), workerExtFiles, trace)
    }

    method WaitStageMerge(tables: seq<Table>, stale: bool) returns (exited: bool)
      requires workerPid <= |tables|
      modifies this`trace
      ensures (View(), exited) == Waited(old(View()), tables, stale)
    {
      if workerPid > 0 {
        if workerPid - 1 in Running(trace) {
          trace := trace + [Reap(workerPid - 1)];
          return tables[workerPid - 1].ending.Exited?;
        }
        return stale;
      }
      return true;
    }

    method DeleteWorkerFiles()
      modifies this`trace, this`workerExtFiles
      ensures View() == Released(old(View()))
    {
      if workerExtFiles.Some? {
        trace := trace + [Delete(workerExtFiles.value)];
        workerExtFiles := None;
      }
    }

    /** One table; an exception that cannot be logged leaves the loop. */
    method UpdateTable(o: Options, tables: seq<Table>, i: nat) returns (goesOn: bool)
      requires i < |tables| && workerPid <= i
      modifies this
      ensures View() == AfterTable(o, tables, old(View()), i) && workerPid <= i + 1
      ensures goesOn <==> !Throws(o, tables[i]) || tables[i].canLog
    {
      var table := tables[i];
      if !table.selected {
        return true;
      }
      if table.setupThrows {
        return table.canLog;
      }
      if table.anonymized {
        return true;
      }
      trace := trace + [Allocate(i)];
      if table.extraction.ExtractionThrew? {
        return table.canLog;
      }
      if table.extraction.NoData? || o.extractOnly {
        trace := trace + [Delete(i)];
        return true;
      }
      if o.parallelUpdate && !o.oneTable {
        var exited := WaitStageMerge(tables, table.stale);
        if exited && workerPid != 0 {
          DeleteWorkerFiles();
          workerPid := 0;
        }
        if !table.forks {
          return table.canLog;
        }
        trace := trace + [Fork(i)];
        workerPid := i + 1;
        workerExtFiles := Some(i);
      } else {
        trace := trace + [Stage(i)];
        if table.staging.StagingThrew? {
          return table.canLog;
        }
        trace := trace + [Delete(i)];
      }
      return true;
    }
  }

  /** The whole loop: finished is false when an exception leaves it. */
  method RunUpdate(o: Options, tables: seq<Table>) returns (finished: bool, trace: Trace)
    ensures finished <==> forall i :: 0 <= i < |tables| && Throws(o, tables[i]) ==> tables[i].canLog
    ensures finished ==> trace == Final(o, tables, AfterTables(o, tables, |tables|)).trace
    ensures !finished ==> exists n :: 0 <= n <= |tables| && trace == AfterTables(o, tables, n).trace
  {
    var process := new UpdateLoop();
    var i := 0;
    while i < |tables|
      invariant i <= |tables| && process.workerPid <= i
      invariant process.View() == AfterTables(o, tables, i)
      invariant forall k :: 0 <= k < i && Throws(o, tables[k]) ==> tables[k].canLog
    {
      var goesOn := process.UpdateTable(o, tables, i);
      if !goesOn {
        assert process.trace == AfterTables(o, tables, i + 1).trace;
        return false, process.trace;
      }
      i := i + 1;
    }
    if o.parallelUpdate {
      var _ := process.WaitStageMerge(tables, false);
      process.DeleteWorkerFiles();
    }
    return true, process.trace;
  }

  // ---- Safety ----------------------------------------------------------------------------------

  /** A fork needs its files and no other worker, and so does staging in the process itself; files are deleted once,
      after their worker was reaped. */
  predicate Allowed(t: Trace, e: Event) {
    && (e.Allocate? ==> e !in t)
    && (e.Fork? || e.Stage? ==> Running(t) == {} && Allocate(e.table) in t && Delete(e.table) !in t)
    && (e.Reap? ==> e.table in Running(t))
    && (e.Delete? ==> e.table !in Running(t) && Allocate(e.table) in t && e !in t)
  }

  predicate Safe(t: Trace) {
    forall k :: 0 <= k < |t| ==> Allowed(t[..k], t[k])
  }

  lemma SafeSnoc(t: Trace, e: Event)
    requires Safe(t) && Allowed(t, e)
    ensures Safe(t + [e])
    ensures Running(t + [e]) ==
      if e.Fork? then Running(t) + {e.table} else if e.Reap? then Running(t) - {e.table} else Running(t)
  {
    var u := t + [e];
    assert u[..|t|] == t;
    forall k | 0 <= k < |u|
      ensures Allowed(u[..k], u[k])
    {
      if k < |t| {
        assert u[..k] == t[..k] && u[k] == t[k];
      }
    }
  }

  /** At most one worker is alive, and its files are still there. */
  ghost predicate AtMostOne(t: Trace) {
    |Running(t)| <= 1 && forall k :: k in Running(t) ==> Delete(k) !in t
  }

  lemma OneWorkerStep(t: Trace, e: Event)
    requires AtMostOne(t) && Allowed(t, e)
    ensures AtMostOne(t + [e])
  {
    assert (t + [e])[..|t|] == t;
    if e.Fork? {
      assert Running(t + [e]) == {e.table};
    } else if e.Reap? {
      SingletonSet(Running(t), e.table);
      assert Running(t + [e]) == {};
    } else {
      assert Running(t + [e]) == Running(t);
    }
  }

  /** At any moment of a safe trace at most one worker is alive, and its files are still there. */
  lemma {:induction false} OneWorkerAtATime(t: Trace, n: nat)
    requires Safe(t) && n <= |t|
    ensures AtMostOne(t[..n])
    decreases n
  {
    if n > 0 {
      OneWorkerAtATime(t, n - 1);
      assert t[..n] == t[..n - 1] + [t[n - 1]];
      OneWorkerStep(t[..n - 1], t[n - 1]);
    }
  }

  lemma SingletonSet(s: set<nat>, k: nat)
    requires |s| <= 1 && k in s
    ensures s == {k}
  {
    assert |s - {k}| == 0;
  }

  // ---- Which files are deleted -----------------------------------------------------------------

  /** The files of a worker that was killed are lost if another worker is forked before they are released. */
  predicate Lost(o: Options, tables: seq<Table>, j: nat, reaped: bool)
    requires j <= |tables|
    decreases |tables| - j
  {
    if j == |tables| then false
    else if !Stages(o, tables[j]) then Lost(o, tables, j + 1, reaped)
    else if reaped && tables[j].stale then false
    else if tables[j].forks then true
    else Lost(o, tables, j + 1, true)
  }

  predicate Leaks(o: Options, tables: seq<Table>, i: nat)
    requires i < |tables|
  {
    var t := tables[i];
    t.extraction.ExtractionThrew? ||
    (Stages(o, t) &&
     if o.Forking() then !t.forks || (t.ending.Killed? && Lost(o, tables, i + 1, false))
     else t.staging.StagingThrew?)
  }

  /** Tables before j: files are allocated as they should be, and deleted unless leaked; the worker's are open. */
  ghost predicate PastFine(o: Options, tables: seq<Table>, t: Trace, worker: Option<nat>, j: nat)
    requires j <= |tables|
  {
    && (forall k :: 0 <= k < j ==> (Allocate(k) in t <==> Allocates(tables[k])))
    && (forall k :: 0 <= k < j && Allocates(tables[k]) && worker != Some(k) ==>
        (Delete(k) in t <==> !Leaks(o, tables, k)))
  }

  /** Between two tables: the trace is safe, and every set of files allocated is deleted or leaked, except the
      worker's, whose fate is still open. */
  ghost predicate Settled(o: Options, tables: seq<Table>, s: State, j: nat)
    requires j <= |tables|
  {
    && Safe(s.trace)
    && s.worker == s.workerFiles
    && (s.worker.Some? ==> o.Forking() && Open(o, tables, s, j, s.worker.value))
    && (forall k :: k in Running(s.trace) ==> s.worker == Some(k))
    && (forall e :: e in s.trace ==> e.table < j)
    && PastFine(o, tables, s.trace, s.worker, j)
  }

  ghost predicate Open(o: Options, tables: seq<Table>, s: State, j: nat, w: nat)
    requires j <= |tables|
  {
    && w < j && Allocate(w) in s.trace && Delete(w) !in s.trace
    && (w !in Running(s.trace) ==> tables[w].ending.Killed?)
    && (Leaks(o, tables, w) <==> tables[w].ending.Killed? && Lost(o, tables, j, w !in Running(s.trace)))
  }

  /** The same while table i is processed: its files are allocated and not deleted. */
  ghost predicate Settling(o: Options, tables: seq<Table>, s: State, i: nat)
    requires i < |tables|
  {
    && Safe(s.trace)
    && s.worker == s.workerFiles
    && (s.worker.Some? ==> o.Forking() && Open(o, tables, s, i, s.worker.value))
    && (forall k :: k in Running(s.trace) ==> s.worker == Some(k))
    && (forall e :: e in s.trace ==> e.table <= i)
    && Allocates(tables[i]) && Allocate(i) in s.trace && Delete(i) !in s.trace
    && PastFine(o, tables, s.trace, s.worker, i)
  }

  lemma PastAfter(o: Options, tables: seq<Table>, t: Trace, worker: Option<nat>, j: nat, e: Event)
    requires j <= |tables| && PastFine(o, tables, t, worker, j)
    requires e.Fork? || e.Reap? || e.Stage? || e.table >= j
    ensures PastFine(o, tables, t + [e], worker, j)
  {
    forall k | 0 <= k < j
      ensures Allocate(k) in t + [e] <==> Allocate(k) in t
      ensures Delete(k) in t + [e] <==> Delete(k) in t
    {
    }
  }

  lemma PastAfterRelease(o: Options, tables: seq<Table>, t: Trace, w: nat, j: nat)
    requires w < j <= |tables| && PastFine(o, tables, t, Some(w), j) && !Leaks(o, tables, w)
    ensures PastFine(o, tables, t + [Delete(w)], None, j)
  {
    forall k | 0 <= k < j && Allocates(tables[k])
      ensures Delete(k) in t + [Delete(w)] <==> !Leaks(o, tables, k)
    {
      assert k != w ==> (Delete(k) in t + [Delete(w)] <==> Delete(k) in t);
    }
  }

  lemma PastExtends(o: Options, tables: seq<Table>, t: Trace, worker: Option<nat>, i: nat)
    requires i < |tables| && PastFine(o, tables, t, worker, i)
    requires Allocates(tables[i]) && Allocate(i) in t && (Delete(i) in t <==> !Leaks(o, tables, i))
    ensures PastFine(o, tables, t, worker, i + 1)
  {
  }

  lemma StartTable(o: Options, tables: seq<Table>, s: State, i: nat)
    requires i < |tables| && Settled(o, tables, s, i) && Allocates(tables[i])
    ensures Settling(o, tables, Did(s, Allocate(i)), i)
  {
    SafeSnoc(s.trace, Allocate(i));
    PastAfter(o, tables, s.trace, s.worker, i, Allocate(i));
    if s.worker.Some? {
      OpenKept(o, tables, s, i, s.worker.value);
    }
  }

  lemma OpenKept(o: Options, tables: seq<Table>, s: State, i: nat, w: nat)
    requires i < |tables| && Open(o, tables, s, i, w)
    ensures Open(o, tables, Did(s, Allocate(i)), i, w)
  {
    var t := s.trace + [Allocate(i)];
    assert t[..|t| - 1] == s.trace;
    assert Running(t) == Running(s.trace);
    assert Allocate(w) in t && Delete(w) !in t;
  }

  lemma SkipTable(o: Options, tables: seq<Table>, s: State, i: nat)
    requires i < |tables| && Settled(o, tables, s, i) && !Allocates(tables[i])
    ensures Settled(o, tables, s, i + 1)
  {
  }

  /** The table's files are leaked, without touching the worker. */
  lemma LeakTable(o: Options, tables: seq<Table>, s: State, i: nat)
    requires i < |tables| && Settling(o, tables, s, i) && Leaks(o, tables, i)
    requires s.worker.Some? ==>
      Lost(o, tables, i, s.worker.value !in Running(s.trace)) == Lost(o, tables, i + 1, s.worker.value !in Running(s.trace))
    ensures Settled(o, tables, s, i + 1)
  {
    PastExtends(o, tables, s.trace, s.worker, i);
  }

  /** An event about a later table keeps the fate of the worker's files open. */
  lemma OpenAfter(o: Options, tables: seq<Table>, s: State, i: nat, w: nat)
    requires i < |tables| && !Stages(o, tables[i]) && Open(o, tables, s, i, w)
    ensures Open(o, tables, Did(s, Delete(i)), i + 1, w)
  {
    var t := s.trace + [Delete(i)];
    assert t[..|t| - 1] == s.trace;
    assert Running(t) == Running(s.trace);
    assert Allocate(w) in t && Delete(w) !in t;
    var reaped := w !in Running(s.trace);
    assert Lost(o, tables, i, reaped) == Lost(o, tables, i + 1, reaped);
  }

  /** The table's files are deleted by the parent, without touching the worker. */
  lemma DeleteTable(o: Options, tables: seq<Table>, s: State, i: nat)
    requires i < |tables| && Settling(o, tables, s, i) && !Leaks(o, tables, i)
    requires s.worker.Some? ==> !Stages(o, tables[i])
    ensures Settled(o, tables, Did(s, Delete(i)), i + 1)
  {
    var t := s.trace + [Delete(i)];
    assert i !in Running(s.trace) by {
      assert s.worker.Some? ==> s.worker.value < i;
    }
    SafeSnoc(s.trace, Delete(i));
    PastAfter(o, tables, s.trace, s.worker, i, Delete(i));
    PastExtends(o, tables, t, s.worker, i);
    if s.worker.Some? {
      OpenAfter(o, tables, s, i, s.worker.value);
    }
  }

  /** Files of a reaped worker are released. */
  lemma ReleaseWorker(o: Options, tables: seq<Table>, s: State, i: nat)
    requires i < |tables| && s.worker == s.workerFiles && s.worker.Some? && s.worker.value < i
    requires Safe(s.trace) && Running(s.trace) == {}
    requires Allocate(s.worker.value) in s.trace && Delete(s.worker.value) !in s.trace
    requires forall e :: e in s.trace ==> e.table <= i
    requires Allocates(tables[i]) && Allocate(i) in s.trace && Delete(i) !in s.trace
    requires PastFine(o, tables, s.trace, s.worker, i) && !Leaks(o, tables, s.worker.value)
    ensures Settling(o, tables, Released(s).(worker := None), i)
  {
    SafeSnoc(s.trace, Delete(s.worker.value));
    PastAfterRelease(o, tables, s.trace, s.worker.value, i);
  }

  /** What a fork finds. */
  ghost predicate Ready(o: Options, tables: seq<Table>, s: State, i: nat)
    requires i < |tables|
  {
    if s.worker.None? then Settling(o, tables, s, i) else Waiting(o, tables, s, i)
  }

  lemma ReapWorker(o: Options, tables: seq<Table>, s: State, i: nat)
    requires i < |tables| && Settling(o, tables, s, i) && s.worker.Some? && Stages(o, tables[i])
    requires s.worker.value in Running(s.trace)
    ensures
      var w, reaped := s.worker.value, Did(s, Reap(s.worker.value));
      && w !in Running(reaped.trace)
      && (tables[w].ending.Exited? ==> Settling(o, tables, Released(reaped).(worker := None), i))
      && (tables[w].ending.Killed? ==> Waiting(o, tables, reaped, i))
  {
    var w := s.worker.value;
    var reaped := Did(s, Reap(w));
    SafeSnoc(s.trace, Reap(w));
    PastAfter(o, tables, s.trace, s.worker, i, Reap(w));
    assert Allocate(w) in reaped.trace && Delete(w) !in reaped.trace && Delete(i) !in reaped.trace;
    assert Running(reaped.trace) == {};
    if tables[w].ending.Exited? {
      ReleaseWorker(o, tables, reaped, i);
    }
  }

  /** A killed worker still holds its files when the next worker is due. */
  ghost predicate Waiting(o: Options, tables: seq<Table>, s: State, i: nat)
    requires i < |tables|
  {
    && Safe(s.trace) && o.Forking()
    && s.worker == s.workerFiles && s.worker.Some? && s.worker.value < i
    && Running(s.trace) == {} && tables[s.worker.value].ending.Killed?
    && Allocates(tables[s.worker.value]) && Delete(s.worker.value) !in s.trace
    && (Leaks(o, tables, s.worker.value) <==> tables[i].forks || Lost(o, tables, i + 1, true))
    && (forall e :: e in s.trace ==> e.table <= i)
    && Allocates(tables[i]) && Allocate(i) in s.trace && Delete(i) !in s.trace
    && PastFine(o, tables, s.trace, s.worker, i)
  }

  lemma JoinedIs(s: State, tables: seq<Table>, stale: bool)
    requires s.worker.Some? && s.worker.value < |tables| && s.worker == s.workerFiles
    ensures
      var running := s.worker.value in Running(s.trace);
      var reaped := if running then Did(s, Reap(s.worker.value)) else s;
      Joined(s, tables, stale) ==
        if (if running then tables[s.worker.value].ending.Exited? else stale)
        then Released(reaped).(worker := None) else reaped
  {
  }

  lemma JoinWorker(o: Options, tables: seq<Table>, s: State, i: nat)
    requires i < |tables| && Settling(o, tables, s, i) && Stages(o, tables[i]) && o.Forking()
    ensures Ready(o, tables, Joined(s, tables, tables[i].stale), i)
  {
    if s.worker.Some? {
      JoinedIs(s, tables, tables[i].stale);
      if s.worker.value in Running(s.trace) {
        ReapWorker(o, tables, s, i);
      } else {
        JoinReaped(o, tables, s, i);
      }
    }
  }

  lemma JoinReaped(o: Options, tables: seq<Table>, s: State, i: nat)
    requires i < |tables| && Settling(o, tables, s, i) && Stages(o, tables[i]) && o.Forking()
    requires s.worker.Some? && s.worker.value !in Running(s.trace)
    ensures tables[i].stale ==> Settling(o, tables, Released(s).(worker := None), i)
    ensures !tables[i].stale ==> Waiting(o, tables, s, i)
  {
    assert Running(s.trace) == {};
    var w := s.worker.value;
    if tables[i].stale {
      assert !Lost(o, tables, i, true);
      ReleaseWorker(o, tables, s, i);
    } else {
      assert Lost(o, tables, i, true) <==> tables[i].forks || Lost(o, tables, i + 1, true);
    }
  }

  /** A worker that is replaced before it was released has leaked its files. */
  lemma ReadyToFork(o: Options, tables: seq<Table>, s: State, i: nat)
    requires i < |tables| && tables[i].forks && Ready(o, tables, s, i)
    ensures Running(s.trace) == {} && Safe(s.trace)
    ensures PastFine(o, tables, s.trace, None, i)
    ensures Allocates(tables[i]) && Allocate(i) in s.trace && Delete(i) !in s.trace
    ensures forall e :: e in s.trace ==> e.table <= i
  {
    if s.worker.Some? {
      assert Leaks(o, tables, s.worker.value);
    }
  }

  lemma ForkWorker(o: Options, tables: seq<Table>, s: State, i: nat)
    requires i < |tables| && Stages(o, tables[i]) && o.Forking() && tables[i].forks
    requires Ready(o, tables, s, i)
    ensures Settled(o, tables, State(Some(i), Some(i), s.trace + [Fork(i)]), i + 1)
  {
    ReadyToFork(o, tables, s, i);
    SafeSnoc(s.trace, Fork(i));
    PastAfter(o, tables, s.trace, None, i, Fork(i));
    ForkOpens(o, tables, s.trace, i);
  }

  lemma ForkOpens(o: Options, tables: seq<Table>, t: Trace, i: nat)
    requires i < |tables| && Stages(o, tables[i]) && o.Forking() && tables[i].forks
    requires Allocate(i) in t && Delete(i) !in t && PastFine(o, tables, t + [Fork(i)], None, i)
    requires i in Running(t + [Fork(i)])
    ensures Open(o, tables, State(Some(i), Some(i), t + [Fork(i)]), i + 1, i)
    ensures PastFine(o, tables, t + [Fork(i)], Some(i), i + 1)
  {
    assert Allocate(i) in t + [Fork(i)];
  }

  lemma ForkFails(o: Options, tables: seq<Table>, s: State, i: nat)
    requires i < |tables| && Stages(o, tables[i]) && o.Forking() && !tables[i].forks
    requires Ready(o, tables, s, i)
    ensures Settled(o, tables, s, i + 1)
  {
    assert Leaks(o, tables, i);
  }

  lemma TableStep(o: Options, tables: seq<Table>, s: State, i: nat)
    requires i < |tables| && Settled(o, tables, s, i)
    ensures Settled(o, tables, AfterTable(o, tables, s, i), i + 1)
  {
    var t := tables[i];
    if !Allocates(t) {
      SkipTable(o, tables, s, i);
    } else {
      var a := Did(s, Allocate(i));
      StartTable(o, tables, s, i);
      if t.extraction.ExtractionThrew? {
        LeakTable(o, tables, a, i);
      } else if t.extraction.NoData? || o.extractOnly {
        DeleteTable(o, tables, a, i);
      } else if o.Forking() {
        JoinWorker(o, tables, a, i);
        if t.forks {
          ForkWorker(o, tables, Joined(a, tables, t.stale), i);
        } else {
          ForkFails(o, tables, Joined(a, tables, t.stale), i);
        }
      } else {
        StageTable(o, tables, a, i);
        if t.staging.StagingThrew? {
          LeakTable(o, tables, Did(a, Stage(i)), i);
        } else {
          DeleteTable(o, tables, Did(a, Stage(i)), i);
        }
      }
    }
  }

  /** The process stages the table itself. */
  lemma StageTable(o: Options, tables: seq<Table>, s: State, i: nat)
    requires i < |tables| && Settling(o, tables, s, i) && !o.Forking()
    ensures Settling(o, tables, Did(s, Stage(i)), i)
  {
    assert Running(s.trace) == {};
    SafeSnoc(s.trace, Stage(i));
    PastAfter(o, tables, s.trace, s.worker, i, Stage(i));
  }

  lemma NothingToSettle(o: Options, tables: seq<Table>)
    ensures Settled(o, tables, State(None, None, []), 0)
  {
  }

  lemma {:induction false} AlwaysSettled(o: Options, tables: seq<Table>, n: nat)
    requires n <= |tables|
    ensures Settled(o, tables, AfterTables(o, tables, n), n)
  {
    if n == 0 {
      NothingToSettle(o, tables);
    } else {
      AlwaysSettled(o, tables, n - 1);
      TableStep(o, tables, AfterTables(o, tables, n - 1), n - 1);
    }
  }

  // ---- The protocol ----------------------------------------------------------------------------

  /** The worker that is left after the loop has been reaped. */
  lemma FinalReap(o: Options, tables: seq<Table>, s: State)
    requires Settled(o, tables, s, |tables|) && s.worker.Some?
    ensures
      var t, w := Waited(s, tables, false).0.trace, s.worker.value;
      && Safe(t) && Running(t) == {} && Allocate(w) in t && Delete(w) !in t && !Leaks(o, tables, w)
      && PastFine(o, tables, t, Some(w), |tables|)
  {
    var w := s.worker.value;
    if w in Running(s.trace) {
      SafeSnoc(s.trace, Reap(w));
      PastAfter(o, tables, s.trace, s.worker, |tables|, Reap(w));
    }
  }

  lemma FinalRelease(o: Options, tables: seq<Table>, t: Trace, w: nat)
    requires Safe(t) && Running(t) == {} && Allocate(w) in t && Delete(w) !in t
    requires w < |tables| && !Leaks(o, tables, w) && PastFine(o, tables, t, Some(w), |tables|)
    ensures Safe(t + [Delete(w)]) && Running(t + [Delete(w)]) == {}
    ensures PastFine(o, tables, t + [Delete(w)], None, |tables|)
  {
    SafeSnoc(t, Delete(w));
    PastAfterRelease(o, tables, t, w, |tables|);
  }

  lemma FinalWait(o: Options, tables: seq<Table>, s: State)
    requires Settled(o, tables, s, |tables|)
    ensures
      var t := Final(o, tables, s).trace;
      && Safe(t) && Running(t) == {} && PastFine(o, tables, t, None, |tables|)
  {
    if s.worker.Some? {
      FinalReap(o, tables, s);
      FinalRelease(o, tables, Waited(s, tables, false).0.trace, s.worker.value);
    }
  }

  /** Whatever happens to the tables, at every moment at most one worker runs and its files are there; when the loop
      finishes no worker runs, and a set of files has been deleted, once, unless it leaked. */
  lemma WorkerProtocol(o: Options, tables: seq<Table>, n: nat, moment: nat)
    requires n <= |tables|
    ensures
      var t := AfterTables(o, tables, n).trace;
      Safe(t) && (moment <= |t| ==> AtMostOne(t[..moment]))
    ensures
      var t := Final(o, tables, AfterTables(o, tables, |tables|)).trace;
      && Safe(t) && (moment <= |t| ==> AtMostOne(t[..moment]))
      && Running(t) == {}
      && forall i :: 0 <= i < |tables| && Allocates(tables[i]) ==> (Delete(i) in t <==> !Leaks(o, tables, i))
  {
    AlwaysSettled(o, tables, n);
    var t := AfterTables(o, tables, n).trace;
    if moment <= |t| {
      OneWorkerAtATime(t, moment);
    }
    AlwaysSettled(o, tables, |tables|);
    FinalWait(o, tables, AfterTables(o, tables, |tables|));
    var u := Final(o, tables, AfterTables(o, tables, |tables|)).trace;
    if moment <= |u| {
      OneWorkerAtATime(u, moment);
    }
  }

  predicate FaultFree(t: Table) {
    !t.setupThrows && !t.extraction.ExtractionThrew? && t.forks && t.ending.Exited? && !t.staging.StagingThrew?
  }

  /** On a fault-free run each set of files is deleted exactly once. */
  lemma FaultFreeDeletesOnce(o: Options, tables: seq<Table>, i: nat)
    requires forall k :: 0 <= k < |tables| ==> FaultFree(tables[k])
    requires i < |tables| && Allocates(tables[i])
    ensures
      var t := Final(o, tables, AfterTables(o, tables, |tables|)).trace;
      exists k :: 0 <= k < |t| && t[k] == Delete(i) && forall l :: 0 <= l < |t| && t[l] == Delete(i) ==> l == k
  {
    WorkerProtocol(o, tables, 0, 0);
    var t := Final(o, tables, AfterTables(o, tables, |tables|)).trace;
    assert !Leaks(o, tables, i);
    var k :| 0 <= k < |t| && t[k] == Delete(i);
    DeletedOnce(t);
  }

  lemma DeletedOnce(t: Trace)
    requires Safe(t)
    ensures forall k, l :: 0 <= k < l < |t| && t[k].Delete? ==> t[l] != t[k]
  {
    forall k, l | 0 <= k < l < |t| && t[k].Delete?
      ensures t[l] != t[k]
    {
      assert t[..l][k] == t[k];
      assert Allowed(t[..l], t[l]);
    }
  }

  /** A worker that is killed, and another one forked before its files are released, leak them: the wait for the next
      worker sees a killed one, and the wait after the loop is for the second. */
  lemma KilledWorkerLeaks(o: Options, a: Table, b: Table)
    requires o.Forking() && Stages(o, a) && Stages(o, b) && a.forks && b.forks && a.ending.Killed?
    ensures
      var tables := [a, b];
      var t := Final(o, tables, AfterTables(o, tables, 2)).trace;
      && Leaks(o, tables, 0) && Allocate(0) in t && Delete(0) !in t && Running(t) == {}
  {
    var tables := [a, b];
    assert Lost(o, tables, 1, false);
    WorkerProtocol(o, tables, 0, 0);
    AlwaysSettled(o, tables, 2);
    FinalKeepsAllocated(o, tables, AfterTables(o, tables, 2), 0);
  }

  lemma FinalKeepsAllocated(o: Options, tables: seq<Table>, s: State, k: nat)
    requires s.worker.Some? ==> s.worker.value < |tables|
    requires Allocate(k) in s.trace
    ensures Allocate(k) in Final(o, tables, s).trace
  {
  }

  // ---- Every table with data is staged ---------------------------------------------------------

  /** How the data of table i are staged: in a worker, or in the process itself. */
  function Work(o: Options, i: nat): Event {
    if o.parallelUpdate && !o.oneTable then Fork(i) else Stage(i)
  }

  /** The table has data to stage, and a worker can be forked if it takes one. */
  predicate Staged(o: Options, t: Table) {
    && t.selected && !t.setupThrows && !t.anonymized && t.extraction == FoundData && !o.extractOnly
    && (o.parallelUpdate && !o.oneTable ==> t.forks)
  }

  predicate IsWork(e: Event) {
    e.Fork? || e.Stage?
  }

  function WorkOf(t: Trace): Trace {
    if t == [] then []
    else WorkOf(t[..|t| - 1]) + (if IsWork(t[|t| - 1]) then [t[|t| - 1]] else [])
  }

  /** The first n tables that are to be staged, in order. */
  function Expected(o: Options, tables: seq<Table>, n: nat): Trace
    requires n <= |tables|
  {
    if n == 0 then []
    else Expected(o, tables, n - 1) + (if Staged(o, tables[n - 1]) then [Work(o, n - 1)] else [])
  }

  lemma WorkSnoc(t: Trace, e: Event)
    ensures WorkOf(t + [e]) == if IsWork(e) then WorkOf(t) + [e] else WorkOf(t)
  {
    assert (t + [e])[..|t|] == t;
  }

  lemma ReleasedWork(s: State)
    ensures WorkOf(Released(s).trace) == WorkOf(s.trace)
  {
    if s.workerFiles.Some? {
      WorkSnoc(s.trace, Delete(s.workerFiles.value));
    }
  }

  lemma WaitedWork(s: State, tables: seq<Table>, stale: bool)
    requires s.worker.Some? ==> s.worker.value < |tables|
    ensures WorkOf(Waited(s, tables, stale).0.trace) == WorkOf(s.trace)
  {
    if s.worker.Some? {
      WorkSnoc(s.trace, Reap(s.worker.value));
    }
  }

  lemma TableWork(o: Options, tables: seq<Table>, s: State, i: nat)
    requires i < |tables| && (s.worker.Some? ==> s.worker.value < |tables|)
    ensures WorkOf(AfterTable(o, tables, s, i).trace) ==
      WorkOf(s.trace) + (if Staged(o, tables[i]) then [Work(o, i)] else [])
  {
    var a, t := Did(s, Allocate(i)), tables[i];
    WorkSnoc(s.trace, Allocate(i));
    if Stages(o, t) {
      if o.Forking() {
        var joined := Joined(a, tables, t.stale).trace;
        JoinedWork(a, tables, t.stale);
        WorkSnoc(joined, Fork(i));
        assert WorkOf(joined) + [] == WorkOf(joined);
      } else {
        WorkSnoc(a.trace, Stage(i));
        WorkSnoc(Did(a, Stage(i)).trace, Delete(i));
      }
    } else {
      WorkSnoc(a.trace, Delete(i));
      assert WorkOf(s.trace) + [] == WorkOf(s.trace);
    }
  }

  lemma JoinedWork(s: State, tables: seq<Table>, stale: bool)
    requires s.worker.Some? ==> s.worker.value < |tables|
    ensures WorkOf(Joined(s, tables, stale).trace) == WorkOf(s.trace)
  {
    WaitedWork(s, tables, stale);
    ReleasedWork(Waited(s, tables, stale).0);
  }

  /** The tables staged are those that have data, in their order. */
  lemma {:induction false} TracesStage(o: Options, tables: seq<Table>, n: nat)
    requires n <= |tables|
    ensures WorkOf(AfterTables(o, tables, n).trace) == Expected(o, tables, n)
    ensures n == |tables| ==> WorkOf(Final(o, tables, AfterTables(o, tables, n)).trace) == Expected(o, tables, n)
  {
    if n > 0 {
      TracesStage(o, tables, n - 1);
      TableWork(o, tables, AfterTables(o, tables, n - 1), n - 1);
    }
    if n == |tables| {
      var s := AfterTables(o, tables, n);
      WaitedWork(s, tables, false);
      ReleasedWork(Waited(s, tables, false).0);
    }
  }

  predicate InTableOrder(work: Trace) {
    forall k, l :: 0 <= k < l < |work| ==> work[k].table < work[l].table
  }

  lemma {:induction false} ExpectedHas(o: Options, tables: seq<Table>, n: nat, i: nat)
    requires n <= |tables|
    ensures Work(o, i) in Expected(o, tables, n) <==> i < n && Staged(o, tables[i])
    ensures forall e :: e in Expected(o, tables, n) ==> e.table < n && e == Work(o, e.table)
    ensures InTableOrder(Expected(o, tables, n))
  {
    if n > 0 {
      ExpectedHas(o, tables, n - 1, i);
    }
  }

  lemma {:induction false} WorkHas(t: Trace)
    ensures forall e :: e in WorkOf(t) <==> e in t && IsWork(e)
    decreases |t|
  {
    if t != [] {
      var before := t[..|t| - 1];
      assert t == before + [t[|t| - 1]];
      WorkHas(before);
    }
  }

  predicate OrderedWork(t: Trace) {
    forall k, l :: 0 <= k < l < |t| && IsWork(t[k]) && IsWork(t[l]) ==> t[k].table < t[l].table
  }

  lemma OneMoreInOrder(before: Trace, e: Event)
    requires OrderedWork(before) && InTableOrder(WorkOf(before + [e]))
    ensures OrderedWork(before + [e])
  {
    var t, work := before + [e], WorkOf(before);
    WorkSnoc(before, e);
    WorkHas(before);
    forall k | 0 <= k < |before| && IsWork(t[k]) && IsWork(e)
      ensures t[k].table < e.table
    {
      assert before[k] in work;
      var j :| 0 <= j < |work| && work[j] == before[k];
      assert (work + [e])[j].table < (work + [e])[|work|].table;
    }
  }

  /** Work in table order is done in table order. */
  lemma {:induction false} WorkInOrder(t: Trace)
    requires InTableOrder(WorkOf(t))
    ensures OrderedWork(t)
    decreases |t|
  {
    if t != [] {
      var before, e := t[..|t| - 1], t[|t| - 1];
      assert t == before + [e];
      WorkSnoc(before, e);
      var work := WorkOf(before);
      assert forall k :: 0 <= k < |work| ==> WorkOf(t)[k] == work[k];
      WorkInOrder(before);
      OneMoreInOrder(before, e);
    }
  }

  /** Event e happens once, at moment k, after the files of its table were allocated and before they were deleted or
      its worker reaped. */
  predicate OnceAt(t: Trace, e: Event, k: nat) {
    && k < |t| && t[k] == e && Allocate(e.table) in t[..k]
    && (forall l :: 0 <= l < |t| && t[l] == e ==> l == k)
    && (forall l :: 0 <= l < |t| && (t[l] == Reap(e.table) || t[l] == Delete(e.table)) ==> k < l)
  }

  lemma {:induction false} RunningForked(t: Trace, i: nat)
    requires i in Running(t)
    ensures Fork(i) in t
    decreases |t|
  {
    var before, e := t[..|t| - 1], t[|t| - 1];
    assert t == before + [e];
    if e != Fork(i) {
      RunningForked(before, i);
    }
  }

  lemma WorkOnceAt(t: Trace, e: Event, k: nat)
    requires Safe(t) && k < |t| && t[k] == e && IsWork(e)
    requires forall l :: 0 <= l < |t| && t[l] == e ==> l == k
    requires e.Stage? ==> forall l :: 0 <= l < |t| ==> !t[l].Fork?
    ensures OnceAt(t, e, k)
  {
    assert Allowed(t[..k], t[k]);
    forall l | 0 <= l < k
      ensures t[l] != Delete(e.table)
    {
      assert t[..k][l] == t[l];
    }
    forall l | 0 <= l < |t| && t[l] == Reap(e.table)
      ensures k < l
    {
      assert Allowed(t[..l], t[l]);
      RunningForked(t[..l], e.table);
      var j :| 0 <= j < l && t[..l][j] == Fork(e.table);
      assert t[j] == Fork(e.table);
    }
  }

  /** The trace of a finished run. */
  ghost function FinalTrace(o: Options, tables: seq<Table>): Trace {
    Final(o, tables, AfterTables(o, tables, |tables|)).trace
  }

  /** What a finished run stages, and in which order. */
  lemma FinalWork(o: Options, tables: seq<Table>, i: nat)
    ensures
      var t := FinalTrace(o, tables);
      && (Work(o, i) in t <==> i < |tables| && Staged(o, tables[i]))
      && (forall e :: e in t && IsWork(e) ==> e.table < |tables| && e == Work(o, e.table))
      && OrderedWork(t) && Safe(t)
  {
    TracesStage(o, tables, |tables|);
    ExpectedHas(o, tables, |tables|, i);
    WorkHas(FinalTrace(o, tables));
    WorkInOrder(FinalTrace(o, tables));
    WorkerProtocol(o, tables, |tables|, 0);
  }

  lemma WorkOnce(o: Options, tables: seq<Table>, t: Trace, i: nat, k: nat)
    requires Safe(t) && OrderedWork(t) && k < |t| && t[k] == Work(o, i)
    requires forall e :: e in t && IsWork(e) ==> e == Work(o, e.table)
    ensures OnceAt(t, Work(o, i), k)
  {
    forall l | 0 <= l < |t| && t[l] == Work(o, i)
      ensures l == k
    {
      assert !(t[l].table < t[k].table) && !(t[k].table < t[l].table);
    }
    forall l | 0 <= l < |t| && Work(o, i).Stage?
      ensures !t[l].Fork?
    {
      assert t[l] in t;
    }
    WorkOnceAt(t, Work(o, i), k);
  }

  /** With any failures and endings, a table of a finished run is staged if and only if it has data to stage and, where
      it takes a worker, the fork succeeds: once, with its files there, and in the order of the tables. */
  lemma TablesAreStaged(o: Options, tables: seq<Table>, i: nat)
    requires i < |tables|
    ensures Work(o, i) in FinalTrace(o, tables) <==> Staged(o, tables[i])
    ensures Staged(o, tables[i]) ==> exists k :: OnceAt(FinalTrace(o, tables), Work(o, i), k)
    ensures forall e :: e in FinalTrace(o, tables) && IsWork(e) ==> e.table < |tables| && e == Work(o, e.table)
    ensures OrderedWork(FinalTrace(o, tables))
  {
    var t := FinalTrace(o, tables);
    FinalWork(o, tables, i);
    if Staged(o, tables[i]) {
      var k :| 0 <= k < |t| && t[k] == Work(o, i);
      WorkOnce(o, tables, t, i, k);
    }
  }
}
