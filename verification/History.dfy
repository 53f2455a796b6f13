/** src/merge.cpp: history tables as a log of changes, and its agreement with the snapshots that were staged. */
module History {
  import opened Wrappers

  datatype HistoryRow = HistoryRow(id: string, data: string, updated: int)

  datatype LoadingRow = LoadingRow(id: string, data: Option<string>)

  // ---- The statements --------------------------------------------------------------------------

  predicate Superseded(h: seq<HistoryRow>, row: HistoryRow) {
    exists i :: 0 <= i < |h| && h[i].id == row.id && row.updated < h[i].updated
  }

  function LatestFrom(h: seq<HistoryRow>, rows: seq<HistoryRow>): seq<HistoryRow> {
    if rows == [] then []
    else
      var row := rows[|rows| - 1];
      LatestFrom(h, rows[..|rows| - 1]) + (if Superseded(h, row) then [] else [row])
  }

  /** create_latest_history_table: the rows without a later row of the same id. */
  function LatestHistory(h: seq<HistoryRow>): seq<HistoryRow> {
    LatestFrom(h, h)
  }

  function OfId(h: seq<HistoryRow>, id: string): seq<HistoryRow> {
    if h == [] then []
    else OfId(h[..|h| - 1], id) + (if h[|h| - 1].id == id then [h[|h| - 1]] else [])
  }

  /** The rows that one loading row joins to, with a null row when there is none, after the WHERE clause. */
  function Changed(joined: seq<HistoryRow>, s: LoadingRow, now: int): seq<HistoryRow>
    requires s.data.Some?
  {
    if joined == [] then []
    else
      var h := joined[|joined| - 1];
      Changed(joined[..|joined| - 1], s, now) +
      (if s.data.value != h.data then [HistoryRow(s.id, s.data.value, now)] else [])
  }

  function InsertsFor(latest: seq<HistoryRow>, s: LoadingRow, now: int): seq<HistoryRow> {
    if s.data.None? then []
    else
      var joined := OfId(latest, s.id);
      if joined == [] then [HistoryRow(s.id, s.data.value, now)] else Changed(joined, s, now)
  }

  /** The SELECT of merge_table. */
  function Inserts(latest: seq<HistoryRow>, loading: seq<LoadingRow>, now: int): seq<HistoryRow> {
    if loading == [] then []
    else Inserts(latest, loading[..|loading| - 1], now) + InsertsFor(latest, loading[|loading| - 1], now)
  }

  /** The primary key of a history table. */
  predicate UniqueKeys(h: seq<HistoryRow>) {
    forall i, j :: 0 <= i < j < |h| ==> h[i].id != h[j].id || h[i].updated != h[j].updated
  }

  /** merge_table: fails when the primary key would be violated. */
  function Merged(h: seq<HistoryRow>, latest: seq<HistoryRow>, loading: seq<LoadingRow>, now: int): Option<seq<HistoryRow>> {
    var h' := h + Inserts(latest, loading, now);
    if UniqueKeys(h') then Some(h') else None
  }

  // ---- Runs ------------------------------------------------------------------------------------

  datatype Run = Run(time: int, snapshot: seq<LoadingRow>, committed: bool)

  predicate UniqueIds(snapshot: seq<LoadingRow>) {
    forall i, j :: 0 <= i < j < |snapshot| ==> snapshot[i].id != snapshot[j].id
  }

  /** Times strictly increase and no snapshot repeats an id. */
  predicate WellFormed(runs: seq<Run>) {
    && (forall i, j :: 0 <= i < j < |runs| ==> runs[i].time < runs[j].time)
    && (forall i :: 0 <= i < |runs| ==> UniqueIds(runs[i].snapshot))
  }

  function AfterRun(h: seq<HistoryRow>, run: Run): seq<HistoryRow> {
    if run.committed then h + Inserts(LatestHistory(h), run.snapshot, run.time) else h
  }

  function HistoryOf(runs: seq<Run>): seq<HistoryRow> {
    if runs == [] then [] else AfterRun(HistoryOf(runs[..|runs| - 1]), runs[|runs| - 1])
  }

  /** The non-null value a snapshot has for an id. */
  function DataIn(snapshot: seq<LoadingRow>, id: string): Option<string> {
    if snapshot == [] then None
    else if snapshot[|snapshot| - 1].id == id then snapshot[|snapshot| - 1].data
    else DataIn(snapshot[..|snapshot| - 1], id)
  }

  /** The values committed runs staged for an id, with their times. */
  function StagedValues(runs: seq<Run>, id: string): seq<HistoryRow> {
    if runs == [] then []
    else
      var run := runs[|runs| - 1];
      StagedValues(runs[..|runs| - 1], id) +
      (if run.committed && DataIn(run.snapshot, id).Some?
       then [HistoryRow(id, DataIn(run.snapshot, id).value, run.time)] else [])
  }

  /** Consecutive duplicates removed, the first of each streak kept. */
  function Deduplicated(rows: seq<HistoryRow>): (r: seq<HistoryRow>)
    ensures r == [] <==> rows == []
  {
    if rows == [] then []
    else
      var kept, row := Deduplicated(rows[..|rows| - 1]), rows[|rows| - 1];
      if kept != [] && kept[|kept| - 1].data == row.data then kept else kept + [row]
  }

  // ---- Rows of one id --------------------------------------------------------------------------

  lemma {:induction false} OfIdAppend(a: seq<HistoryRow>, b: seq<HistoryRow>, id: string)
    ensures OfId(a + b, id) == OfId(a, id) + OfId(b, id)
  {
    if b == [] {
      assert a + b == a;
      assert OfId(a, id) + [] == OfId(a, id);
    } else {
      assert (a + b)[..|a + b| - 1] == a + b[..|b| - 1];
      OfIdAppend(a, b[..|b| - 1], id);
    }
  }

  lemma {:induction false} OfIdMember(h: seq<HistoryRow>, id: string, row: HistoryRow)
    ensures row in OfId(h, id) <==> row in h && row.id == id
  {
    if h != [] {
      assert h == h[..|h| - 1] + [h[|h| - 1]];
      OfIdMember(h[..|h| - 1], id, row);
    }
  }

  lemma {:induction false} OfIdOfLatest(h: seq<HistoryRow>, rows: seq<HistoryRow>, id: string)
    ensures OfId(LatestFrom(h, rows), id) == LatestFrom(h, OfId(rows, id))
  {
    if rows != [] {
      var n := |rows| - 1;
      OfIdOfLatest(h, rows[..n], id);
      OfIdAppend(LatestFrom(h, rows[..n]), if Superseded(h, rows[n]) then [] else [rows[n]], id);
      if rows[n].id == id {
        assert (OfId(rows[..n], id) + [rows[n]])[..|OfId(rows[..n], id)|] == OfId(rows[..n], id);
        if !Superseded(h, rows[n]) {
          assert [rows[n]][..0] == [] && OfId([rows[n]], id) == [rows[n]];
        }
      } else {
        assert [rows[n]][..0] == [];
        assert OfId(rows[..n], id) + [] == OfId(rows[..n], id);
        assert LatestFrom(h, OfId(rows[..n], id)) + [] == LatestFrom(h, OfId(rows[..n], id));
      }
    }
  }

  predicate Increasing(rows: seq<HistoryRow>) {
    forall i, j :: 0 <= i < j < |rows| ==> rows[i].updated < rows[j].updated
  }

  lemma SupersededInId(h: seq<HistoryRow>, row: HistoryRow)
    ensures Superseded(h, row) <==> Superseded(OfId(h, row.id), row)
  {
    var g := OfId(h, row.id);
    if Superseded(h, row) {
      var i :| 0 <= i < |h| && h[i].id == row.id && row.updated < h[i].updated;
      OfIdMember(h, row.id, h[i]);
      assert h[i] in g;
    }
    if Superseded(g, row) {
      var i :| 0 <= i < |g| && g[i].id == row.id && row.updated < g[i].updated;
      OfIdMember(h, row.id, g[i]);
      assert g[i] in h;
    }
  }

  /** The latest rows of an id are its last row alone. */
  lemma LatestOfId(h: seq<HistoryRow>, id: string)
    requires Increasing(OfId(h, id))
    ensures
      var g := OfId(h, id);
      OfId(LatestHistory(h), id) == if g == [] then [] else [g[|g| - 1]]
  {
    var g := OfId(h, id);
    OfIdOfLatest(h, h, id);
    LatestOfIncreasing(h, id, |g|);
    assert g[..|g|] == g;
  }

  lemma {:induction false} LatestOfIncreasing(h: seq<HistoryRow>, id: string, n: nat)
    requires Increasing(OfId(h, id)) && n <= |OfId(h, id)|
    ensures
      var g := OfId(h, id);
      LatestFrom(h, g[..n]) == if n == |g| && n > 0 then [g[n - 1]] else []
  {
    var g := OfId(h, id);
    if n > 0 {
      LatestOfIncreasing(h, id, n - 1);
      assert g[..n] == g[..n - 1] + [g[n - 1]];
      LatestSnoc(h, g[..n - 1], g[n - 1]);
      SupersededAt(h, id, n - 1);
    }
  }

  lemma LatestSnoc(h: seq<HistoryRow>, rows: seq<HistoryRow>, row: HistoryRow)
    ensures LatestFrom(h, rows + [row]) == LatestFrom(h, rows) + if Superseded(h, row) then [] else [row]
  {
    assert (rows + [row])[..|rows|] == rows;
  }

  lemma SupersededAt(h: seq<HistoryRow>, id: string, k: nat)
    requires Increasing(OfId(h, id)) && k < |OfId(h, id)|
    ensures Superseded(h, OfId(h, id)[k]) <==> k + 1 < |OfId(h, id)|
  {
    var g := OfId(h, id);
    assert g[k] in g;
    OfIdMember(h, id, g[k]);
    SupersededInId(h, g[k]);
    if k + 1 < |g| {
      assert g[k + 1] in g;
      OfIdMember(h, id, g[k + 1]);
      assert Superseded(g, g[k]);
    }
  }

  // ---- What one run inserts --------------------------------------------------------------------

  /** The row a merge adds for an id, given its last row. */
  function Added(last: seq<HistoryRow>, data: Option<string>, id: string, now: int): seq<HistoryRow> {
    if data.None? || (last != [] && last[|last| - 1].data == data.value) then []
    else [HistoryRow(id, data.value, now)]
  }

  lemma InsertsForOwnId(latest: seq<HistoryRow>, s: LoadingRow, now: int, id: string)
    requires |OfId(latest, s.id)| <= 1
    ensures OfId(InsertsFor(latest, s, now), id) ==
      if s.id == id then Added(OfId(latest, id), s.data, id, now) else []
  {
    var joined := OfId(latest, s.id);
    if s.data.Some? {
      var row := HistoryRow(s.id, s.data.value, now);
      assert [row][..0] == [];
      assert OfId([row], id) == if s.id == id then [row] else [];
      if joined != [] {
        assert joined[..|joined| - 1] == [];
        assert Changed(joined, s, now) == if s.data.value != joined[0].data then [row] else [];
      }
    }
  }

  lemma {:induction false} InsertsOfId(latest: seq<HistoryRow>, loading: seq<LoadingRow>, now: int, id: string)
    requires UniqueIds(loading) && forall x :: |OfId(latest, x)| <= 1
    ensures OfId(Inserts(latest, loading, now), id) == Added(OfId(latest, id), DataIn(loading, id), id, now)
    ensures (forall i :: 0 <= i < |loading| ==> loading[i].id != id) ==> DataIn(loading, id).None?
  {
    if loading != [] {
      var n := |loading| - 1;
      var before, s := loading[..n], loading[n];
      InsertsOfId(latest, before, now, id);
      OfIdAppend(Inserts(latest, before, now), InsertsFor(latest, s, now), id);
      InsertsForOwnId(latest, s, now, id);
      if s.id == id {
        assert forall i :: 0 <= i < |before| ==> before[i].id != id;
      }
    }
  }

  lemma {:induction false} InsertedAtTime(latest: seq<HistoryRow>, loading: seq<LoadingRow>, now: int)
    ensures forall row :: row in Inserts(latest, loading, now) ==> row.updated == now
  {
    if loading != [] {
      var n := |loading| - 1;
      InsertedAtTime(latest, loading[..n], now);
      if loading[n].data.Some? {
        ChangedAtTime(OfId(latest, loading[n].id), loading[n], now);
      }
    }
  }

  lemma {:induction false} ChangedAtTime(joined: seq<HistoryRow>, s: LoadingRow, now: int)
    requires s.data.Some?
    ensures forall row :: row in Changed(joined, s, now) ==> row.updated == now
  {
    if joined != [] {
      ChangedAtTime(joined[..|joined| - 1], s, now);
    }
  }

  // ---- History agrees with the snapshots -------------------------------------------------------

  predicate UpTo(rows: seq<HistoryRow>, time: int) {
    forall i :: 0 <= i < |rows| ==> rows[i].updated <= time
  }

  lemma LatestAtMostOne(h: seq<HistoryRow>)
    requires forall id :: Increasing(OfId(h, id))
    ensures forall id :: |OfId(LatestHistory(h), id)| <= 1
  {
    forall id
      ensures |OfId(LatestHistory(h), id)| <= 1
    {
      LatestOfId(h, id);
    }
  }

  /** One run, seen by one id. */
  lemma AfterRunOfId(h: seq<HistoryRow>, run: Run, id: string)
    requires UniqueIds(run.snapshot) && run.committed
    requires forall x :: Increasing(OfId(h, x))
    ensures OfId(AfterRun(h, run), id) == OfId(h, id) + Added(OfId(h, id), DataIn(run.snapshot, id), id, run.time)
  {
    LatestAtMostOne(h);
    LatestOfId(h, id);
    InsertsOfId(LatestHistory(h), run.snapshot, run.time, id);
    OfIdAppend(h, Inserts(LatestHistory(h), run.snapshot, run.time), id);
  }

  /** One more committed run keeps the rows of an id increasing and up to its time. */
  lemma AddedKeepsOrder(g: seq<HistoryRow>, data: Option<string>, id: string, now: int)
    requires Increasing(g) && forall i :: 0 <= i < |g| ==> g[i].updated < now
    ensures Increasing(g + Added(g, data, id, now)) && UpTo(g + Added(g, data, id, now), now)
  {
  }

  lemma WellFormedPrefix(runs: seq<Run>, n: nat)
    requires WellFormed(runs) && n <= |runs|
    ensures WellFormed(runs[..n])
  {
    assert forall i :: 0 <= i < n ==> runs[..n][i] == runs[i];
  }

  /** The rows of an id are the values staged for it, consecutive duplicates removed. */
  lemma {:induction false} HistoryIsDeduplicatedSnapshots(runs: seq<Run>, id: string)
    requires WellFormed(runs)
    ensures OfId(HistoryOf(runs), id) == Deduplicated(StagedValues(runs, id))
    ensures Increasing(OfId(HistoryOf(runs), id))
    ensures runs != [] ==> UpTo(OfId(HistoryOf(runs), id), runs[|runs| - 1].time)
    decreases |runs|, 0
  {
    if runs != [] {
      var n := |runs| - 1;
      var before, run := runs[..n], runs[n];
      WellFormedPrefix(runs, n);
      AllIncreasing(before);
      HistoryIsDeduplicatedSnapshots(before, id);
      assert runs == before + [run];
      RunFollows(before, run, id);
    }
  }

  lemma {:induction false} AllIncreasing(runs: seq<Run>)
    requires WellFormed(runs)
    ensures forall id :: Increasing(OfId(HistoryOf(runs), id))
    decreases |runs|, 1
  {
    forall id
      ensures Increasing(OfId(HistoryOf(runs), id))
    {
      HistoryIsDeduplicatedSnapshots(runs, id);
    }
  }

  lemma RunFollows(before: seq<Run>, run: Run, id: string)
    requires WellFormed(before + [run])
    requires forall x :: Increasing(OfId(HistoryOf(before), x))
    requires OfId(HistoryOf(before), id) == Deduplicated(StagedValues(before, id))
    requires before != [] ==> UpTo(OfId(HistoryOf(before), id), before[|before| - 1].time)
    ensures
      var g := OfId(HistoryOf(before + [run]), id);
      g == Deduplicated(StagedValues(before + [run], id)) && Increasing(g) && UpTo(g, run.time)
  {
    OlderBefore(before, run, id);
    if run.committed {
      CommittedRunFollows(before, run, id);
    } else {
      AbortedRunFollows(before, run, id);
    }
  }

  /** Rows so far are older than a time. */
  predicate OlderThan(g: seq<HistoryRow>, t: int) {
    forall i :: 0 <= i < |g| ==> g[i].updated < t
  }

  lemma OlderBefore(before: seq<Run>, run: Run, id: string)
    requires WellFormed(before + [run])
    requires before != [] ==> UpTo(OfId(HistoryOf(before), id), before[|before| - 1].time)
    ensures OlderThan(OfId(HistoryOf(before), id), run.time)
  {
    if before != [] {
      var runs := before + [run];
      assert runs[|before| - 1] == before[|before| - 1] && runs[|before|] == run;
    }
  }

  lemma CommittedRunFollows(before: seq<Run>, run: Run, id: string)
    requires WellFormed(before + [run]) && run.committed
    requires forall x :: Increasing(OfId(HistoryOf(before), x))
    requires OfId(HistoryOf(before), id) == Deduplicated(StagedValues(before, id))
    requires OlderThan(OfId(HistoryOf(before), id), run.time)
    ensures
      var g := OfId(HistoryOf(before + [run]), id);
      g == Deduplicated(StagedValues(before + [run], id)) && Increasing(g) && UpTo(g, run.time)
  {
    var runs := before + [run];
    assert runs[..|before|] == before && runs[|before|] == run;
    AfterRunOfId(HistoryOf(before), run, id);
    DeduplicatedStep(before, run, id);
    AddedKeepsOrder(OfId(HistoryOf(before), id), DataIn(run.snapshot, id), id, run.time);
  }

  lemma AbortedRunFollows(before: seq<Run>, run: Run, id: string)
    requires !run.committed
    requires OlderThan(OfId(HistoryOf(before), id), run.time)
    ensures HistoryOf(before + [run]) == HistoryOf(before)
    ensures StagedValues(before + [run], id) == StagedValues(before, id)
    ensures UpTo(OfId(HistoryOf(before + [run]), id), run.time)
  {
    var runs := before + [run];
    assert runs[..|before|] == before && runs[|before|] == run;
  }

  lemma DeduplicatedStep(before: seq<Run>, run: Run, id: string)
    requires run.committed
    ensures
      var g := Deduplicated(StagedValues(before, id));
      Deduplicated(StagedValues(before + [run], id)) == g + Added(g, DataIn(run.snapshot, id), id, run.time)
  {
    var runs, staged := before + [run], StagedValues(before, id);
    assert runs[..|runs| - 1] == before;
    if DataIn(run.snapshot, id).Some? {
      var row := HistoryRow(id, DataIn(run.snapshot, id).value, run.time);
      assert (staged + [row])[..|staged|] == staged;
    } else {
      assert staged + [] == staged;
    }
  }

  // ---- When the primary key is violated --------------------------------------------------------

  /** A loading row that the merge inserts: it has a value, and another one than the latest row of its id. */
  predicate New(latest: seq<HistoryRow>, s: LoadingRow) {
    s.data.Some? && (OfId(latest, s.id) == [] || OfId(latest, s.id)[0].data != s.data.value)
  }

  ghost predicate AtMostOneEach(latest: seq<HistoryRow>) {
    forall id :: |OfId(latest, id)| <= 1
  }

  lemma InsertsForNew(latest: seq<HistoryRow>, s: LoadingRow, now: int)
    requires AtMostOneEach(latest)
    ensures InsertsFor(latest, s, now) == if New(latest, s) then [HistoryRow(s.id, s.data.value, now)] else []
  {
    var joined := OfId(latest, s.id);
    assert |joined| <= 1;
    if s.data.Some? && joined != [] {
      assert joined[..0] == [];
      assert Changed(joined[..0], s, now) == [];
    }
  }

  predicate RepeatsId(rows: seq<HistoryRow>) {
    exists i, j :: 0 <= i < j < |rows| && rows[i].id == rows[j].id
  }

  /** Some id occurs twice in the snapshot with a value that the merge inserts. */
  predicate RepeatsNew(latest: seq<HistoryRow>, loading: seq<LoadingRow>) {
    exists i, j :: 0 <= i < j < |loading| && loading[i].id == loading[j].id && New(latest, loading[i]) && New(latest, loading[j])
  }

  predicate HasId(rows: seq<HistoryRow>, id: string) {
    exists i :: 0 <= i < |rows| && rows[i].id == id
  }

  predicate HasNew(latest: seq<HistoryRow>, loading: seq<LoadingRow>, id: string) {
    exists i :: 0 <= i < |loading| && loading[i].id == id && New(latest, loading[i])
  }

  lemma RepeatsSnoc(rows: seq<HistoryRow>, row: HistoryRow)
    ensures RepeatsId(rows + [row]) <==> RepeatsId(rows) || HasId(rows, row.id)
  {
    var all := rows + [row];
    assert all[|rows|] == row && forall i :: 0 <= i < |rows| ==> all[i] == rows[i];
    if i :| 0 <= i < |rows| && rows[i].id == row.id {
      assert all[i].id == all[|rows|].id;
    }
    if i, j :| 0 <= i < j < |rows| && rows[i].id == rows[j].id {
      assert all[i].id == all[j].id;
    }
  }

  lemma NewSnoc(latest: seq<HistoryRow>, loading: seq<LoadingRow>, s: LoadingRow, id: string)
    ensures HasNew(latest, loading + [s], id) <==> HasNew(latest, loading, id) || (s.id == id && New(latest, s))
    ensures RepeatsNew(latest, loading + [s]) <==>
      RepeatsNew(latest, loading) || (New(latest, s) && HasNew(latest, loading, s.id))
  {
    var all := loading + [s];
    assert all[|loading|] == s && forall i :: 0 <= i < |loading| ==> all[i] == loading[i];
    if i :| 0 <= i < |loading| && loading[i].id == id && New(latest, loading[i]) {
      assert all[i].id == id && New(latest, all[i]);
    }
    if i :| 0 <= i < |loading| && loading[i].id == s.id && New(latest, loading[i]) && New(latest, s) {
      assert all[i].id == all[|loading|].id && New(latest, all[i]) && New(latest, all[|loading|]);
    }
    if i, j :| 0 <= i < j < |loading| && loading[i].id == loading[j].id && New(latest, loading[i]) && New(latest, loading[j]) {
      assert all[i].id == all[j].id && New(latest, all[i]) && New(latest, all[j]);
    }
  }

  lemma {:induction false} InsertsAreNew(latest: seq<HistoryRow>, loading: seq<LoadingRow>, now: int, id: string)
    requires AtMostOneEach(latest)
    ensures HasId(Inserts(latest, loading, now), id) <==> HasNew(latest, loading, id)
    ensures RepeatsId(Inserts(latest, loading, now)) <==> RepeatsNew(latest, loading)
    ensures forall i :: 0 <= i < |Inserts(latest, loading, now)| ==> Inserts(latest, loading, now)[i].updated == now
    decreases |loading|
  {
    if loading != [] {
      var n := |loading| - 1;
      var s, ins := loading[n], Inserts(latest, loading[..n], now);
      assert loading == loading[..n] + [s];
      InsertsAreNew(latest, loading[..n], now, id);
      InsertsAreNew(latest, loading[..n], now, s.id);
      InsertsForNew(latest, s, now);
      NewSnoc(latest, loading[..n], s, id);
      if New(latest, s) {
        var row := HistoryRow(s.id, s.data.value, now);
        RepeatsSnoc(ins, row);
        HasIdSnoc(ins, row, id);
      } else {
        assert ins + [] == ins;
      }
    }
  }

  lemma HasIdSnoc(rows: seq<HistoryRow>, row: HistoryRow, id: string)
    ensures HasId(rows + [row], id) <==> HasId(rows, id) || row.id == id
  {
    var all := rows + [row];
    assert all[|rows|] == row && forall i :: 0 <= i < |rows| ==> all[i] == rows[i];
    if i :| 0 <= i < |rows| && rows[i].id == id {
      assert all[i].id == id;
    }
  }

  lemma KeysOfBoth(h: seq<HistoryRow>, ins: seq<HistoryRow>, now: int)
    requires UniqueKeys(h) && (forall i :: 0 <= i < |h| ==> h[i].updated < now)
    requires forall i :: 0 <= i < |ins| ==> ins[i].updated == now
    ensures UniqueKeys(h + ins) <==> !RepeatsId(ins)
  {
    var all := h + ins;
    assert forall i :: 0 <= i < |ins| ==> all[|h| + i] == ins[i];
    if i, j :| 0 <= i < j < |ins| && ins[i].id == ins[j].id {
      assert all[|h| + i].id == all[|h| + j].id && all[|h| + i].updated == all[|h| + j].updated;
    } else {
      forall i, j | 0 <= i < j < |all|
        ensures all[i].id != all[j].id || all[i].updated != all[j].updated
      {
        assert i >= |h| ==> all[i] == ins[i - |h|] && all[j] == ins[j - |h|];
        assert i < |h| && j >= |h| ==> all[i] == h[i] && all[j] == ins[j - |h|];
      }
    }
  }

  lemma OlderRows(runs: seq<Run>, now: int)
    requires WellFormed(runs) && forall i :: 0 <= i < |runs| ==> runs[i].time < now
    ensures UniqueKeys(HistoryOf(runs)) && AtMostOneEach(LatestHistory(HistoryOf(runs)))
    ensures forall i :: 0 <= i < |HistoryOf(runs)| ==> HistoryOf(runs)[i].updated < now
  {
    var h := HistoryOf(runs);
    forall i, j | 0 <= i < j < |h|
      ensures h[i].id != h[j].id || h[i].updated != h[j].updated
    {
      if h[i].id == h[j].id {
        HistoryIsDeduplicatedSnapshots(runs, h[i].id);
        TwoOfId(h, i, j);
      }
    }
    forall id
      ensures |OfId(LatestHistory(h), id)| <= 1
    {
      HistoryIsDeduplicatedSnapshots(runs, id);
      LatestOfId(h, id);
    }
    forall i | 0 <= i < |h|
      ensures h[i].updated < now
    {
      HistoryIsDeduplicatedSnapshots(runs, h[i].id);
      OfIdMember(h, h[i].id, h[i]);
      var g := OfId(h, h[i].id);
      var k :| 0 <= k < |g| && g[k] == h[i];
      assert runs != [];
    }
  }

  /** The merge of a later run fails if and only if some id occurs twice in its snapshot with values that are not
      in force: the loading table has no key yet that would refuse them. */
  lemma {:induction false} MergeFailsIff(runs: seq<Run>, run: Run)
    requires WellFormed(runs) && forall i :: 0 <= i < |runs| ==> runs[i].time < run.time
    ensures
      var h := HistoryOf(runs);
      Merged(h, LatestHistory(h), run.snapshot, run.time).None? <==> RepeatsNew(LatestHistory(h), run.snapshot)
  {
    var h := HistoryOf(runs);
    OlderRows(runs, run.time);
    InsertsAreNew(LatestHistory(h), run.snapshot, run.time, "");
    KeysOfBoth(h, Inserts(LatestHistory(h), run.snapshot, run.time), run.time);
  }

  /** As two rows of an id that is new, whatever their values. */
  lemma RepeatedIdIsRefused(runs: seq<Run>, time: int, id: string, x: string, y: string)
    requires WellFormed(runs) && forall i :: 0 <= i < |runs| ==> runs[i].time < time
    requires OfId(LatestHistory(HistoryOf(runs)), id) == []
    ensures
      var h := HistoryOf(runs);
      Merged(h, LatestHistory(h), [LoadingRow(id, Some(x)), LoadingRow(id, Some(y))], time).None?
  {
    var run := Run(time, [LoadingRow(id, Some(x)), LoadingRow(id, Some(y))], true);
    MergeFailsIff(runs, run);
    assert run.snapshot[0].id == run.snapshot[1].id;
  }

  /** So with unique ids every merge succeeds. */
  lemma MergeSucceeds(runs: seq<Run>, run: Run)
    requires WellFormed(runs + [run])
    ensures Merged(HistoryOf(runs), LatestHistory(HistoryOf(runs)), run.snapshot, run.time) ==
      Some(HistoryOf(runs + [run.(committed := true)]))
  {
    var all := runs + [run.(committed := true)];
    assert all[..|all| - 1] == runs && (runs + [run])[|runs|] == run;
    WellFormedPrefix(runs + [run], |runs|);
    assert (runs + [run])[..|runs|] == runs;
    assert forall i :: 0 <= i < |runs| ==> (runs + [run])[i] == runs[i];
    MergeFailsIff(runs, run);
  }

  lemma {:induction false} TwoOfId(h: seq<HistoryRow>, i: nat, j: nat)
    requires i < j < |h| && h[i].id == h[j].id && Increasing(OfId(h, h[i].id))
    ensures h[i].updated < h[j].updated
  {
    var id := h[i].id;
    var a, b := h[..j], h[j..];
    assert h == a + b;
    OfIdAppend(a, b, id);
    OfIdMember(a, id, h[i]);
    OfIdMember(b, id, h[j]);
    assert a[i] == h[i] && b[0] == h[j];
    assert h[i] in OfId(a, id) && h[j] in OfId(b, id);
    var x :| 0 <= x < |OfId(a, id)| && OfId(a, id)[x] == h[i];
    var y :| 0 <= y < |OfId(b, id)| && OfId(b, id)[y] == h[j];
    assert (OfId(a, id) + OfId(b, id))[x] == h[i];
    assert (OfId(a, id) + OfId(b, id))[|OfId(a, id)| + y] == h[j];
  }

  /** The row of an id in force at a time: the one with the greatest `updated` not after it. */
  predicate InForce(h: seq<HistoryRow>, id: string, t: int, row: HistoryRow) {
    row in h && row.id == id && row.updated <= t &&
    forall i :: 0 <= i < |h| && h[i].id == id && h[i].updated <= t ==> h[i].updated <= row.updated
  }

  lemma {:induction false} InForceNow(runs: seq<Run>, id: string)
    requires WellFormed(runs) && StagedValues(runs, id) != []
    ensures
      var g, staged := OfId(HistoryOf(runs), id), StagedValues(runs, id);
      g != [] && g[|g| - 1].data == staged[|staged| - 1].data
  {
    HistoryIsDeduplicatedSnapshots(runs, id);
    var staged := StagedValues(runs, id);
    assert staged == staged[..|staged| - 1] + [staged[|staged| - 1]];
  }

  function AddedByRun(g: seq<HistoryRow>, run: Run, id: string): (r: seq<HistoryRow>)
    ensures forall i :: 0 <= i < |r| ==> r[i].updated == run.time
  {
    if run.committed then Added(g, DataIn(run.snapshot, id), id, run.time) else []
  }

  /** How the rows of an id grow with one more run. */
  lemma OneMoreRun(before: seq<Run>, run: Run, id: string)
    requires WellFormed(before + [run])
    ensures
      var g := OfId(HistoryOf(before), id);
      OfId(HistoryOf(before + [run]), id) == g + AddedByRun(g, run, id)
  {
    var runs := before + [run];
    assert runs[..|before|] == before && runs[|before|] == run;
    WellFormedPrefix(runs, |before|);
    forall x
      ensures Increasing(OfId(HistoryOf(before), x))
    {
      HistoryIsDeduplicatedSnapshots(before, x);
    }
    if run.committed {
      AfterRunOfId(HistoryOf(before), run, id);
    }
  }

  /** late is g followed by rows after time t. */
  predicate ExtendedAfter(g: seq<HistoryRow>, late: seq<HistoryRow>, t: int) {
    |g| <= |late| && late[..|g|] == g && forall i :: |g| <= i < |late| ==> late[i].updated > t
  }

  lemma ExtendedAgain(g: seq<HistoryRow>, late: seq<HistoryRow>, more: seq<HistoryRow>, t: int)
    requires ExtendedAfter(g, late, t) && forall i :: 0 <= i < |more| ==> more[i].updated > t
    ensures ExtendedAfter(g, late + more, t)
  {
    assert (late + more)[..|g|] == late[..|g|];
  }

  lemma {:induction false} LaterRunsAddLater(runs: seq<Run>, n: nat, id: string)
    requires WellFormed(runs) && 0 < n <= |runs|
    ensures ExtendedAfter(OfId(HistoryOf(runs[..n]), id), OfId(HistoryOf(runs), id), runs[n - 1].time)
    decreases |runs|
  {
    if n == |runs| {
      assert runs[..n] == runs;
    } else {
      var m := |runs| - 1;
      var before, run := runs[..m], runs[m];
      WellFormedPrefix(runs, m);
      assert before[..n] == runs[..n] && runs == before + [run] && before[n - 1] == runs[n - 1];
      LaterRunsAddLater(before, n, id);
      OneMoreRun(before, run, id);
      var g := OfId(HistoryOf(before), id);
      ExtendedAgain(OfId(HistoryOf(runs[..n]), id), g, AddedByRun(g, run, id), runs[n - 1].time);
    }
  }

  lemma StagedByRun(runs: seq<Run>, n: nat, id: string)
    requires n < |runs| && runs[n].committed && DataIn(runs[n].snapshot, id).Some?
    ensures
      var staged := StagedValues(runs[..n + 1], id);
      staged != [] && staged[|staged| - 1].data == DataIn(runs[n].snapshot, id).value
  {
    assert runs[..n + 1][..n] == runs[..n] && runs[..n + 1][n] == runs[n];
  }

  /** Rows of an id within the history, and back. */
  lemma InForceOfId(h: seq<HistoryRow>, id: string, t: int, row: HistoryRow)
    ensures
      var g := OfId(h, id);
      InForce(h, id, t, row) <==>
        row in g && row.updated <= t && forall i :: 0 <= i < |g| && g[i].updated <= t ==> g[i].updated <= row.updated
  {
    var g := OfId(h, id);
    OfIdMember(h, id, row);
    forall i | 0 <= i < |h| && h[i].id == id
      ensures h[i] in g
    {
      OfIdMember(h, id, h[i]);
    }
    forall i | 0 <= i < |g|
      ensures g[i] in h && g[i].id == id
    {
      assert g[i] in g;
      OfIdMember(h, id, g[i]);
    }
  }

  lemma LastUpToIsInForce(late: seq<HistoryRow>, n: nat, t: int, row: HistoryRow)
    requires Increasing(late) && 0 < n <= |late|
    requires UpTo(late[..n], t) && ExtendedAfter(late[..n], late, t)
    ensures (row in late && row.updated <= t &&
        forall i :: 0 <= i < |late| && late[i].updated <= t ==> late[i].updated <= row.updated) <==>
      row == late[n - 1]
  {
    assert late[..n][n - 1] == late[n - 1];
    forall i | 0 <= i < n
      ensures late[i].updated <= late[n - 1].updated <= t
    {
    }
    if row in late && row.updated <= t &&
        (forall i :: 0 <= i < |late| && late[i].updated <= t ==> late[i].updated <= row.updated) {
      var k :| 0 <= k < |late| && late[k] == row;
      assert k < n;
      assert late[n - 1].updated <= row.updated;
    }
  }

  /** After any further runs, committed or aborted, the history as of a committed run's time still shows what that
      run staged. */
  lemma HistoryShowsEveryRun(runs: seq<Run>, n: nat, id: string)
    requires WellFormed(runs) && n < |runs|
    requires runs[n].committed && DataIn(runs[n].snapshot, id).Some?
    ensures exists row :: InForce(HistoryOf(runs), id, runs[n].time, row)
    ensures forall row :: InForce(HistoryOf(runs), id, runs[n].time, row) ==>
      row.data == DataIn(runs[n].snapshot, id).value
  {
    var t, h := runs[n].time, HistoryOf(runs);
    var k := RowOfRun(runs, n, id);
    HistoryIsDeduplicatedSnapshots(runs, id);
    InForceExactly(h, id, t, k);
    assert InForce(h, id, t, OfId(h, id)[k]);
  }

  lemma InForceExactly(h: seq<HistoryRow>, id: string, t: int, k: nat)
    requires Increasing(OfId(h, id)) && k < |OfId(h, id)|
    requires UpTo(OfId(h, id)[..k + 1], t) && ExtendedAfter(OfId(h, id)[..k + 1], OfId(h, id), t)
    ensures forall row :: InForce(h, id, t, row) <==> row == OfId(h, id)[k]
  {
    forall row
      ensures InForce(h, id, t, row) <==> row == OfId(h, id)[k]
    {
      InForceOfId(h, id, t, row);
      LastUpToIsInForce(OfId(h, id), k + 1, t, row);
    }
  }

  /** Position of the row that a committed run left in force. */
  lemma RowOfRun(runs: seq<Run>, n: nat, id: string) returns (k: nat)
    requires WellFormed(runs) && n < |runs|
    requires runs[n].committed && DataIn(runs[n].snapshot, id).Some?
    ensures
      var late := OfId(HistoryOf(runs), id);
      && k < |late| && late[k].data == DataIn(runs[n].snapshot, id).value
      && UpTo(late[..k + 1], runs[n].time) && ExtendedAfter(late[..k + 1], late, runs[n].time)
  {
    var first := runs[..n + 1];
    var g := OfId(HistoryOf(first), id);
    WellFormedPrefix(runs, n + 1);
    assert first[n] == runs[n];
    StagedByRun(runs, n, id);
    InForceNow(first, id);
    LaterRunsAddLater(runs, n + 1, id);
    HistoryIsDeduplicatedSnapshots(first, id);
    k := |g| - 1;
  }

  /** A snapshot whose values are all in force already adds nothing. */
  lemma {:induction false} UnchangedAddsNothing(latest: seq<HistoryRow>, loading: seq<LoadingRow>, now: int)
    requires forall i :: 0 <= i < |loading| && loading[i].data.Some? ==>
      |OfId(latest, loading[i].id)| == 1 && OfId(latest, loading[i].id)[0].data == loading[i].data.value
    ensures Inserts(latest, loading, now) == []
  {
    if loading != [] {
      var n := |loading| - 1;
      UnchangedAddsNothing(latest, loading[..n], now);
      if loading[n].data.Some? {
        var joined := OfId(latest, loading[n].id);
        assert joined[..0] == [];
        assert Changed(joined, loading[n], now) == [];
      }
    }
  }

  lemma {:induction false} DataInOf(snapshot: seq<LoadingRow>, i: nat)
    requires UniqueIds(snapshot) && i < |snapshot|
    ensures DataIn(snapshot, snapshot[i].id) == snapshot[i].data
    decreases |snapshot|
  {
    if i < |snapshot| - 1 {
      DataInOf(snapshot[..|snapshot| - 1], i);
    }
  }

  /** What a committed run staged with a value is the one latest row of its id. */
  lemma StagedIsLatest(runs: seq<Run>, run: Run, i: nat)
    requires WellFormed(runs + [run]) && run.committed && i < |run.snapshot| && run.snapshot[i].data.Some?
    ensures
      var latest := OfId(LatestHistory(HistoryOf(runs + [run])), run.snapshot[i].id);
      |latest| == 1 && latest[0].data == run.snapshot[i].data.value
  {
    var all, id := runs + [run], run.snapshot[i].id;
    assert all[..|runs|] == runs && all[|runs|] == run;
    assert UniqueIds(all[|runs|].snapshot);
    DataInOf(run.snapshot, i);
    StagedByRun(all, |runs|, id);
    assert all[..|runs| + 1] == all;
    InForceNow(all, id);
    HistoryIsDeduplicatedSnapshots(all, id);
    LatestOfId(HistoryOf(all), id);
  }

  /** A run that stages only what the run before it staged adds nothing to the history. */
  lemma RepeatedRunAddsNothing(runs: seq<Run>, first: Run, second: Run)
    requires WellFormed(runs + [first]) && first.committed
    requires forall i :: 0 <= i < |second.snapshot| ==> second.snapshot[i] in first.snapshot
    ensures HistoryOf(runs + [first] + [second]) == HistoryOf(runs + [first])
  {
    var before := runs + [first];
    var all, h := before + [second], HistoryOf(before);
    assert all[..|before|] == before && all[|before|] == second;
    forall i | 0 <= i < |second.snapshot| && second.snapshot[i].data.Some?
      ensures
        var latest := OfId(LatestHistory(h), second.snapshot[i].id);
        |latest| == 1 && latest[0].data == second.snapshot[i].data.value
    {
      var j :| 0 <= j < |first.snapshot| && first.snapshot[j] == second.snapshot[i];
      StagedIsLatest(runs, first, j);
    }
    UnchangedAddsNothing(LatestHistory(h), second.snapshot, second.time);
    assert h + [] == h;
  }
}
