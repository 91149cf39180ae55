/** The registry's rows, a survey of the open ones, and what a repair pass makes of both. */
module RunTable {
  import opened Prelude
  import opened RunNames
  import opened RunProtocol
  import opened RunLocks
  import opened Sorting
  import opened Instants

  datatype RunRow = RunRow(id: RunId, command: string, startedAt: string, finishedAt: Option<string>, status: string)

  /** `ORDER BY started_at DESC, pipeline_run_id DESC`. */
  predicate NewerFirst(a: RunRow, b: RunRow) {
    if a.startedAt == b.startedAt then StringLe(b.id, a.id) else StringLe(b.startedAt, a.startedAt)
  }

  lemma NewerFirstOrders()
    ensures TotalPreorder(NewerFirst)
  {
    forall a: RunRow, b: RunRow ensures NewerFirst(a, b) || NewerFirst(b, a) {
      StringTotal(a.id, b.id);
      StringTotal(a.startedAt, b.startedAt);
    }
    forall a: RunRow, b: RunRow, c: RunRow | NewerFirst(a, b) && NewerFirst(b, c) ensures NewerFirst(a, c) {
      NewerFirstChains(a, b, c);
    }
  }

  lemma NewerFirstChains(a: RunRow, b: RunRow, c: RunRow)
    requires NewerFirst(a, b) && NewerFirst(b, c)
    ensures NewerFirst(a, c)
  {
    if a.startedAt == b.startedAt == c.startedAt {
      StringTransitive(c.id, b.id, a.id);
    } else if a.startedAt != b.startedAt && b.startedAt != c.startedAt {
      StringTransitive(c.startedAt, b.startedAt, a.startedAt);
      if a.startedAt == c.startedAt {
        StringAntisymmetric(a.startedAt, b.startedAt);
      }
    }
  }

  /** What `list_open_pipeline_runs` returns. */
  function OpenRowsInOrder(rows: seq<RunRow>): seq<RunRow> {
    StableSort(OpenRows(rows), NewerFirst)
  }

  /** The open rows come newest first. */
  lemma OpenRunsComeNewestFirst(rows: seq<RunRow>, i: nat, j: nat)
    requires i < j < |OpenRows(rows)|
    ensures var list := OpenRowsInOrder(rows);
      && StringLe(list[j].startedAt, list[i].startedAt)
      && !Earlier(list[i].startedAt, list[j].startedAt)
  {
    var list := OpenRowsInOrder(rows);
    NewerFirstOrders();
    SortSorts(OpenRows(rows), NewerFirst);
    assert NewerFirst(list[i], list[j]);
    StringTotal(list[i].startedAt, list[i].startedAt);
    if Earlier(list[i].startedAt, list[j].startedAt) {
      InstantsOrderLikeTime(list[i].startedAt, list[j].startedAt);
      StringAntisymmetric(list[i].startedAt, list[j].startedAt);
    }
  }

  function OpenRows(rows: seq<RunRow>): (r: seq<RunRow>)
    ensures forall x :: x in r <==> x in rows && x.status == RUNNING
  {
    if rows == [] then []
    else
      assert rows == [rows[0]] + rows[1..];
      (if rows[0].status == RUNNING then [rows[0]] else []) + OpenRows(rows[1..])
  }

  predicate HasRow(rows: seq<RunRow>, id: RunId) {
    exists i :: 0 <= i < |rows| && rows[i].id == id
  }

  predicate HasOpenRow(rows: seq<RunRow>, id: RunId) {
    exists i :: 0 <= i < |rows| && rows[i].id == id && rows[i].status == RUNNING
  }

  ghost predicate UniqueIds(rows: seq<RunRow>) {
    forall i, j :: 0 <= i < j < |rows| ==> rows[i].id != rows[j].id
  }

  /** `close_pipeline_run` on the table: no guard on the status the row has. */
  function Closed(rows: seq<RunRow>, id: RunId, status: string, now: string): (r: seq<RunRow>)
    ensures |r| == |rows|
    ensures forall i :: 0 <= i < |rows| ==>
      r[i] == if rows[i].id == id then rows[i].(status := status, finishedAt := Some(now)) else rows[i]
  {
    seq(|rows|, i requires 0 <= i < |rows| =>
      if rows[i].id == id then rows[i].(status := status, finishedAt := Some(now)) else rows[i])
  }

  /** Every row of `ids` closed as abandoned, and no other. */
  function AllClosed(rows: seq<RunRow>, ids: seq<RunId>, now: string): (r: seq<RunRow>)
    ensures |r| == |rows|
    ensures forall i :: 0 <= i < |rows| ==>
      r[i] == if rows[i].id in ids then rows[i].(status := ABANDONED, finishedAt := Some(now)) else rows[i]
  {
    seq(|rows|, i requires 0 <= i < |rows| =>
      if rows[i].id in ids then rows[i].(status := ABANDONED, finishedAt := Some(now)) else rows[i])
  }

  function LockNamesOf(ids: seq<RunId>): set<string> {
    set i | 0 <= i < |ids| :: LockName(ids[i])
  }

  /** A row still reading `running`, with the verdict of its record. */
  datatype OpenRun = OpenRun(id: RunId, liveness: Liveness)

  /** The runs of a survey that have a given verdict, in survey order. */
  function Judged(runs: seq<OpenRun>, liveness: Liveness): (r: seq<RunId>)
    ensures forall id :: id in r <==> OpenRun(id, liveness) in runs
  {
    if runs == [] then []
    else
      assert runs == [runs[0]] + runs[1..];
      (if runs[0].liveness == liveness then [runs[0].id] else []) + Judged(runs[1..], liveness)
  }

  lemma {:induction false} JudgedAppend(runs: seq<OpenRun>, run: OpenRun, liveness: Liveness)
    ensures Judged(runs + [run], liveness) == Judged(runs, liveness) + if run.liveness == liveness then [run.id] else []
  {
    if runs == [] {
      assert runs + [run] == [run] && [run][1..] == [];
    } else {
      SplitFirst(runs, [run]);
      JudgedAppend(runs[1..], run, liveness);
      Associate(if runs[0].liveness == liveness then [runs[0].id] else [], Judged(runs[1..], liveness),
        if run.liveness == liveness then [run.id] else []);
    }
  }

  /** Every surveyed run is counted under exactly one verdict. */
  lemma {:induction false} VerdictsAddUp(runs: seq<OpenRun>)
    ensures |Judged(runs, Held)| + |Judged(runs, Abandoned)| + |Judged(runs, NoRecord)| + |Judged(runs, Unreadable)|
         == |runs|
  {
    if runs != [] {
      VerdictsAddUp(runs[1..]);
    }
  }

  /** The survey lists the open rows, each as often as it is there. */
  lemma SurveyMembers(rows: seq<RunRow>)
    ensures var survey := OpenRowsInOrder(rows);
      |survey| == |OpenRows(rows)| && forall x :: x in survey <==> x in rows && x.status == RUNNING
  {
    var survey := OpenRowsInOrder(rows);
    forall x ensures x in survey <==> x in OpenRows(rows) {
      assert x in survey <==> x in multiset(survey);
      assert x in OpenRows(rows) <==> x in multiset(OpenRows(rows));
    }
  }

  /** The runs whose probe the operating system refuses something. */
  type Troubles = map<RunId, Trouble>

  function TroubleOf(troubles: Troubles, id: RunId): Trouble {
    if id in troubles then troubles[id] else Nothing
  }

  function SurveyedRow(row: RunRow, d: Disk, troubles: Troubles): OpenRun {
    OpenRun(row.id, Read(d, row.id, TroubleOf(troubles, row.id)))
  }

  function Surveyed(list: seq<RunRow>, d: Disk, troubles: Troubles): (runs: seq<OpenRun>)
    ensures |runs| == |list| && forall i :: 0 <= i < |list| ==> runs[i] == SurveyedRow(list[i], d, troubles)
  {
    seq(|list|, i requires 0 <= i < |list| => SurveyedRow(list[i], d, troubles))
  }

  lemma SurveyedAppend(list: seq<RunRow>, n: nat, d: Disk, troubles: Troubles)
    requires n < |list|
    ensures Surveyed(list[..n + 1], d, troubles) ==
      Surveyed(list[..n], d, troubles) + [SurveyedRow(list[n], d, troubles)]
  {
  }

  predicate OpenAndReads(rows: seq<RunRow>, d: Disk, troubles: Troubles, liveness: Liveness, id: RunId) {
    HasOpenRow(rows, id) && Read(d, id, TroubleOf(troubles, id)) == liveness
  }

  /** The survey of a list of rows judges each by its own record. */
  lemma {:induction false} JudgedIn(list: seq<RunRow>, d: Disk, troubles: Troubles, liveness: Liveness, id: RunId)
    ensures id in Judged(Surveyed(list, d, troubles), liveness)
       <==> HasRow(list, id) && Read(d, id, TroubleOf(troubles, id)) == liveness
  {
    if list != [] {
      assert Surveyed(list, d, troubles)[1..] == Surveyed(list[1..], d, troubles);
      JudgedIn(list[1..], d, troubles, liveness, id);
      HasRowSplits(list, id);
    }
  }

  lemma HasRowSplits(list: seq<RunRow>, id: RunId)
    requires list != []
    ensures HasRow(list, id) <==> list[0].id == id || HasRow(list[1..], id)
  {
    if i :| 0 <= i < |list| && list[i].id == id && i > 0 {
      assert list[1..][i - 1].id == id;
    }
    if i :| 0 <= i < |list[1..]| && list[1..][i].id == id {
      assert list[i + 1].id == id;
    }
  }

  lemma ListedRows(rows: seq<RunRow>, id: RunId)
    ensures HasRow(OpenRowsInOrder(rows), id) <==> HasOpenRow(rows, id)
  {
    SurveyMembers(rows);
    SameIds(OpenRowsInOrder(rows), rows, id);
  }

  lemma SameIds(list: seq<RunRow>, rows: seq<RunRow>, id: RunId)
    requires forall x :: x in list <==> x in rows && x.status == RUNNING
    ensures HasRow(list, id) <==> HasOpenRow(rows, id)
  {
    if i :| 0 <= i < |rows| && rows[i].id == id && rows[i].status == RUNNING {
      assert rows[i] in list;
      var k :| 0 <= k < |list| && list[k] == rows[i];
    }
    if k :| 0 <= k < |list| && list[k].id == id {
      assert list[k] in rows;
      var i :| 0 <= i < |rows| && rows[i] == list[k];
    }
  }

  /** Newest first, every open row with the verdict of its record. */
  function SurveyOf(rows: seq<RunRow>, d: Disk, troubles: Troubles): seq<OpenRun> {
    Surveyed(OpenRowsInOrder(rows), d, troubles)
  }

  lemma SurveyJudges(rows: seq<RunRow>, d: Disk, troubles: Troubles, liveness: Liveness, id: RunId)
    ensures |SurveyOf(rows, d, troubles)| == |OpenRows(rows)|
    ensures id in Judged(SurveyOf(rows, d, troubles), liveness) <==> OpenAndReads(rows, d, troubles, liveness, id)
  {
    SurveyMembers(rows);
    JudgedIn(OpenRowsInOrder(rows), d, troubles, liveness, id);
    ListedRows(rows, id);
  }

  /** The places of the open rows whose record reads so. */
  function OpenPlaces(rows: seq<RunRow>, d: Disk, troubles: Troubles, liveness: Liveness): set<int> {
    set i | 0 <= i < |rows| && rows[i].status == "running"
            && Read(d, rows[i].id, TroubleOf(troubles, rows[i].id)) == liveness
  }

  function ReadsSo(d: Disk, troubles: Troubles, liveness: Liveness): RunRow -> bool {
    (r: RunRow) => Read(d, r.id, TroubleOf(troubles, r.id)) == liveness
  }

  function IsOpenAnd(p: RunRow -> bool): RunRow -> bool {
    (r: RunRow) => r.status == RUNNING && p(r)
  }

  lemma {:induction false} JudgedCounts(list: seq<RunRow>, d: Disk, troubles: Troubles, liveness: Liveness)
    ensures |Judged(Surveyed(list, d, troubles), liveness)| == Counted(list, ReadsSo(d, troubles, liveness))
  {
    if list != [] {
      assert Surveyed(list, d, troubles)[1..] == Surveyed(list[1..], d, troubles);
      JudgedCounts(list[1..], d, troubles, liveness);
    }
  }

  lemma {:induction false} OpenRowsCount(rows: seq<RunRow>, p: RunRow -> bool)
    ensures Counted(OpenRows(rows), p) == Counted(rows, IsOpenAnd(p))
  {
    if rows != [] {
      OpenRowsCount(rows[1..], p);
      var rest := OpenRows(rows[1..]);
      if rows[0].status == RUNNING {
        assert ([rows[0]] + rest)[1..] == rest;
      } else {
        assert OpenRows(rows) == rest;
      }
    }
  }

  /** The runs a survey judges so are as many as the open rows whose record reads so. */
  lemma SurveyCounts(rows: seq<RunRow>, d: Disk, troubles: Troubles, liveness: Liveness)
    ensures |Judged(SurveyOf(rows, d, troubles), liveness)| == |OpenPlaces(rows, d, troubles, liveness)|
  {
    var p := ReadsSo(d, troubles, liveness);
    JudgedCounts(OpenRowsInOrder(rows), d, troubles, liveness);
    SortCounts(OpenRows(rows), NewerFirst, p);
    OpenRowsCount(rows, p);
    CountedIsCardinality(rows, IsOpenAnd(p));
    assert Places(rows, IsOpenAnd(p)) == OpenPlaces(rows, d, troubles, liveness);
  }

  function Outside(ids: seq<RunId>, barred: set<RunId>): seq<RunId> {
    if ids == [] then [] else (if ids[0] in barred then [] else [ids[0]]) + Outside(ids[1..], barred)
  }

  function Inside(ids: seq<RunId>, barred: set<RunId>): seq<RunId> {
    if ids == [] then [] else (if ids[0] in barred then [ids[0]] else []) + Inside(ids[1..], barred)
  }

  lemma {:induction false} OutsideAndInside(ids: seq<RunId>, barred: set<RunId>)
    ensures |Outside(ids, barred)| + |Inside(ids, barred)| == |ids|
    ensures forall id :: id in Outside(ids, barred) <==> id in ids && id !in barred
    ensures forall id :: id in Inside(ids, barred) <==> id in ids && id in barred
  {
    if ids != [] {
      assert ids == [ids[0]] + ids[1..];
      OutsideAndInside(ids[1..], barred);
    }
  }

  lemma {:induction false} OneMoreSorted(ids: seq<RunId>, id: RunId, barred: set<RunId>)
    ensures Outside(ids + [id], barred) == Outside(ids, barred) + if id in barred then [] else [id]
    ensures Inside(ids + [id], barred) == Inside(ids, barred) + if id in barred then [id] else []
  {
    if ids == [] {
      assert ids + [id] == [id] && [id][1..] == [];
    } else {
      assert (ids + [id])[1..] == ids[1..] + [id];
      OneMoreSorted(ids[1..], id, barred);
    }
  }

  // ----- the outcome of a pass -----

  /** The table and the directory after a pass has closed the runs in `ids`; the records of `stuck` ones stay. */
  ghost predicate After(rows: seq<RunRow>, d: Disk, ids: seq<RunId>, stuck: set<RunId>, now: string,
                        newRows: seq<RunRow>, newDisk: Disk) {
    newRows == AllClosed(rows, ids, now) && RecordsGone(d, ids, stuck, newDisk)
  }

  ghost predicate RecordsGone(d: Disk, ids: seq<RunId>, stuck: set<RunId>, newDisk: Disk) {
    newDisk == d.(files := d.files - LockNamesOf(Outside(ids, stuck)))
  }

  lemma NoneClosed(rows: seq<RunRow>, d: Disk, stuck: set<RunId>, now: string)
    ensures After(rows, d, [], stuck, now, rows, d)
  {
    assert AllClosed(rows, [], now) == rows;
  }

  lemma OneMoreClosed(rows: seq<RunRow>, ids: seq<RunId>, id: RunId, now: string)
    ensures Closed(AllClosed(rows, ids, now), id, ABANDONED, now) == AllClosed(rows, ids + [id], now)
  {
    assert forall x :: x in ids + [id] <==> x in ids || x == id;
  }

  lemma OneMoreName(ids: seq<RunId>, id: RunId, stuck: set<RunId>)
    ensures LockNamesOf(Outside(ids + [id], stuck))
      == LockNamesOf(Outside(ids, stuck)) + if id in stuck then {} else {LockName(id)}
  {
    OneMoreSorted(ids, id, stuck);
    NamesAppend(Outside(ids, stuck), id);
    assert Outside(ids, stuck) + [] == Outside(ids, stuck);
  }

  lemma NamesAppend(ids: seq<RunId>, id: RunId)
    ensures LockNamesOf(ids + [id]) == LockNamesOf(ids) + {LockName(id)}
  {
    var more := ids + [id];
    assert more[|ids|] == id && forall i :: 0 <= i < |ids| ==> more[i] == ids[i];
  }

  /** After a pass that closed every abandoned run, none is left, so a second pass closes nothing. */
  lemma NothingLeftToClose(rows: seq<RunRow>, d: Disk, troubles: Troubles, ids: seq<RunId>, stuck: set<RunId>,
                           now: string, row: RunRow)
    requires forall id :: OpenAndReads(rows, d, troubles, Abandoned, id) ==> id in ids
    requires row in AllClosed(rows, ids, now) && row.status == RUNNING
    ensures var after := d.(files := d.files - LockNamesOf(Outside(ids, stuck)));
      Read(after, row.id, TroubleOf(troubles, row.id)) != Abandoned
  {
    var i :| 0 <= i < |rows| && AllClosed(rows, ids, now)[i] == row;
    assert rows[i].id == row.id && (rows[i].status == RUNNING ==> HasOpenRow(rows, row.id));
  }

  /** A pass changes no other run's reading. */
  lemma OthersReadAsBefore(d: Disk, ids: seq<RunId>, other: RunId, trouble: Trouble)
    requires IsRunId(other) && other !in ids && forall i :: 0 <= i < |ids| ==> IsRunId(ids[i])
    ensures Read(d.(files := d.files - LockNamesOf(ids)), other, trouble) == Read(d, other, trouble)
  {
    if LockName(other) in LockNamesOf(ids) {
      var i :| 0 <= i < |ids| && LockName(other) == LockName(ids[i]);
      LockNamesDistinguishRuns(other, ids[i]);
    }
  }
}
