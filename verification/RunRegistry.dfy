/** The registry's own calls: opening a run, ending it, surveying the open ones, closing the abandoned ones. */
module RunRegistry {
  import opened Prelude
  import opened RunNames
  import opened Instants
  import opened RunProtocol
  import opened RunLocks
  import opened RunTable
  import opened RunRepair

  datatype Report = Report(closed: seq<RunId>, failures: seq<RunId>, leftRunning: nat, leftUnjudged: nat)

  // ----- the two legs of a run in the protocol -----

  /** The opening leg: the row first, then `acquire`, whatever becomes of it. */
  ghost predicate BeginLeadsTo(s: State, id: RunId, trouble: Trouble, locked: bool, rows: seq<RunRow>, d: Disk) {
    && Enabled(s, OpenRow(id))
    && var t := Acquired(Apply(s, OpenRow(id)), id, trouble);
       InStep(rows, t) && DiskOf(t) == d && (locked <==> At(t, id, Holding))
  }

  lemma NewRowInStep(rows: seq<RunRow>, s: State, row: RunRow, t: State)
    requires InStep(rows, s) && !HasRow(rows, row.id) && t.rows == s.rows[row.id := row.status]
    ensures InStep(rows + [row], t)
  {
    var more := rows + [row];
    forall x ensures HasRow(more, x) <==> HasRow(rows, x) || x == row.id {
      assert more[|rows|] == row;
      if i :| 0 <= i < |rows| && rows[i].id == x { assert more[i].id == x; }
      if i :| 0 <= i < |more| && more[i].id == x && i < |rows| { assert rows[i].id == x; }
    }
    forall i | 0 <= i < |more| ensures more[i].id in t.rows && t.rows[more[i].id] == more[i].status {
      assert i < |rows| ==> HasRow(rows, more[i].id);
    }
  }

  lemma BeginIsSteps(s: State, rows: seq<RunRow>, row: RunRow, trouble: Trouble)
    requires InStep(rows, s) && !HasRow(rows, row.id) && IsRunId(row.id) && row.status == RUNNING
    ensures Enabled(s, OpenRow(row.id))
    ensures InStep(rows + [row], Acquired(Apply(s, OpenRow(row.id)), row.id, trouble))
  {
    NewRowInStep(rows, s, row, Acquired(Apply(s, OpenRow(row.id)), row.id, trouble));
  }

  /**
   How a run is closed: with which status, whether the catalog refuses the update,
   and whether the record cannot be unlinked.
   */
  datatype Ending = Ending(ok: bool, refused: bool, stuck: bool) {
    function Status(): string { if ok then "ok" else "error" }

    predicate Keeps() { refused || stuck }
  }

  /** The closing leg: the status if the catalog takes it, then the record. */
  function EndSteps(id: RunId, held: bool, e: Ending): seq<Step> {
    (if e.refused then [] else [Stamp(id, e.Status())]) + LastSteps(id, held, e.Keeps())
  }

  function LastSteps(id: RunId, held: bool, keeps: bool): seq<Step> {
    if !held then [Finish(id)] else if keeps then [RunProtocol.Abandon(id)] else [Unlink(id)] + [Release(id)]
  }

  /** The run is where its owner holds the lock on this inode, or holds none. */
  predicate CanEnd(s: State, id: RunId, inode: Option<Inode>) {
    && id in s.rows
    && match inode
       case None => At(s, id, Untracked) || At(s, id, LeftBehind)
       case Some(n) => At(s, id, Holding) && id in s.inodes && s.inodes[id] == n
  }

  function AfterLast(t: State, id: RunId, inode: Option<Inode>, keeps: bool): State
    requires CanEnd(t, id, inode)
  {
    if inode.None? then Apply(t, Finish(id))
    else if keeps then Apply(t, RunProtocol.Abandon(id))
    else Apply(Apply(t, Unlink(id)), Release(id))
  }

  function Stamped(s: State, id: RunId, inode: Option<Inode>, e: Ending): (t: State)
    requires CanEnd(s, id, inode)
    ensures CanEnd(t, id, inode) && DiskOf(t) == DiskOf(s)
  {
    if e.refused then s else Apply(s, Stamp(id, e.Status()))
  }

  lemma OneStep(s: State, step: Step)
    requires Enabled(s, step)
    ensures Goes(s, [step], Apply(s, step))
  {
    StepsCompose(s, [], step);
    assert [] + [step] == [step];
  }

  lemma LastGoes(t: State, id: RunId, inode: Option<Inode>, keeps: bool)
    requires CanEnd(t, id, inode)
    ensures Goes(t, LastSteps(id, inode.Some?, keeps), AfterLast(t, id, inode, keeps))
  {
    if inode.None? {
      OneStep(t, Finish(id));
    } else if keeps {
      OneStep(t, RunProtocol.Abandon(id));
    } else {
      OneStep(t, Unlink(id));
      OneStep(Apply(t, Unlink(id)), Release(id));
      GoesOn(t, [Unlink(id)], Apply(t, Unlink(id)), [Release(id)], Apply(Apply(t, Unlink(id)), Release(id)));
    }
  }

  lemma StampGoes(s: State, id: RunId, inode: Option<Inode>, e: Ending)
    requires CanEnd(s, id, inode)
    ensures Goes(s, if e.refused then [] else [Stamp(id, e.Status())], Stamped(s, id, inode, e))
  {
    if !e.refused {
      OneStep(s, Stamp(id, e.Status()));
    }
  }

  /** The disk once the lock on this inode, if there is one, is dropped. */
  function DroppedDisk(d: Disk, id: RunId, inode: Option<Inode>, keeps: bool): Disk {
    match inode
    case None => d
    case Some(n) =>
      d.(files := if keeps then d.files else d.files - {LockName(id)},
         locks := if n in d.locks && d.locks[n] == Owner(id) then d.locks - {n} else d.locks)
  }

  function EndedRows(rows: seq<RunRow>, id: RunId, e: Ending, now: string): seq<RunRow> {
    if e.refused then rows else Closed(rows, id, e.Status(), now)
  }

  /** The closing leg's steps lead from `s` to a state with this table and this disk. */
  ghost predicate EndLeadsTo(s: State, id: RunId, inode: Option<Inode>, e: Ending, rows: seq<RunRow>, d: Disk) {
    exists t {:trigger Goes(s, EndSteps(id, inode.Some?, e), t)} ::
      Goes(s, EndSteps(id, inode.Some?, e), t) && InStep(rows, t) && DiskOf(t) == d
  }

  lemma FinishDisk(t: State, id: RunId)
    requires CanEnd(t, id, None)
    ensures var u := AfterLast(t, id, None, true);
      AfterLast(t, id, None, false) == u && DiskOf(u) == DiskOf(t) && u.rows == t.rows
  {
  }

  lemma AbandonDisk(t: State, id: RunId, n: Inode)
    requires CanEnd(t, id, Some(n))
    ensures var u := AfterLast(t, id, Some(n), true);
      DiskOf(u) == DroppedDisk(DiskOf(t), id, Some(n), true) && u.rows == t.rows
  {
  }

  lemma DropDisk(t: State, id: RunId, n: Inode)
    requires CanEnd(t, id, Some(n))
    ensures var u := AfterLast(t, id, Some(n), false);
      DiskOf(u) == DroppedDisk(DiskOf(t), id, Some(n), false) && u.rows == t.rows
  {
  }

  lemma LastDisk(t: State, id: RunId, inode: Option<Inode>, keeps: bool)
    requires CanEnd(t, id, inode)
    ensures var u := AfterLast(t, id, inode, keeps);
      DiskOf(u) == DroppedDisk(DiskOf(t), id, inode, keeps) && u.rows == t.rows
  {
    match inode
    case None => FinishDisk(t, id);
    case Some(n) =>
      if keeps { AbandonDisk(t, id, n); } else { DropDisk(t, id, n); }
  }

  lemma EndedInStep(rows: seq<RunRow>, s: State, id: RunId, inode: Option<Inode>, e: Ending, now: string, u: State)
    requires CanEnd(s, id, inode) && InStep(rows, s) && u.rows == Stamped(s, id, inode, e).rows
    ensures InStep(EndedRows(rows, id, e, now), u)
  {
    if !e.refused {
      StampInStep(rows, s, id, e.Status(), now, u);
    }
  }

  lemma EndGoes(s: State, id: RunId, inode: Option<Inode>, e: Ending)
    requires CanEnd(s, id, inode)
    ensures Goes(s, EndSteps(id, inode.Some?, e), AfterLast(Stamped(s, id, inode, e), id, inode, e.Keeps()))
  {
    var t := Stamped(s, id, inode, e);
    StampGoes(s, id, inode, e);
    LastGoes(t, id, inode, e.Keeps());
    GoesOn(s, if e.refused then [] else [Stamp(id, e.Status())], t,
      LastSteps(id, inode.Some?, e.Keeps()), AfterLast(t, id, inode, e.Keeps()));
  }

  lemma EndIsSteps(s: State, id: RunId, inode: Option<Inode>, e: Ending, rows: seq<RunRow>, now: string)
    requires CanEnd(s, id, inode) && InStep(rows, s)
    ensures EndLeadsTo(s, id, inode, e, EndedRows(rows, id, e, now), DroppedDisk(DiskOf(s), id, inode, e.Keeps()))
  {
    var t := Stamped(s, id, inode, e);
    EndGoes(s, id, inode, e);
    LastDisk(t, id, inode, e.Keeps());
    EndedInStep(rows, s, id, inode, e, now, AfterLast(t, id, inode, e.Keeps()));
  }

  lemma EveryEndIsSteps(d: Disk, id: RunId, inode: Option<Inode>, e: Ending, rows: seq<RunRow>, now: string)
    ensures forall s {:trigger DiskOf(s)} :: DiskOf(s) == d && InStep(rows, s) && CanEnd(s, id, inode) ==>
      EndLeadsTo(s, id, inode, e, EndedRows(rows, id, e, now), DroppedDisk(d, id, inode, e.Keeps()))
  {
    forall s {:trigger DiskOf(s)} | DiskOf(s) == d && InStep(rows, s) && CanEnd(s, id, inode)
      ensures EndLeadsTo(s, id, inode, e, EndedRows(rows, id, e, now), DroppedDisk(d, id, inode, e.Keeps()))
    {
      EndIsSteps(s, id, inode, e, rows, now);
    }
  }

  function InodeOf(lock: RunLock?): Option<Inode> { if lock == null then None else Some(lock.inode) }

  class Registry {
    var rows: seq<RunRow>

    ghost predicate Valid()
      reads this
    {
      UniqueIds(rows)
    }

    /** Inserting a composite id that is already there fails on the primary key. */
    method OpenPipelineRun(command: string, startedAt: string, sha8: string) returns (r: Option<RunId>)
      requires Valid()
      modifies this
      ensures Valid()
      ensures r == None <==> HasRow(old(rows), RunIdOf(command, startedAt, sha8))
      ensures r.None? ==> rows == old(rows)
      ensures r.Some? ==> r.value == RunIdOf(command, startedAt, sha8)
      ensures r.Some? ==> rows == old(rows) + [RunRow(r.value, command, startedAt, None, "running")]
    {
      var id := RunIdOf(command, startedAt, sha8);
      if HasRow(rows, id) {
        return None;
      }
      rows := rows + [RunRow(id, command, startedAt, None, RUNNING)];
      return Some(id);
    }

    method ClosePipelineRun(id: RunId, status: string, now: string)
      requires Valid()
      modifies this
      ensures Valid() && rows == Closed(old(rows), id, status, now)
    {
      rows := Closed(rows, id, status, now);
    }

    method ListOpenPipelineRuns() returns (r: seq<RunRow>)
      ensures r == OpenRowsInOrder(rows)
      ensures forall i, j :: 0 <= i < j < |r| ==> !Earlier(r[i].startedAt, r[j].startedAt)
    {
      r := OpenRowsInOrder(rows);
      forall i, j | 0 <= i < j < |r| ensures !Earlier(r[i].startedAt, r[j].startedAt) {
        OpenRunsComeNewestFirst(rows, i, j);
      }
    }

    /**
     `open_run`: the row, and the record if one can be taken. A run whose record
     could not be taken is returned all the same.
     */
    method BeginRun(dir: LockDir, command: string, startedAt: string, sha8: string, trouble: Trouble)
      returns (id: Option<RunId>, lock: RunLock?)
      requires Valid()
      modifies this, dir
      ensures Valid()
      ensures id.None? ==> lock == null && rows == old(rows) && dir.OnDisk() == old(dir.OnDisk())
      ensures id.Some? ==> HasOpenRow(rows, id.value)
      ensures lock != null ==> id == Some(lock.id) && fresh(lock) && lock.Held(dir)
      ensures lock != null ==> Read(dir.OnDisk(), lock.id, Nothing) == Held
      ensures id.Some? && IsRunId(id.value) ==> forall s {:trigger DiskOf(s)} ::
        DiskOf(s) == old(dir.OnDisk()) && InStep(old(rows), s) ==>
          BeginLeadsTo(s, id.value, trouble, lock != null, rows, dir.OnDisk())
    {
      lock := null;
      id := OpenPipelineRun(command, startedAt, sha8);
      if id.None? {
        return;
      }
      assert rows[|rows| - 1].id == id.value;
      var r := RunLock.Acquire(dir, id.value, trouble);
      forall s {:trigger DiskOf(s)} | DiskOf(s) == old(dir.OnDisk()) && InStep(old(rows), s) && IsRunId(id.value)
        ensures BeginLeadsTo(s, id.value, trouble, r.Ok?, rows, dir.OnDisk())
      {
        BeginIsSteps(s, old(rows), rows[|rows| - 1], trouble);
        var entered := Apply(s, OpenRow(id.value));
        assert DiskOf(entered) == old(dir.OnDisk());
        assert RunLock.Performed(dir, entered, id.value, trouble, r.Ok?);
      }
      match r
      case Ok(taken) => lock := taken;
      case Err(_) =>
    }

    /**
     `close_run`: the record goes only once the status is stamped. With a lock,
     either the row is closed and no record is left, or the row is as it was and
     the record is what a repair will find; a record that cannot be unlinked stays
     behind a closed row. Without a lock the directory stays as it is.
     */
    method EndRun(dir: LockDir, id: RunId, lock: RunLock?, e: Ending, now: string)
      requires Valid()
      requires lock != null ==> lock.id == id && lock.Held(dir)
      modifies this, dir, lock
      ensures Valid()
      ensures rows == EndedRows(old(rows), id, e, now)
      ensures !e.refused ==> !HasOpenRow(rows, id)
      ensures !e.refused ==> forall i :: 0 <= i < |rows| && rows[i].id == id ==>
        rows[i].status == (if e.ok then "ok" else "error") && rows[i].finishedAt == Some(now)
      ensures lock != null ==> Read(dir.OnDisk(), id, Nothing) == if e.Keeps() then Abandoned else NoRecord
      ensures lock == null ==> dir.OnDisk() == old(dir.OnDisk())
      ensures dir.OnDisk() == DroppedDisk(old(dir.OnDisk()), id, InodeOf(lock), e.Keeps())
      ensures forall s {:trigger DiskOf(s)} ::
        DiskOf(s) == old(dir.OnDisk()) && InStep(old(rows), s) && CanEnd(s, id, InodeOf(lock)) ==>
          EndLeadsTo(s, id, InodeOf(lock), e, rows, dir.OnDisk())
    {
      EveryEndIsSteps(dir.OnDisk(), id, InodeOf(lock), e, rows, now);
      if e.refused {
        if lock != null {
          lock.Abandon(dir);
        }
        return;
      }
      ClosePipelineRun(id, e.Status(), now);
      if lock != null {
        lock.Drop(dir, e.stuck);
      }
    }

    /** `survey_catalog`: every open row with the verdict of its record, nothing changed. */
    method Survey(dir: LockDir, troubles: Troubles, first: ProbeId) returns (runs: seq<OpenRun>)
      modifies dir
      ensures dir.OnDisk() == old(dir.OnDisk())
      ensures runs == SurveyOf(rows, dir.OnDisk(), troubles)
    {
      ghost var d := dir.OnDisk();
      var list := ListOpenPipelineRuns();
      runs := [];
      for n := 0 to |list|
        invariant dir.OnDisk() == d
        invariant runs == Surveyed(list[..n], d, troubles)
      {
        SurveyedAppend(list, n, d, troubles);
        var liveness := dir.RunLiveness(first + n, list[n].id, TroubleOf(troubles, list[n].id));
        runs := runs + [OpenRun(list[n].id, liveness)];
      }
      assert list[..|list|] == list;
    }

    /**
     `close_abandoned_runs` over one catalog. `refused` are the rows whose update
     the catalog rejects, `stuck` the runs whose record cannot be removed. The pass
     closes, in survey order, the rows that read `Abandoned` and no others, removes
     their records and no others, and is one sequence of the protocol's prober and
     repair steps; none of the owners it writes off is alive, if it locked at once.
     */
    method CloseAbandonedRuns(dir: LockDir, dryRun: bool, now: string, refused: set<RunId>, stuck: set<RunId>,
                              troubles: Troubles, first: ProbeId) returns (report: Report)
      requires Valid()
      modifies this, dir
      ensures Valid()
      ensures var runs := SurveyOf(old(rows), old(dir.OnDisk()), troubles);
        && report.closed == Outside(Judged(runs, Abandoned), if dryRun then {} else refused)
        && report.failures == Inside(Judged(runs, Abandoned), if dryRun then {} else refused)
        && |report.closed| + |report.failures| + report.leftRunning + report.leftUnjudged + |Judged(runs, Unreadable)|
           == |OpenRows(old(rows))|
      ensures report.leftRunning == |OpenPlaces(old(rows), old(dir.OnDisk()), troubles, Held)|
      ensures report.leftUnjudged == |OpenPlaces(old(rows), old(dir.OnDisk()), troubles, NoRecord)|
      ensures |report.closed| + |report.failures| == |OpenPlaces(old(rows), old(dir.OnDisk()), troubles, Abandoned)|
      ensures forall id :: id in report.closed ==> OpenAndReads(old(rows), old(dir.OnDisk()), troubles, Abandoned, id)
      ensures OwnersAreGone(old(dir.OnDisk()), report.closed)
      ensures dryRun ==> rows == old(rows) && dir.OnDisk() == old(dir.OnDisk())
      ensures !dryRun ==> After(old(rows), old(dir.OnDisk()), report.closed, stuck, now, rows, dir.OnDisk())
      ensures !dryRun ==> forall s {:trigger DiskOf(s)} ::
        DiskOf(s) == old(dir.OnDisk()) && InStep(old(rows), s) && CanPass(s, old(rows)) && FreshFrom(s, first) ==>
          PassLeadsTo(s, rows, dir.OnDisk())
    {
      var runs := Survey(dir, troubles, first);
      ghost var barred := if dryRun then {} else refused;
      ghost var d := dir.OnDisk();
      AccountedFor(rows, d, troubles, barred);
      SurveyCounts(rows, d, troubles, Held);
      SurveyCounts(rows, d, troubles, NoRecord);
      SurveyCounts(rows, d, troubles, Abandoned);
      report := Report([], [], |Judged(runs, Held)|, |Judged(runs, NoRecord)|);
      var closed, failures := CloseEach(dir, Judged(runs, Abandoned), dryRun, now, refused, stuck);
      report := report.(closed := closed, failures := failures);
      if !dryRun {
        forall s {:trigger DiskOf(s)} |
          DiskOf(s) == d && InStep(old(rows), s) && CanPass(s, old(rows)) && FreshFrom(s, first)
          ensures PassLeadsTo(s, rows, dir.OnDisk())
        {
          ClosedAreTheAbandoned(runs, barred);
          PassIsOnePath(s, old(rows), troubles, first, barred, stuck, now, dir.OnDisk());
        }
      }
    }

    /** The loop of the pass: one failure does not stop the rest. */
    method CloseEach(dir: LockDir, abandoned: seq<RunId>, dryRun: bool, now: string, refused: set<RunId>,
                     stuck: set<RunId>)
      returns (closed: seq<RunId>, failures: seq<RunId>)
      requires Valid()
      modifies this, dir
      ensures Valid()
      ensures closed == Outside(abandoned, if dryRun then {} else refused)
      ensures failures == Inside(abandoned, if dryRun then {} else refused)
      ensures dryRun ==> rows == old(rows) && dir.OnDisk() == old(dir.OnDisk())
      ensures !dryRun ==> After(old(rows), old(dir.OnDisk()), closed, stuck, now, rows, dir.OnDisk())
    {
      closed, failures := [], [];
      NoneClosed(rows, dir.OnDisk(), stuck, now);
      ghost var barred := if dryRun then {} else refused;
      for n := 0 to |abandoned|
        invariant Valid()
        invariant closed == Outside(abandoned[..n], barred) && failures == Inside(abandoned[..n], barred)
        invariant dryRun ==> rows == old(rows) && dir.OnDisk() == old(dir.OnDisk())
        invariant !dryRun ==> After(old(rows), old(dir.OnDisk()), closed, stuck, now, rows, dir.OnDisk())
      {
        assert abandoned[..n + 1] == abandoned[..n] + [abandoned[n]];
        OneMoreSorted(abandoned[..n], abandoned[n], barred);
        var id := abandoned[n];
        if !dryRun && id in refused {
          failures := failures + [id];
        } else {
          if !dryRun {
            ghost var before := dir.OnDisk();
            CloseOne(dir, id, now, id in stuck);
            OneMoreAfter(old(rows), old(dir.OnDisk()), closed, id, stuck, now, before, dir.OnDisk());
          }
          closed := closed + [id];
        }
      }
      assert abandoned[..|abandoned|] == abandoned;
    }

    /**
     `close_one`: stamps one row, then discards the record that licensed stamping
     it, as the protocol's repair steps do for a probe that has read it abandoned.
     */
    method CloseOne(dir: LockDir, id: RunId, now: string, stuck: bool)
      requires Valid()
      modifies this, dir
      ensures Valid() && rows == Closed(old(rows), id, "abandoned", now)
      ensures dir.OnDisk() == if stuck then old(dir.OnDisk())
                              else old(dir.OnDisk()).(files := old(dir.files) - {LockName(id)})
      ensures forall s, q {:trigger DiskOf(s), CanRepair(s, q, id)} ::
        DiskOf(s) == old(dir.OnDisk()) && InStep(old(rows), s) && CanRepair(s, q, id) ==>
          RepairLeadsTo(s, q, id, stuck, rows, dir.OnDisk())
    {
      forall s, q {:trigger DiskOf(s), CanRepair(s, q, id)} |
        DiskOf(s) == dir.OnDisk() && InStep(rows, s) && CanRepair(s, q, id)
        ensures RepairLeadsTo(s, q, id, stuck, Closed(rows, id, ABANDONED, now),
          if stuck then dir.OnDisk() else dir.OnDisk().(files := dir.files - {LockName(id)}))
      {
        RepairIsSteps(s, q, id, stuck, rows, now);
      }
      ClosePipelineRun(id, ABANDONED, now);
      var _ := dir.Discard(id, stuck);
    }
  }

  /**
   Every open row is closed, refused, left running, left unjudged, or unreadable;
   the closed ones' owners are gone.
   */
  lemma AccountedFor(rows: seq<RunRow>, d: Disk, troubles: Troubles, barred: set<RunId>)
    ensures var runs := SurveyOf(rows, d, troubles); var closed := Outside(Judged(runs, Abandoned), barred);
      && |closed| + |Inside(Judged(runs, Abandoned), barred)| + |Judged(runs, Held)| + |Judged(runs, NoRecord)|
         + |Judged(runs, Unreadable)| == |OpenRows(rows)|
      && |closed| + |Inside(Judged(runs, Abandoned), barred)| == |Judged(runs, Abandoned)|
      && (forall id :: id in closed ==> OpenAndReads(rows, d, troubles, Abandoned, id))
      && OwnersAreGone(d, closed)
  {
    var runs := SurveyOf(rows, d, troubles);
    var closed := Outside(Judged(runs, Abandoned), barred);
    VerdictsAddUp(runs);
    OutsideAndInside(Judged(runs, Abandoned), barred);
    SurveyMembers(rows);
    forall id | id in closed ensures OpenAndReads(rows, d, troubles, Abandoned, id) {
      SurveyJudges(rows, d, troubles, Abandoned, id);
    }
    ClosedOwnersAreGone(d, closed, troubles);
  }

  lemma OneMoreAfter(rows: seq<RunRow>, d: Disk, ids: seq<RunId>, id: RunId, stuck: set<RunId>, now: string,
                     before: Disk, after: Disk)
    requires RecordsGone(d, ids, stuck, before)
    requires after == if id in stuck then before else before.(files := before.files - {LockName(id)})
    ensures After(rows, d, ids + [id], stuck, now, Closed(AllClosed(rows, ids, now), id, ABANDONED, now), after)
  {
    OneMoreClosed(rows, ids, id, now);
    RecordsGoneOneMore(d, ids, id, stuck, before, after);
  }
}
