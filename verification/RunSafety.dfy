/**
 Whom a repair may stamp and what it may overwrite. A repair acts on a reading
 its probe recorded earlier; `j` is the step at which that probe tried the lock.
 */
module RunSafety {
  import opened RunNames
  import opened RunProtocol
  import opened RunHistories

  // ----- a live run, stamped -----

  /** The steps by which an owner goes: the end of a drop, of an abandoned one, of a run without a lock, or death. */
  predicate Departs(step: Step, id: RunId) {
    step == Release(id) || step == Abandon(id) || step == Finish(id) || step == Die(id)
  }

  /** A step of the run's owner. */
  predicate OwnStep(step: Step, id: RunId) {
    match step
    case ProbeOpen(_, _) => false
    case ProbeLock(_) => false
    case ProbeClose(_) => false
    case ProbeDie(_) => false
    case RepairStamp(_) => false
    case RepairDiscard(_) => false
    case _ => step.id == id
  }

  lemma OthersLeaveThePhase(s: State, step: Step, id: RunId)
    requires Enabled(s, step) && id in s.phase && !OwnStep(step, id)
    ensures id in Apply(s, step).phase && Apply(s, step).phase[id] == s.phase[id]
  {
  }

  lemma OwnStepsEndLife(s: State, step: Step, id: RunId)
    requires RunOk(s, id) && Enabled(s, step) && id in s.phase && OwnStep(step, id)
    ensures id in Apply(s, step).phase && Live(s.phase[id])
    ensures Live(Apply(s, step).phase[id]) <==> !Departs(step, id)
  {
  }

  lemma DepartingEndsLife(s: State, step: Step, id: RunId)
    requires RunOk(s, id) && Enabled(s, step) && id in s.phase
    ensures id in Apply(s, step).phase
    ensures Live(Apply(s, step).phase[id]) <==> Live(s.phase[id]) && !Departs(step, id)
  {
    if OwnStep(step, id) {
      OwnStepsEndLife(s, step, id);
    } else {
      OthersLeaveThePhase(s, step, id);
    }
  }

  /** The run's owner does not go from step `i` on, up to step `m`. */
  predicate StaysOn(steps: seq<Step>, i: nat, m: nat, id: RunId)
    requires m <= |steps|
  {
    forall k :: i <= k < m ==> !Departs(steps[k], id)
  }

  lemma LiveNext(steps: seq<Step>, k: nat, id: RunId)
    requires Legal(Init, steps) && k < |steps| && id in Before(steps, k).phase
    ensures id in Before(steps, k + 1).phase
    ensures Live(Before(steps, k + 1).phase[id]) <==> Live(Before(steps, k).phase[id]) && !Departs(steps[k], id)
  {
    NextMoment(steps, k);
    RunOkBefore(steps, k, id);
    DepartingEndsLife(Before(steps, k), steps[k], id);
  }

  /** A run is live later exactly if it is live now and its owner does not go in between. */
  lemma {:induction false} LiveLater(steps: seq<Step>, i: nat, m: nat, id: RunId)
    requires Legal(Init, steps) && i <= m <= |steps| && id in Before(steps, i).phase
    ensures id in Before(steps, m).phase
    ensures Live(Before(steps, m).phase[id]) <==> Live(Before(steps, i).phase[id]) && StaysOn(steps, i, m, id)
    decreases m
  {
    if i < m {
      LiveLater(steps, i, m - 1, id);
      LiveNext(steps, m - 1, id);
    }
  }

  /** What stands behind a recorded `Abandoned`: an opening, a try, and at the try a lock nobody held. */
  lemma AbandonedReading(steps: seq<Step>, q: ProbeId) returns (i: nat, j: nat)
    requires Legal(Init, steps) && q in Run(Init, steps).probes
    requires Run(Init, steps).probes[q].Reading? && Run(Init, steps).probes[q].liveness == Abandoned
    ensures LastOpen(steps, i, q) && steps[i] == ProbeOpen(q, Run(Init, steps).probes[q].id)
    ensures i < j && LastTry(steps, j, q) && NotStampedSince(steps, i, q)
    ensures var id := Run(Init, steps).probes[q].id;
      id in Before(steps, j).phase && (Live(Before(steps, j).phase[id]) <==> MetInWindow(steps, j, id))
  {
    var n;
    i, j, n := ProbeHasStory(steps, q);
    LockFreeWhen(steps, j, q, Run(Init, steps).probes[q].id, n);
  }

  /**
   Over every history: a repair about to stamp a run stamps a live one if and only
   if its own probe took the run's lock while the run was in its window, and the
   owner has not gone since.
   */
  lemma RepairStampsLiveRunIff(steps: seq<Step>, q: ProbeId) returns (j: nat)
    requires Legal(Init, steps) && Enabled(Run(Init, steps), RepairStamp(q))
    ensures LastTry(steps, j, q)
    ensures var id, s := Run(Init, steps).probes[q].id, Run(Init, steps);
      id in s.phase && (Live(s.phase[id]) <==> MetInWindow(steps, j, id) && StaysOn(steps, j, |steps|, id))
  {
    var i;
    i, j := AbandonedReading(steps, q);
    LiveLater(steps, j, |steps|, Run(Init, steps).probes[q].id);
    LastMomentIsNow(steps);
  }

  lemma OneLastTry(steps: seq<Step>, q: ProbeId, j: nat, k: nat)
    requires LastTry(steps, j, q) && LastTry(steps, k, q)
    ensures j == k
  {
  }

  /** So a repair spares a live run whatever other probes have met it in its window, if its own has not. */
  lemma RepairSparesLiveRuns(steps: seq<Step>, q: ProbeId, j: nat)
    requires Legal(Init, steps) && Enabled(Run(Init, steps), RepairStamp(q))
    requires LastTry(steps, j, q) && !MetInWindow(steps, j, Run(Init, steps).probes[q].id)
    ensures var s := Run(Init, steps); s.probes[q].id in s.phase && !Live(s.phase[s.probes[q].id])
  {
    var k := RepairStampsLiveRunIff(steps, q);
    OneLastTry(steps, q, j, k);
  }

  /** No probe ever meets in its window a run that locks at once. */
  lemma LockingAtOnceIsNeverMet(steps: seq<Step>, id: RunId, j: nat)
    requires Legal(Init, steps) && LocksAtOnce(steps, id)
    ensures !MetInWindow(steps, j, id)
  {
    LockingAtOnceAvoidsTheWindow(Init, steps, id);
    DisturbedMeans(steps, id);
  }

  /** No repair ever stamps such a run while its owner is live. */
  lemma LockingAtOnceMakesRepairSafe(steps: seq<Step>, q: ProbeId)
    requires Legal(Init, steps) && Enabled(Run(Init, steps), RepairStamp(q))
    requires LocksAtOnce(steps, Run(Init, steps).probes[q].id)
    ensures var s := Run(Init, steps); s.probes[q].id in s.phase && !Live(s.phase[s.probes[q].id])
  {
    var j := RepairStampsLiveRunIff(steps, q);
    LockingAtOnceIsNeverMet(steps, Run(Init, steps).probes[q].id, j);
  }

  // ----- a status, overwritten -----

  /** The owner closes the row at step `k`. */
  predicate OwnerCloses(steps: seq<Step>, k: nat, id: RunId) {
    k < |steps| && steps[k].Stamp? && steps[k].id == id
  }

  /** A repair other than `q`'s closes the row at step `k`. */
  predicate OtherRepairCloses(steps: seq<Step>, k: nat, q: ProbeId, id: RunId)
    requires Legal(Init, steps)
  {
    && k < |steps| && steps[k].RepairStamp? && steps[k].q != q
    && var p := steps[k].q; p in Before(steps, k).probes && Before(steps, k).probes[p].id == id
  }

  /** The step sets the row's status: the owner's close, or a repair's. */
  predicate Closes(s: State, step: Step, id: RunId) {
    if step.Stamp? then step.id == id
    else step.RepairStamp? && step.q in s.probes && s.probes[step.q].id == id
  }

  ghost predicate ClosedBetween(steps: seq<Step>, i: nat, m: nat, id: RunId)
    requires Legal(Init, steps) && m <= |steps|
  {
    exists k: nat :: i <= k < m && Closes(Before(steps, k), steps[k], id)
  }

  lemma RowAfter(s: State, step: Step, id: RunId)
    requires Enabled(s, step) && id in s.rows
    ensures id in Apply(s, step).rows
    ensures Apply(s, step).rows[id] != RUNNING <==> Closes(s, step, id) || s.rows[id] != RUNNING
  {
  }

  /** A row that reads `running` goes on reading so exactly until something closes it. */
  lemma {:induction false} RunningUntilClosed(steps: seq<Step>, i: nat, m: nat, id: RunId)
    requires Legal(Init, steps) && i <= m <= |steps| && id in Before(steps, i).rows
    ensures id in Before(steps, m).rows
    ensures Before(steps, m).rows[id] != RUNNING
       <==> Before(steps, i).rows[id] != RUNNING || ClosedBetween(steps, i, m, id)
    decreases m
  {
    if i < m {
      RunningUntilClosed(steps, i, m - 1, id);
      NextMoment(steps, m - 1);
      RowAfter(Before(steps, m - 1), steps[m - 1], id);
    }
  }

  /** An owner that is gone closes nothing. */
  lemma GoneOwnersDoNotClose(steps: seq<Step>, j: nat, k: nat, id: RunId)
    requires Legal(Init, steps) && j <= k <= |steps|
    requires id in Before(steps, j).phase && !Live(Before(steps, j).phase[id])
    ensures !OwnerCloses(steps, k, id)
  {
    LiveLater(steps, j, k, id);
    if k < |steps| {
      NextMoment(steps, k);
    }
  }

  /** Whoever closed the row since the probe opened the record. */
  ghost predicate ClosedByOwner(steps: seq<Step>, i: nat, m: nat, id: RunId) {
    exists k: nat :: i <= k < m && OwnerCloses(steps, k, id)
  }

  ghost predicate ClosedByAnother(steps: seq<Step>, i: nat, q: ProbeId, id: RunId)
    requires Legal(Init, steps)
  {
    exists k: nat :: i <= k < |steps| && OtherRepairCloses(steps, k, q, id)
  }

  /** Until when the owner of the run may still have closed its row. */
  ghost function OwnersTime(steps: seq<Step>, j: nat, id: RunId): nat
    requires Legal(Init, steps)
  {
    if MetInWindow(steps, j, id) then |steps| else j
  }

  lemma ClosedByWhom(steps: seq<Step>, i: nat, j: nat, q: ProbeId, id: RunId)
    requires Legal(Init, steps) && i <= j <= |steps| && NotStampedSince(steps, i, q)
    requires id in Before(steps, j).phase && (Live(Before(steps, j).phase[id]) <==> MetInWindow(steps, j, id))
    ensures ClosedBetween(steps, i, |steps|, id)
       <==> ClosedByOwner(steps, i, OwnersTime(steps, j, id), id) || ClosedByAnother(steps, i, q, id)
  {
    if ClosedBetween(steps, i, |steps|, id) {
      var k: nat :| i <= k < |steps| && Closes(Before(steps, k), steps[k], id);
      if steps[k].Stamp? {
        assert OwnerCloses(steps, k, id);
        if !MetInWindow(steps, j, id) && j <= k {
          GoneOwnersDoNotClose(steps, j, k, id);
        }
      } else {
        assert OtherRepairCloses(steps, k, q, id);
      }
    }
    if ClosedByOwner(steps, i, OwnersTime(steps, j, id), id) {
      var k: nat :| i <= k < OwnersTime(steps, j, id) && OwnerCloses(steps, k, id);
      assert Closes(Before(steps, k), steps[k], id);
    }
    if ClosedByAnother(steps, i, q, id) {
      var k: nat :| i <= k < |steps| && OtherRepairCloses(steps, k, q, id);
      assert Closes(Before(steps, k), steps[k], id);
    }
  }

  /**
   Over every history: if the row read `running` when the probe opened the record,
   its repair overwrites a status if and only if the owner closed the row between
   the probe's opening and its try, or another repair has closed it since. Only an
   owner the probe met in its window may have closed it after the try as well, and
   a run that locks at once is never met there.
   */
  lemma RepairOverwritesIff(steps: seq<Step>, q: ProbeId) returns (i: nat, j: nat)
    requires Legal(Init, steps) && Enabled(Run(Init, steps), RepairStamp(q))
    ensures LastOpen(steps, i, q) && i < j && LastTry(steps, j, q)
    ensures var id, s := Run(Init, steps).probes[q].id, Run(Init, steps);
      && id in Before(steps, i).rows
      && (Before(steps, i).rows[id] == RUNNING ==>
           (s.rows[id] != RUNNING
            <==> ClosedByOwner(steps, i, OwnersTime(steps, j, id), id) || ClosedByAnother(steps, i, q, id)))
      && (LocksAtOnce(steps, id) ==> OwnersTime(steps, j, id) == j)
  {
    i, j := AbandonedReading(steps, q);
    var id := Run(Init, steps).probes[q].id;
    NextMoment(steps, i);
    RunningUntilClosed(steps, i, |steps|, id);
    LastMomentIsNow(steps);
    ClosedByWhom(steps, i, j, q, id);
    if LocksAtOnce(steps, id) {
      LockingAtOnceIsNeverMet(steps, id, j);
    }
  }

  /**
   The guard: a repair that reads the row again at any moment `m` after its probe's
   try, finds it `running`, and has no other repair at work from then on, overwrites
   no status, unless its probe met the run in its window.
   */
  lemma ReadingAgainGuards(steps: seq<Step>, q: ProbeId, j: nat, m: nat)
    requires Legal(Init, steps) && Enabled(Run(Init, steps), RepairStamp(q))
    requires LastTry(steps, j, q) && j <= m <= |steps| && !MetInWindow(steps, j, Run(Init, steps).probes[q].id)
    requires var id := Run(Init, steps).probes[q].id;
      id in Before(steps, m).rows && Before(steps, m).rows[id] == RUNNING && !ClosedByAnother(steps, m, q, id)
    ensures Run(Init, steps).rows[Run(Init, steps).probes[q].id] == RUNNING
  {
    var i, k := AbandonedReading(steps, q);
    OneLastTry(steps, q, j, k);
    var id := Run(Init, steps).probes[q].id;
    LiveLater(steps, j, m, id);
    RunningUntilClosed(steps, m, |steps|, id);
    LastMomentIsNow(steps);
    NothingClosesIt(steps, m, q, id);
  }

  lemma NothingClosesIt(steps: seq<Step>, m: nat, q: ProbeId, id: RunId)
    requires Legal(Init, steps) && m <= |steps| && NotStampedSince(steps, m, q) && !ClosedByAnother(steps, m, q, id)
    requires id in Before(steps, m).phase && !Live(Before(steps, m).phase[id])
    ensures !ClosedBetween(steps, m, |steps|, id)
  {
    forall k: nat | m <= k < |steps| ensures !Closes(Before(steps, k), steps[k], id) {
      GoneOwnersDoNotClose(steps, m, k, id);
      assert !OwnerCloses(steps, k, id) && !OtherRepairCloses(steps, k, q, id);
    }
  }

  // ----- a finished run, overwritten -----

  function HeldUnderProbe(id: RunId): seq<Step> {
    [OpenRow(id)] + [Create(id)] + [Lock(id)] + [ProbeOpen(0, id)]
  }

  function FinishedUnderProbe(id: RunId): seq<Step> {
    HeldUnderProbe(id) + [Stamp(id, "ok")] + [Unlink(id)] + [Release(id)]
  }

  lemma HeldAndOpened(id: RunId)
    requires IsRunId(id)
    ensures Legal(Init, HeldUnderProbe(id))
    ensures Run(Init, HeldUnderProbe(id)) == State(map[id := RUNNING], map[id := Holding], map[LockName(id) := 0],
      map[0 := Owner(id)], 1, map[0 := Opened(id, 0)], map[id := 0], {}, {})
  {
    JustCreated(id);
    StepsCompose(Init, [OpenRow(id)] + [Create(id)], Lock(id));
    StepsCompose(Init, [OpenRow(id)] + [Create(id)] + [Lock(id)], ProbeOpen(0, id));
  }

  lemma FinishedAndOpened(id: RunId)
    requires IsRunId(id)
    ensures Legal(Init, FinishedUnderProbe(id))
    ensures Run(Init, FinishedUnderProbe(id)) == State(map[id := "ok"], map[id := Gone], map[], map[], 1,
      map[0 := Opened(id, 0)], map[id := 0], {}, {})
  {
    HeldAndOpened(id);
    StepsCompose(Init, HeldUnderProbe(id), Stamp(id, "ok"));
    StepsCompose(Init, HeldUnderProbe(id) + [Stamp(id, "ok")], Unlink(id));
    StepsCompose(Init, HeldUnderProbe(id) + [Stamp(id, "ok")] + [Unlink(id)], Release(id));
  }

  lemma ReadAfterTheEnd(id: RunId)
    requires IsRunId(id)
    ensures var steps := FinishedUnderProbe(id) + [ProbeLock(0)] + [ProbeClose(0)];
      Legal(Init, steps) && Run(Init, steps) == State(map[id := "ok"], map[id := Gone], map[], map[], 1,
        map[0 := Reading(id, Abandoned)], map[id := 0], {}, {})
  {
    FinishedAndOpened(id);
    StepsCompose(Init, FinishedUnderProbe(id), ProbeLock(0));
    StepsCompose(Init, FinishedUnderProbe(id) + [ProbeLock(0)], ProbeClose(0));
  }

  /**
   A run that locks at once, is met by no probe in a window and ends in good
   order can still be stamped `abandoned` over its own status: the probe opened
   the record before the owner unlinked it and tried the lock after its release.
   */
  lemma FinishedRunCanBeOverwritten(id: RunId)
    requires IsRunId(id)
    ensures var steps := FinishedUnderProbe(id) + [ProbeLock(0)] + [ProbeClose(0)];
      && Legal(Init, steps) && LocksAtOnce(steps, id) && Run(Init, steps).disturbed == {}
      && At(Run(Init, steps), id, Gone) && Run(Init, steps).rows == map[id := "ok"]
      && Legal(Init, steps + [RepairStamp(0)]) && Run(Init, steps + [RepairStamp(0)]).rows == map[id := ABANDONED]
  {
    ReadAfterTheEnd(id);
    StepsCompose(Init, FinishedUnderProbe(id) + [ProbeLock(0)] + [ProbeClose(0)], RepairStamp(0));
    LockedAtOnceHere(id);
  }

  lemma LockedAtOnceHere(id: RunId)
    ensures LocksAtOnce(FinishedUnderProbe(id) + [ProbeLock(0)] + [ProbeClose(0)], id)
  {
    var all := FinishedUnderProbe(id) + [ProbeLock(0)] + [ProbeClose(0)];
    assert all[0] == OpenRow(id) && all[1] == Create(id) && all[2] == Lock(id) && all[3] == ProbeOpen(0, id)
      && all[4] == Stamp(id, "ok") && all[5] == Unlink(id) && all[6] == Release(id) && all[7] == ProbeLock(0);
  }
}
