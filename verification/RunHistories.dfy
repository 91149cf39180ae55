/**
 What a recorded reading says of the run at the moments it was taken, and what
 a repair acting on it later may find. A step's moment is the state before it.
 */
module RunHistories {
  import opened RunNames
  import opened RunProtocol

  // ----- moments of a history -----

  lemma {:induction false} PrefixIsLegal(s: State, steps: seq<Step>, i: nat)
    requires Legal(s, steps) && i <= |steps|
    ensures Legal(s, steps[..i])
    ensures i < |steps| ==> Enabled(Run(s, steps[..i]), steps[i])
    ensures i < |steps| ==> Legal(s, steps[..i + 1]) && Run(s, steps[..i + 1]) == Apply(Run(s, steps[..i]), steps[i])
    decreases |steps|
  {
    if i > 0 {
      PrefixIsLegal(Apply(s, steps[0]), steps[1..], i - 1);
      assert steps[..i][1..] == steps[1..][..i - 1];
      if i < |steps| {
        assert steps[..i + 1][1..] == steps[1..][..i];
      }
    } else if steps != [] {
      assert steps[..1][1..] == [];
    }
  }

  /** The state before the `i`-th step, or the last state. */
  function Before(steps: seq<Step>, i: nat): State
    requires Legal(Init, steps) && i <= |steps|
  {
    PrefixIsLegal(Init, steps, i);
    Run(Init, steps[..i])
  }

  lemma MomentsOfPrefix(steps: seq<Step>, n: nat, i: nat)
    requires Legal(Init, steps) && i <= n <= |steps|
    ensures Legal(Init, steps[..n]) && Before(steps[..n], i) == Before(steps, i)
  {
    PrefixIsLegal(Init, steps, n);
    assert steps[..n][..i] == steps[..i];
  }

  lemma NextMoment(steps: seq<Step>, k: nat)
    requires Legal(Init, steps) && k < |steps|
    ensures Enabled(Before(steps, k), steps[k]) && Before(steps, k + 1) == Apply(Before(steps, k), steps[k])
  {
    PrefixIsLegal(Init, steps, k);
  }

  lemma InvBefore(steps: seq<Step>, k: nat)
    requires Legal(Init, steps) && k <= |steps|
    ensures Inv(Before(steps, k))
  {
    PrefixIsLegal(Init, steps, k);
    Reached(steps[..k]);
  }

  lemma RunOkBefore(steps: seq<Step>, k: nat, id: RunId)
    requires Legal(Init, steps) && k <= |steps|
    ensures RunOk(Before(steps, k), id)
  {
    InvBefore(steps, k);
  }

  lemma LastMomentIsNow(steps: seq<Step>)
    requires Legal(Init, steps)
    ensures Before(steps, |steps|) == Run(Init, steps)
  {
    assert steps[..|steps|] == steps;
  }

  /** The last step of a history, and the moment before it. */
  lemma LastMoment(steps: seq<Step>)
    requires Legal(Init, steps) && steps != []
    ensures var n := |steps| - 1; var s := Before(steps, n);
      Enabled(s, steps[n]) && Run(Init, steps) == Apply(s, steps[n]) && Inv(s)
  {
    PrefixIsLegal(Init, steps, |steps| - 1);
    assert steps[..|steps| - 1 + 1] == steps;
    Reached(steps[..|steps| - 1]);
  }

  // ----- the two moments of a reading -----

  /** At step `i` the probe opened the record of the run. */
  predicate OpenedAt(steps: seq<Step>, i: nat, q: ProbeId, id: RunId, n: Inode)
    requires Legal(Init, steps)
  {
    && i < |steps| && steps[i] == ProbeOpen(q, id)
    && LockName(id) in Before(steps, i).files && Before(steps, i).files[LockName(id)] == n
  }

  /** At step `j` the probe tried the lock of the file it had opened. */
  predicate TriedAt(steps: seq<Step>, j: nat, q: ProbeId, id: RunId, n: Inode)
    requires Legal(Init, steps)
  {
    && j < |steps| && steps[j] == ProbeLock(q)
    && q in Before(steps, j).probes && Before(steps, j).probes[q] == Opened(id, n)
  }

  predicate FreeAt(steps: seq<Step>, j: nat, n: Inode)
    requires Legal(Init, steps) && j < |steps|
  {
    n !in Before(steps, j).locks
  }

  /** How a probe came to be where it is: opened at `i`, tried at `j` if it has tried. */
  ghost predicate Story(steps: seq<Step>, q: ProbeId, p: Probe, i: nat, j: nat, n: Inode)
    requires Legal(Init, steps)
  {
    match p
    case Opened(id, m) => OpenedAt(steps, i, q, id, n) && m == n
    case Locked(id, m) =>
      OpenedAt(steps, i, q, id, n) && m == n && i < j && TriedAt(steps, j, q, id, n) && FreeAt(steps, j, n)
    case Stamped(id) => OpenedAt(steps, i, q, id, n) && i < j && TriedAt(steps, j, q, id, n) && FreeAt(steps, j, n)
    case Reading(id, l) =>
      if l == NoRecord then i < |steps| && steps[i] == ProbeOpen(q, id) && LockName(id) !in Before(steps, i).files
      else
        && (l == Held || l == Abandoned) && OpenedAt(steps, i, q, id, n) && i < j && TriedAt(steps, j, q, id, n)
        && (FreeAt(steps, j, n) <==> l == Abandoned)
  }

  lemma StoryOfPrefix(steps: seq<Step>, k: nat, q: ProbeId, p: Probe, i: nat, j: nat, n: Inode)
    requires Legal(Init, steps) && k <= |steps| && Legal(Init, steps[..k]) && Story(steps[..k], q, p, i, j, n)
    ensures Story(steps, q, p, i, j, n)
  {
    if i < k { MomentsOfPrefix(steps, k, i); }
    if j < k { MomentsOfPrefix(steps, k, j); }
  }

  /** What a step makes of a probe that was there before it. */
  predicate Moved(locks: map<Inode, Holder>, step: Step, q: ProbeId, p: Probe, after: Probe) {
    if step == ProbeLock(q) then
      p.Opened? && after == if p.inode in locks then Reading(p.id, Held) else Locked(p.id, p.inode)
    else if step == ProbeClose(q) then p.Locked? && after == Reading(p.id, Abandoned)
    else if step == RepairStamp(q) then p == Reading(p.id, Abandoned) && after == Stamped(p.id)
    else after == p
  }

  lemma ProbeAfter(s: State, step: Step, q: ProbeId)
    requires Enabled(s, step) && q in s.probes && q in Apply(s, step).probes
    ensures Moved(s.locks, step, q, s.probes[q], Apply(s, step).probes[q])
  {
  }

  lemma LastMove(steps: seq<Step>, q: ProbeId)
    requires Legal(Init, steps) && steps != []
    requires q in Before(steps, |steps| - 1).probes && q in Run(Init, steps).probes
    ensures var k := |steps| - 1; var s := Before(steps, k);
      Moved(s.locks, steps[k], q, s.probes[q], Run(Init, steps).probes[q])
  {
    LastMoment(steps);
    ProbeAfter(Before(steps, |steps| - 1), steps[|steps| - 1], q);
  }

  lemma StoryMoves(steps: seq<Step>, k: nat, q: ProbeId, p: Probe, after: Probe, i: nat, j: nat, n: Inode)
    requires Legal(Init, steps) && k < |steps| && i < k && Story(steps, q, p, i, j, n)
    requires q in Before(steps, k).probes && Before(steps, k).probes[q] == p
    requires Moved(Before(steps, k).locks, steps[k], q, p, after)
    ensures Story(steps, q, after, i, if steps[k] == ProbeLock(q) then k else j, n)
  {
    if steps[k] == ProbeLock(q) {
      assert TriedAt(steps, k, q, p.id, n);
    }
  }

  lemma StoryBegins(steps: seq<Step>, q: ProbeId, id: RunId) returns (n: Inode)
    requires Legal(Init, steps) && steps != [] && steps[|steps| - 1] == ProbeOpen(q, id)
    ensures q in Run(Init, steps).probes
    ensures Story(steps, q, Run(Init, steps).probes[q], |steps| - 1, |steps| - 1, n)
  {
    LastMoment(steps);
    var s := Before(steps, |steps| - 1);
    n := if LockName(id) in s.files then s.files[LockName(id)] else 0;
  }

  lemma ProbeFrom(s: State, step: Step, q: ProbeId)
    requires Enabled(s, step) && q in Apply(s, step).probes
    ensures (step.ProbeOpen? && step.q == q) || q in s.probes
  {
  }

  /** A probe that is there was there before the last step, unless that step opened it. */
  lemma ProbeWasThere(steps: seq<Step>, q: ProbeId)
    requires Legal(Init, steps) && q in Run(Init, steps).probes
    ensures steps != []
    ensures var k := |steps| - 1; (steps[k].ProbeOpen? && steps[k].q == q) || q in Before(steps, k).probes
  {
    LastMoment(steps);
    ProbeFrom(Before(steps, |steps| - 1), steps[|steps| - 1], q);
  }

  // ----- a probe's number may be used again -----

  /** No later probe with this number opened a record. */
  predicate LastOpen(steps: seq<Step>, i: nat, q: ProbeId) {
    && i < |steps| && steps[i].ProbeOpen? && steps[i].q == q
    && forall k :: i < k < |steps| ==> !(steps[k].ProbeOpen? && steps[k].q == q)
  }

  /** No later probe with this number tried a lock. */
  predicate LastTry(steps: seq<Step>, j: nat, q: ProbeId) {
    j < |steps| && steps[j] == ProbeLock(q) && forall k :: j < k < |steps| ==> steps[k] != ProbeLock(q)
  }

  predicate NotStampedSince(steps: seq<Step>, i: nat, q: ProbeId) {
    forall k :: i <= k < |steps| ==> steps[k] != RepairStamp(q)
  }

  predicate HasTried(p: Probe) { !p.Opened? && !(p.Reading? && p.liveness == NoRecord) }

  /** The opening and the try are this probe's own, and it has stamped nothing yet. */
  predicate Latest(steps: seq<Step>, q: ProbeId, p: Probe, i: nat, j: nat) {
    && LastOpen(steps, i, q)
    && (HasTried(p) ==> LastTry(steps, j, q))
    && (!p.Stamped? ==> NotStampedSince(steps, i, q))
  }

  lemma LatestGoesOn(before: seq<Step>, step: Step, locks: map<Inode, Holder>, q: ProbeId, p: Probe, after: Probe,
                     i: nat, j: nat)
    requires Latest(before, q, p, i, j) && Moved(locks, step, q, p, after) && !(step.ProbeOpen? && step.q == q)
    ensures Latest(before + [step], q, after, i, if step == ProbeLock(q) then |before| else j)
  {
    var steps := before + [step];
    assert steps[|before|] == step && forall k :: 0 <= k < |before| ==> steps[k] == before[k];
  }

  /** Every probe has its story. */
  lemma {:induction false} ProbeHasStory(steps: seq<Step>, q: ProbeId) returns (i: nat, j: nat, n: Inode)
    requires Legal(Init, steps) && q in Run(Init, steps).probes
    ensures Story(steps, q, Run(Init, steps).probes[q], i, j, n)
    ensures Latest(steps, q, Run(Init, steps).probes[q], i, j)
    decreases |steps|
  {
    ProbeWasThere(steps, q);
    var k := |steps| - 1;
    if steps[k].ProbeOpen? && steps[k].q == q {
      i, j := k, k;
      n := StoryBegins(steps, q, steps[k].id);
    } else {
      PrefixIsLegal(Init, steps, k);
      i, j, n := ProbeHasStory(steps[..k], q);
      j := OneMoreStep(steps, q, i, j, n);
    }
  }

  lemma OneMoreStep(steps: seq<Step>, q: ProbeId, i: nat, j: nat, n: Inode) returns (now: nat)
    requires Legal(Init, steps) && steps != [] && q in Run(Init, steps).probes
    requires var k := |steps| - 1;
      && !(steps[k].ProbeOpen? && steps[k].q == q) && Legal(Init, steps[..k]) && q in Before(steps, k).probes
      && Story(steps[..k], q, Before(steps, k).probes[q], i, j, n)
      && Latest(steps[..k], q, Before(steps, k).probes[q], i, j)
    ensures Story(steps, q, Run(Init, steps).probes[q], i, now, n)
    ensures Latest(steps, q, Run(Init, steps).probes[q], i, now)
  {
    var k := |steps| - 1;
    var s := Before(steps, k);
    LastMove(steps, q);
    StoryOfPrefix(steps, k, q, s.probes[q], i, j, n);
    StoryMoves(steps, k, q, s.probes[q], Run(Init, steps).probes[q], i, j, n);
    assert steps[..k] + [steps[k]] == steps;
    LatestGoesOn(steps[..k], steps[k], s.locks, q, s.probes[q], Run(Init, steps).probes[q], i, j);
    now := if steps[k] == ProbeLock(q) then k else j;
  }

  // ----- what a recorded reading means -----

  /** At this moment the run's record was on disk. */
  predicate OnRecord(s: State, id: RunId) {
    id in s.phase && Recorded(s.phase[id]) && id !in s.discarded
  }

  lemma RecordOnDisk(steps: seq<Step>, i: nat, id: RunId)
    requires Legal(Init, steps) && i <= |steps| && id in Before(steps, i).phase
    ensures LockName(id) in Before(steps, i).files <==> OnRecord(Before(steps, i), id)
    ensures LockName(id) in Before(steps, i).files ==>
      id in Before(steps, i).inodes && Before(steps, i).files[LockName(id)] == Before(steps, i).inodes[id]
  {
    PrefixIsLegal(Init, steps, i);
    Reached(steps[..i]);
    assert RecordOk(Before(steps, i), id);
  }

  lemma LockFreeWhen(steps: seq<Step>, j: nat, q: ProbeId, id: RunId, n: Inode)
    requires Legal(Init, steps) && TriedAt(steps, j, q, id, n)
    ensures var s := Before(steps, j);
      && id in s.phase && s.phase[id] != Registered && s.phase[id] != Untracked
      && (FreeAt(steps, j, n) <==> !HoldsLock(s.phase[id]) && !BeingChecked(s, id))
  {
    PrefixIsLegal(Init, steps, j);
    Reached(steps[..j]);
    var s := Before(steps, j);
    assert ProbeOk(s, q) && RunOk(s, id);
    LockedByWhom(s, id);
  }

  /** What holds at the moments `i` and `j` of a reading. */
  ghost predicate Witnessed(steps: seq<Step>, id: RunId, l: Liveness, i: nat, j: nat)
    requires Legal(Init, steps) && i < |steps| && j < |steps|
  {
    var a, b := Before(steps, i), Before(steps, j);
    match l
    case NoRecord => !OnRecord(a, id)
    case Held => OnRecord(a, id) && i < j && id in b.phase && (HoldsLock(b.phase[id]) || BeingChecked(b, id))
    case Abandoned =>
      && OnRecord(a, id) && i < j && id in b.phase && !BeingChecked(b, id)
      && (InWindow(b.phase[id]) || !Live(b.phase[id]))
    case Unreadable => false
  }

  /**
   A recorded reading is two observations. `NoRecord`: there was no record when
   the probe opened. `Held`: there was one, and when the probe tried the lock it
   was the owner's or another probe's. `Abandoned`: there was one, and when the
   probe tried the lock no one held it, so the owner was gone or in its window.
   */
  lemma RecordedReadingMeans(steps: seq<Step>, q: ProbeId) returns (i: nat, j: nat)
    requires Legal(Init, steps) && q in Run(Init, steps).probes && Run(Init, steps).probes[q].Reading?
    ensures LastOpen(steps, i, q) && steps[i] == ProbeOpen(q, Run(Init, steps).probes[q].id)
    ensures NotStampedSince(steps, i, q)
    ensures var p := Run(Init, steps).probes[q];
      j < |steps| && (p.liveness != NoRecord ==> LastTry(steps, j, q)) && Witnessed(steps, p.id, p.liveness, i, j)
  {
    var n;
    i, j, n := ProbeHasStory(steps, q);
    var p := Run(Init, steps).probes[q];
    PrefixIsLegal(Init, steps, i);
    Reached(steps[..i]);
    assert Known(Before(steps, i), p.id);
    RecordOnDisk(steps, i, p.id);
    if p.liveness == NoRecord {
      j := i;
    } else {
      LockFreeWhen(steps, j, q, p.id, n);
    }
  }

  /** The step takes the run's lock for a probe, while the run is in its window. */
  predicate Meets(s: State, step: Step, id: RunId) {
    && step.ProbeLock? && step.q in s.probes && s.probes[step.q].Opened?
    && s.probes[step.q].id == id && s.probes[step.q].inode !in s.locks
    && id in s.phase && InWindow(s.phase[id])
  }

  predicate MetInWindow(steps: seq<Step>, j: nat, id: RunId)
    requires Legal(Init, steps)
  {
    j < |steps| && Meets(Before(steps, j), steps[j], id)
  }

  lemma DisturbedAfter(s: State, step: Step, id: RunId)
    requires Enabled(s, step)
    ensures id in Apply(s, step).disturbed <==> id in s.disturbed || Meets(s, step, id)
  {
  }

  lemma DisturbedNext(steps: seq<Step>, k: nat, id: RunId)
    requires Legal(Init, steps) && k < |steps|
    ensures id in Before(steps, k + 1).disturbed <==> id in Before(steps, k).disturbed || MetInWindow(steps, k, id)
  {
    NextMoment(steps, k);
    DisturbedAfter(Before(steps, k), steps[k], id);
  }

  lemma {:induction false} DisturbedBefore(steps: seq<Step>, m: nat, id: RunId)
    requires Legal(Init, steps) && m <= |steps|
    ensures id in Before(steps, m).disturbed <==> exists j: nat :: j < m && MetInWindow(steps, j, id)
    decreases m
  {
    if m > 0 {
      var k := m - 1;
      DisturbedBefore(steps, k, id);
      DisturbedNext(steps, k, id);
      if j: nat :| j < m && MetInWindow(steps, j, id) {
        assert j < k || j == k;
      }
      assert MetInWindow(steps, k, id) ==> exists j: nat :: j < m && MetInWindow(steps, j, id);
    }
  }

  /** `disturbed` is what it is said to be: a probe took the run's lock while the run was in its window. */
  lemma DisturbedMeans(steps: seq<Step>, id: RunId)
    requires Legal(Init, steps)
    ensures id in Run(Init, steps).disturbed <==> exists j: nat :: MetInWindow(steps, j, id)
  {
    DisturbedBefore(steps, |steps|, id);
    LastMomentIsNow(steps);
  }

  // ----- an orderly end between the two observations -----

  lemma OnlyUnlinkEndsTheRecord(s: State, step: Step, id: RunId)
    requires RunOk(s, id) && Enabled(s, step) && id in s.phase && Recorded(s.phase[id])
    ensures id in Apply(s, step).phase
    ensures !Recorded(Apply(s, step).phase[id]) ==> step == Unlink(id)
  {
  }

  lemma UnlinkedHere(steps: seq<Step>, k: nat, id: RunId)
    requires Legal(Init, steps) && k < |steps|
    requires id in Before(steps, k).phase && Recorded(Before(steps, k).phase[id])
    requires id in Before(steps, k + 1).phase && !Recorded(Before(steps, k + 1).phase[id])
    ensures steps[k] == Unlink(id)
  {
    NextMoment(steps, k);
    RunOkBefore(steps, k, id);
    OnlyUnlinkEndsTheRecord(Before(steps, k), steps[k], id);
  }

  /** A recorded run leaves its record only by unlinking it. */
  lemma {:induction false} RecordedUntilUnlink(steps: seq<Step>, i: nat, j: nat, id: RunId) returns (u: nat)
    requires Legal(Init, steps) && i <= j <= |steps|
    requires id in Before(steps, i).phase && Recorded(Before(steps, i).phase[id])
    requires id in Before(steps, j).phase && !Recorded(Before(steps, j).phase[id])
    ensures i <= u < j && steps[u] == Unlink(id)
    decreases j
  {
    StillThere(steps, i, j - 1, id);
    if Recorded(Before(steps, j - 1).phase[id]) {
      u := j - 1;
      UnlinkedHere(steps, u, id);
    } else {
      u := RecordedUntilUnlink(steps, i, j - 1, id);
    }
  }

  /** An id never leaves the protocol. */
  lemma {:induction false} StillThere(steps: seq<Step>, i: nat, j: nat, id: RunId)
    requires Legal(Init, steps) && i <= j <= |steps| && id in Before(steps, i).phase
    ensures id in Before(steps, j).phase
    decreases j
  {
    if i < j {
      StillThere(steps, i, j - 1, id);
      NextMoment(steps, j - 1);
      NeverLeaves(Before(steps, j - 1), steps[j - 1], id);
    }
  }

  lemma NeverLeaves(s: State, step: Step, id: RunId)
    requires Enabled(s, step) && id in s.phase
    ensures id in Apply(s, step).phase
  {
  }

  /**
   The reading of a finished run. If the owner of a run read `Abandoned` had
   already finished in good order when the lock was tried, the probe had opened
   the record before the owner unlinked it.
   */
  lemma FinishedBetweenOpenAndLock(steps: seq<Step>, q: ProbeId) returns (i: nat, u: nat, j: nat)
    requires Legal(Init, steps) && q in Run(Init, steps).probes
    requires var p := Run(Init, steps).probes[q]; p.Reading? && p.liveness == Abandoned
    ensures j < |steps| && steps[j] == ProbeLock(q)
    ensures var id := Run(Init, steps).probes[q].id; var b := Before(steps, j);
      id in b.phase && (b.phase[id].Gone? ==> i < u < j && steps[i] == ProbeOpen(q, id) && steps[u] == Unlink(id))
  {
    i, j := RecordedReadingMeans(steps, q);
    var id := Run(Init, steps).probes[q].id;
    u := 0;
    if Before(steps, j).phase[id].Gone? {
      u := RecordedUntilUnlink(steps, i, j, id);
    }
  }
}
