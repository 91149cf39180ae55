/**
 The run-liveness protocol as a state machine over any number of runs, owners,
 probes and repairs, at the grain of single file-system calls.

 Paths and inodes are distinct: a lock belongs to an open file, so it survives
 the unlinking of its path. `acquire` is two steps (open-or-create, then
 try-lock), the orderly drop is two (unlink, then the handle closes), and a
 probe is three (open, try-lock, close). Steps of different parties interleave
 freely; a process that dies is its runs' `Die` and its probes' `ProbeDie`.
 */
module RunProtocol {
  import opened RunNames

  type RunId = string
  type Inode = nat
  type ProbeId = nat

  const RUNNING := "running"
  const ABANDONED := "abandoned"

  /**
   The life of a run, seen from its owner. `Untracked` and `LeftBehind` are
   live runs whose `acquire` failed: the first before the file was opened, the
   second after. `Dead` owners leave a record, `Gone` ones do not.
   */
  datatype Phase = Registered | Creating | Holding | Untracked | LeftBehind | Unlinked | Dead | Gone

  predicate Live(p: Phase) { !p.Dead? && !p.Gone? }

  /** The file exists, its owner lives, and its owner does not hold the lock. */
  predicate InWindow(p: Phase) { p.Creating? || p.LeftBehind? }

  datatype Liveness = Held | Abandoned | NoRecord | Unreadable

  datatype Holder = Owner(id: RunId) | Prober(q: ProbeId)

  /** `Stamped` is a repair that has closed the row and not yet discarded the record. */
  datatype Probe =
    | Opened(id: RunId, inode: Inode) | Locked(id: RunId, inode: Inode)
    | Reading(id: RunId, liveness: Liveness) | Stamped(id: RunId)

  /**
   `inodes`, `discarded` and `disturbed` are history: the inode each owner
   opened, the runs whose record a repair removed, and the runs whose lock a
   probe ever took while they were in their window.
   */
  datatype State = State(
    rows: map<RunId, string>, phase: map<RunId, Phase>,
    files: map<string, Inode>, locks: map<Inode, Holder>, next: Inode,
    probes: map<ProbeId, Probe>,
    inodes: map<RunId, Inode>, discarded: set<RunId>, disturbed: set<RunId>)

  const Init := State(map[], map[], map[], map[], 0, map[], map[], {}, {})

  datatype Step =
    | OpenRow(id: RunId)
    | AcquireFails(id: RunId)
    | Create(id: RunId)
    | Lock(id: RunId)
    | LockError(id: RunId)
    | Stamp(id: RunId, status: string)
    | Unlink(id: RunId)
    | Release(id: RunId)
    | Abandon(id: RunId)
    | Finish(id: RunId)
    | Die(id: RunId)
    | ProbeOpen(q: ProbeId, id: RunId)
    | ProbeLock(q: ProbeId)
    | ProbeClose(q: ProbeId)
    | ProbeDie(q: ProbeId)
    | RepairStamp(q: ProbeId)
    | RepairDiscard(q: ProbeId)

  predicate At(s: State, id: RunId, p: Phase) { id in s.phase && s.phase[id] == p }

  /**
   The row's primary key admits an id once, so each id is acquired at most once.
   Only a repair whose probe read `Abandoned` stamps, and it discards afterwards.
   */
  predicate Enabled(s: State, step: Step) {
    match step
    case OpenRow(id) => IsRunId(id) && id !in s.rows
    case AcquireFails(id) => At(s, id, Registered)
    case Create(id) => At(s, id, Registered)
    case Lock(id) => At(s, id, Creating) && id in s.inodes
    case LockError(id) => At(s, id, Creating)
    case Stamp(id, status) => id in s.phase && Live(s.phase[id]) && id in s.rows && status != RUNNING
    case Unlink(id) => At(s, id, Holding)
    case Release(id) => At(s, id, Unlinked) && id in s.inodes
    case Abandon(id) => At(s, id, Holding) && id in s.inodes
    case Finish(id) => At(s, id, Untracked) || At(s, id, LeftBehind)
    case Die(id) => id in s.phase && Live(s.phase[id])
    case ProbeOpen(q, id) => q !in s.probes && id in s.rows
    case ProbeLock(q) => q in s.probes && s.probes[q].Opened? && s.probes[q].id in s.phase
    case ProbeClose(q) => q in s.probes && s.probes[q].Locked?
    case ProbeDie(q) => q in s.probes
    case RepairStamp(q) =>
      q in s.probes && s.probes[q].Reading? && s.probes[q].liveness == Abandoned && s.probes[q].id in s.rows
    case RepairDiscard(q) => q in s.probes && s.probes[q].Stamped?
  }

  function WithPhase(s: State, id: RunId, p: Phase): State {
    s.(phase := s.phase[id := p])
  }

  /** Closing an owner's file handle releases the lock it holds, if it holds one. */
  function CloseHandle(s: State, id: RunId): State {
    if id in s.inodes && s.inodes[id] in s.locks && s.locks[s.inodes[id]] == Owner(id)
    then s.(locks := s.locks - {s.inodes[id]}) else s
  }

  function Apply(s: State, step: Step): State
    requires Enabled(s, step)
  {
    match step
    case OpenRow(id) => WithPhase(s.(rows := s.rows[id := RUNNING]), id, Registered)
    case AcquireFails(id) => WithPhase(s, id, Untracked)
    case Create(id) =>
      var name := LockName(id);
      if name in s.files then WithPhase(s.(inodes := s.inodes[id := s.files[name]]), id, Creating)
      else WithPhase(
        s.(files := s.files[name := s.next], inodes := s.inodes[id := s.next], next := s.next + 1), id, Creating)
    case Lock(id) =>
      if s.inodes[id] in s.locks then WithPhase(s, id, LeftBehind)
      else WithPhase(s.(locks := s.locks[s.inodes[id] := Owner(id)]), id, Holding)
    case LockError(id) => WithPhase(s, id, LeftBehind)
    case Stamp(id, status) => s.(rows := s.rows[id := status])
    case Unlink(id) => WithPhase(s.(files := s.files - {LockName(id)}), id, Unlinked)
    case Release(id) => WithPhase(CloseHandle(s, id), id, Gone)
    case Abandon(id) => WithPhase(CloseHandle(s, id), id, Dead)
    case Finish(id) => WithPhase(s, id, if s.phase[id] == LeftBehind then Dead else Gone)
    case Die(id) =>
      WithPhase(CloseHandle(s, id), id,
        if s.phase[id] == Holding || InWindow(s.phase[id]) then Dead else Gone)
    case ProbeOpen(q, id) =>
      var name := LockName(id);
      s.(probes := s.probes[q := if name in s.files then Opened(id, s.files[name]) else Reading(id, NoRecord)])
    case ProbeLock(q) =>
      var p := s.probes[q];
      if p.inode in s.locks then s.(probes := s.probes[q := Reading(p.id, Held)])
      else s.(probes := s.probes[q := Locked(p.id, p.inode)], locks := s.locks[p.inode := Prober(q)],
              disturbed := s.disturbed + if InWindow(s.phase[p.id]) then {p.id} else {})
    case ProbeClose(q) =>
      var p := s.probes[q];
      s.(probes := s.probes[q := Reading(p.id, Abandoned)], locks := s.locks - {p.inode})
    case ProbeDie(q) =>
      var p := s.probes[q];
      s.(probes := s.probes - {q}, locks := if p.Locked? then s.locks - {p.inode} else s.locks)
    case RepairStamp(q) =>
      var id := s.probes[q].id;
      s.(rows := s.rows[id := ABANDONED], probes := s.probes[q := Stamped(id)])
    case RepairDiscard(q) =>
      var id := s.probes[q].id;
      s.(files := s.files - {LockName(id)}, probes := s.probes - {q}, discarded := s.discarded + {id})
  }

  predicate Legal(s: State, steps: seq<Step>)
    decreases |steps|
  {
    steps == [] || (Enabled(s, steps[0]) && Legal(Apply(s, steps[0]), steps[1..]))
  }

  function Run(s: State, steps: seq<Step>): State
    requires Legal(s, steps)
    decreases |steps|
  {
    if steps == [] then s else Run(Apply(s, steps[0]), steps[1..])
  }

  /** What a look at the directory and the kernel's locks says of a run. */
  function Reads(files: map<string, Inode>, locks: map<Inode, Holder>, id: RunId): Liveness {
    var name := LockName(id);
    if name !in files then NoRecord else if files[name] in locks then Held else Abandoned
  }

  /** What a probe that opens, tries and closes without interruption would say. */
  function Probed(s: State, id: RunId): Liveness {
    Reads(s.files, s.locks, id)
  }

  // ----- the invariant -----

  predicate Recorded(p: Phase) { p.Creating? || p.Holding? || p.LeftBehind? || p.Dead? }

  predicate HoldsLock(p: Phase) { p.Holding? || p.Unlinked? }

  /** A probe, or a repair, that has seen the run's lock free. */
  predicate SawFree(p: Probe) {
    p.Locked? || p.Stamped? || (p.Reading? && p.liveness == Abandoned)
  }

  /** What holds of one run: its row, its inode and its lock. */
  ghost predicate RunOk(s: State, id: RunId) {
    id in s.phase ==>
      var p := s.phase[id];
      && id in s.rows
      && (id in s.inodes ==> s.inodes[id] < s.next && p != Registered && p != Untracked)
      && (Recorded(p) || HoldsLock(p) ==> id in s.inodes)
      && (HoldsLock(p) ==> s.inodes[id] in s.locks && s.locks[s.inodes[id]] == Owner(id))
  }

  /** Its directory entry: there while the run is recorded, unless a repair has discarded it. */
  ghost predicate RecordOk(s: State, id: RunId) {
    id in s.phase ==>
      var p, name := s.phase[id], LockName(id);
      && (name in s.files ==> Recorded(p) && id in s.inodes && s.files[name] == s.inodes[id])
      && (Recorded(p) && id !in s.discarded ==> name in s.files)
      && (id in s.discarded ==> name !in s.files && p != Registered && (id !in s.disturbed ==> !Live(p)))
  }

  /** Different runs have different files and different inodes. */
  ghost predicate Apart(s: State, a: RunId, b: RunId) {
    a in s.phase && b in s.phase && a != b ==>
      LockName(a) != LockName(b) && (a in s.inodes && b in s.inodes ==> s.inodes[a] != s.inodes[b])
  }

  ghost predicate Known(s: State, id: RunId) {
    && (id in s.phase ==> IsRunId(id))
    && (id in s.inodes || id in s.rows || id in s.discarded || id in s.disturbed ==> id in s.phase)
  }

  /** Every directory entry is named after a run. */
  ghost predicate FileOk(s: State, f: string) {
    f in s.files ==> exists id :: id in s.phase && LockName(id) == f
  }

  /** A lock is held by the owner of a run that holds it, or by a probe in the middle of its check. */
  ghost predicate LockOk(s: State, n: Inode) {
    n in s.locks ==>
      match s.locks[n]
      case Owner(id) => id in s.phase && HoldsLock(s.phase[id]) && id in s.inodes && s.inodes[id] == n
      case Prober(q) => q in s.probes && s.probes[q].Locked? && s.probes[q].inode == n
  }

  /**
   A probe looks at the inode its run's owner opened. As long as no probe has
   taken a lock inside a window, seeing it free means the owner is gone.
   */
  ghost predicate ProbeOk(s: State, q: ProbeId) {
    q in s.probes ==>
      var p := s.probes[q];
      && p.id in s.phase
      && (p.Opened? || p.Locked? ==> p.id in s.inodes && p.inode == s.inodes[p.id])
      && (p.Locked? ==> p.inode in s.locks && s.locks[p.inode] == Prober(q))
  }

  ghost predicate SawOk(s: State, q: ProbeId) {
    q in s.probes && SawFree(s.probes[q]) ==>
      var id := s.probes[q].id;
      id in s.phase && id in s.inodes && (id !in s.disturbed ==> !Live(s.phase[id]))
  }

  ghost predicate Inv(s: State) {
    && (forall id {:trigger RunOk(s, id)} :: RunOk(s, id))
    && (forall id {:trigger RecordOk(s, id)} :: RecordOk(s, id))
    && (forall a, b {:trigger Apart(s, a, b)} :: Apart(s, a, b))
    && (forall id {:trigger Known(s, id)} :: Known(s, id))
    && (forall f {:trigger FileOk(s, f)} :: FileOk(s, f))
    && (forall n {:trigger LockOk(s, n)} :: LockOk(s, n))
    && (forall q {:trigger ProbeOk(s, q)} :: ProbeOk(s, q))
    && (forall q {:trigger SawOk(s, q)} :: SawOk(s, q))
  }

  /** The run a step is about. */
  function Subject(s: State, step: Step): RunId
    requires Enabled(s, step)
  {
    match step
    case ProbeLock(q) => s.probes[q].id
    case ProbeClose(q) => s.probes[q].id
    case ProbeDie(q) => s.probes[q].id
    case RepairStamp(q) => s.probes[q].id
    case RepairDiscard(q) => s.probes[q].id
    case _ => step.id
  }

  /** The parts of the invariant, at the run a step is about. */
  lemma Around(s: State, step: Step)
    requires Inv(s) && Enabled(s, step)
    ensures var me := Subject(s, step);
      && RunOk(s, me) && RecordOk(s, me) && Known(s, me) && FileOk(s, LockName(me))
      && (me in s.inodes ==> LockOk(s, s.inodes[me]))
      && (step.ProbeLock? ==> ProbeOk(s, step.q) && LockOk(s, s.probes[step.q].inode))
      && (step.ProbeClose? || step.ProbeDie? || step.RepairStamp? || step.RepairDiscard? ==> ProbeOk(s, step.q))
  {
  }

  /** A run whose id is new has no directory entry. */
  lemma NoFileOfNewRun(s: State, id: RunId)
    requires Inv(s) && IsRunId(id) && id !in s.phase
    ensures LockName(id) !in s.files
  {
    assert FileOk(s, LockName(id));
    if LockName(id) in s.files {
      var other :| other in s.phase && LockName(other) == LockName(id);
      assert Known(s, other);
      LockNamesDistinguishRuns(id, other);
    }
  }

  lemma ApartKept(s: State, step: Step, a: RunId, b: RunId)
    requires Inv(s) && Enabled(s, step)
    ensures Apart(Apply(s, step), a, b)
  {
    Around(s, step);
    assert Apart(s, a, b) && Known(s, a) && Known(s, b) && RunOk(s, a) && RunOk(s, b);
    if step.OpenRow? && a != b && LockName(a) == LockName(b) && IsRunId(a) && IsRunId(b) {
      LockNamesDistinguishRuns(a, b);
    }
  }

  lemma KnownKept(s: State, step: Step, id: RunId)
    requires Inv(s) && Enabled(s, step)
    ensures Known(Apply(s, step), id)
  {
    Around(s, step);
    assert Known(s, id);
  }

  lemma FileKept(s: State, step: Step, f: string)
    requires Inv(s) && Enabled(s, step)
    ensures FileOk(Apply(s, step), f)
  {
    var t := Apply(s, step);
    Around(s, step);
    assert FileOk(s, f);
    if f in s.files {
      var id :| id in s.phase && LockName(id) == f;
      assert id in t.phase;
    } else if f in t.files {
      assert step.id in t.phase && LockName(step.id) == f;
    }
  }

  lemma ProbeKept(s: State, step: Step, q: ProbeId)
    requires Inv(s) && Enabled(s, step)
    ensures ProbeOk(Apply(s, step), q)
  {
    if q in s.probes && !IsOf(step, q) {
      OtherProbeKept(s, step, q);
    } else {
      Around(s, step);
      assert ProbeOk(s, q);
      if q in s.probes {
        ProbedRunKept(s, step, q);
      }
    }
  }

  /** The step is one of this probe's own. */
  predicate IsOf(step: Step, q: ProbeId) {
    && (step.ProbeOpen? || step.ProbeLock? || step.ProbeClose? || step.ProbeDie?
        || step.RepairStamp? || step.RepairDiscard?)
    && step.q == q
  }

  lemma OtherProbeKept(s: State, step: Step, q: ProbeId)
    requires Inv(s) && Enabled(s, step) && q in s.probes && !IsOf(step, q)
    ensures ProbeOk(Apply(s, step), q)
  {
    var t := Apply(s, step);
    Around(s, step);
    assert ProbeOk(s, q) && t.probes[q] == s.probes[q];
    ProbedRunKept(s, step, q);
  }

  /** The inode an owner opened stays the one its probes look at. */
  lemma ProbedRunKept(s: State, step: Step, q: ProbeId)
    requires Inv(s) && Enabled(s, step) && q in s.probes
    ensures var id, t := s.probes[q].id, Apply(s, step);
      id in t.phase && (id in s.inodes ==> id in t.inodes && t.inodes[id] == s.inodes[id])
  {
    Around(s, step);
    var id := s.probes[q].id;
    assert ProbeOk(s, q) && RunOk(s, id) && Known(s, id);
    if id != Subject(s, step) {
      Elsewhere(s, step, id);
    }
  }

  lemma SawKept(s: State, step: Step, q: ProbeId)
    requires Inv(s) && Enabled(s, step)
    ensures SawOk(Apply(s, step), q)
  {
    if q !in s.probes {
      FirstSight(s, step, q);
    } else if IsOf(step, q) {
      OwnSawKept(s, step, q);
    } else {
      OtherSawKept(s, step, q);
    }
  }

  lemma FirstSight(s: State, step: Step, q: ProbeId)
    requires Enabled(s, step) && q !in s.probes
    ensures SawOk(Apply(s, step), q)
  {
  }

  lemma OwnSawKept(s: State, step: Step, q: ProbeId)
    requires Inv(s) && Enabled(s, step) && q in s.probes && IsOf(step, q)
    ensures SawOk(Apply(s, step), q)
  {
    Around(s, step);
    assert SawOk(s, q) && ProbeOk(s, q);
  }

  lemma OtherSawKept(s: State, step: Step, q: ProbeId)
    requires Inv(s) && Enabled(s, step) && q in s.probes && !IsOf(step, q)
    ensures SawOk(Apply(s, step), q)
  {
    var id := s.probes[q].id;
    assert Apply(s, step).probes[q] == s.probes[q] && SawOk(s, q) && ProbeOk(s, q);
    if id != Subject(s, step) {
      Elsewhere(s, step, id);
    } else {
      SawOfItsSubject(s, step, q);
    }
  }

  lemma SawOfItsSubject(s: State, step: Step, q: ProbeId)
    requires Inv(s) && Enabled(s, step) && q in s.probes && !IsOf(step, q) && s.probes[q].id == Subject(s, step)
    ensures SawOk(Apply(s, step), q)
  {
    Around(s, step);
    assert SawOk(s, q) && ProbeOk(s, q);
  }

  /** A step touches nothing of a run it is not about. */
  lemma Elsewhere(s: State, step: Step, id: RunId)
    requires Inv(s) && Enabled(s, step) && id in s.phase && id != Subject(s, step)
    ensures var t := Apply(s, step);
      && id in t.phase && t.phase[id] == s.phase[id]
      && (id in s.rows ==> id in t.rows && t.rows[id] == s.rows[id])
      && (id in s.inodes <==> id in t.inodes) && (id in s.inodes ==> t.inodes[id] == s.inodes[id])
      && (LockName(id) in s.files <==> LockName(id) in t.files)
      && (LockName(id) in s.files ==> t.files[LockName(id)] == s.files[LockName(id)])
      && (id in s.discarded <==> id in t.discarded)
      && s.next <= t.next && (id in s.disturbed <==> id in t.disturbed)
  {
    Around(s, step);
    assert Apart(s, id, Subject(s, step)) && Known(s, id);
    if step.OpenRow? { assert Known(s, step.id); }
  }

  lemma LockElsewhere(s: State, step: Step, id: RunId)
    requires Inv(s) && Enabled(s, step) && id in s.phase && id != Subject(s, step) && id in s.inodes
    ensures var t := Apply(s, step); var n := s.inodes[id];
      (n in s.locks <==> n in t.locks) && (n in s.locks ==> t.locks[n] == s.locks[n])
  {
    Around(s, step);
    assert Apart(s, id, Subject(s, step)) && Known(s, id);
  }

  /** A lock changes hands only by being free in between. */
  lemma LockChanges(s: State, step: Step, n: Inode)
    requires Enabled(s, step)
    ensures n in s.locks && n in Apply(s, step).locks ==> Apply(s, step).locks[n] == s.locks[n]
    ensures n !in s.locks && n in Apply(s, step).locks ==> step.Lock? || step.ProbeLock?
  {
  }

  lemma OwnersLockKept(s: State, step: Step, n: Inode)
    requires Inv(s) && Enabled(s, step) && n in s.locks && n in Apply(s, step).locks && s.locks[n].Owner?
    ensures LockOk(Apply(s, step), n)
  {
    var id := s.locks[n].id;
    LockChanges(s, step, n);
    assert LockOk(s, n);
    if id == Subject(s, step) {
      Around(s, step);
    } else {
      Elsewhere(s, step, id);
    }
  }

  lemma ProbesLockKept(s: State, step: Step, n: Inode)
    requires Inv(s) && Enabled(s, step) && n in s.locks && n in Apply(s, step).locks && s.locks[n].Prober?
    ensures LockOk(Apply(s, step), n)
  {
    LockChanges(s, step, n);
    assert LockOk(s, n) && ProbeOk(s, s.locks[n].q);
  }

  lemma LockKept(s: State, step: Step, n: Inode)
    requires Inv(s) && Enabled(s, step)
    ensures LockOk(Apply(s, step), n)
  {
    LockChanges(s, step, n);
    if n in Apply(s, step).locks {
      if n in s.locks && s.locks[n].Owner? {
        OwnersLockKept(s, step, n);
      } else if n in s.locks {
        ProbesLockKept(s, step, n);
      } else {
        Around(s, step);
      }
    }
  }

  lemma RunKeptHere(s: State, step: Step)
    requires Inv(s) && Enabled(s, step)
    ensures RunOk(Apply(s, step), Subject(s, step))
  {
    Around(s, step);
  }

  lemma RunKept(s: State, step: Step, id: RunId)
    requires Inv(s) && Enabled(s, step)
    ensures RunOk(Apply(s, step), id)
  {
    if id == Subject(s, step) {
      RunKeptHere(s, step);
    } else if id in s.phase {
      assert RunOk(s, id);
      Elsewhere(s, step, id);
      if id in s.inodes {
        LockElsewhere(s, step, id);
      }
    }
  }

  lemma RecordKeptHere(s: State, step: Step)
    requires Inv(s) && Enabled(s, step)
    ensures RecordOk(Apply(s, step), Subject(s, step))
  {
    if step.OpenRow? {
      Around(s, step);
      NoFileOfNewRun(s, step.id);
    } else if step.RepairDiscard? {
      Around(s, step);
      assert SawOk(s, step.q);
    } else {
      Around(s, step);
    }
  }

  lemma RecordKept(s: State, step: Step, id: RunId)
    requires Inv(s) && Enabled(s, step)
    ensures RecordOk(Apply(s, step), id)
  {
    if id == Subject(s, step) {
      RecordKeptHere(s, step);
    } else if id in s.phase {
      assert RecordOk(s, id);
      Elsewhere(s, step, id);
    }
  }

  lemma InvKept(s: State, step: Step)
    requires Inv(s) && Enabled(s, step)
    ensures Inv(Apply(s, step))
  {
    var t := Apply(s, step);
    forall id ensures RunOk(t, id) && RecordOk(t, id) && Known(t, id) {
      RunKept(s, step, id);
      RecordKept(s, step, id);
      KnownKept(s, step, id);
    }
    forall a, b ensures Apart(t, a, b) {
      ApartKept(s, step, a, b);
    }
    forall f ensures FileOk(t, f) {
      FileKept(s, step, f);
    }
    forall n ensures LockOk(t, n) {
      LockKept(s, step, n);
    }
    forall q ensures ProbeOk(t, q) && SawOk(t, q) {
      ProbeKept(s, step, q);
      SawKept(s, step, q);
    }
  }

  lemma {:induction false} InvAlways(s: State, steps: seq<Step>)
    requires Inv(s) && Legal(s, steps)
    ensures Inv(Run(s, steps))
    decreases |steps|
  {
    if steps != [] {
      InvKept(s, steps[0]);
      InvAlways(Apply(s, steps[0]), steps[1..]);
    }
  }

  lemma Reached(steps: seq<Step>)
    requires Legal(Init, steps)
    ensures Inv(Run(Init, steps))
  {
    InvAlways(Init, steps);
  }

  // ----- what a probe reads -----

  /** Some probe is in the middle of checking this run. */
  ghost predicate BeingChecked(s: State, id: RunId) {
    exists q :: q in s.probes && s.probes[q].Locked? && s.probes[q].id == id
  }

  /** The lock on a run's inode is its owner's or that of a probe checking this run. */
  lemma LockedByWhom(s: State, id: RunId)
    requires Inv(s) && id in s.phase && id in s.inodes
    ensures s.inodes[id] in s.locks <==> HoldsLock(s.phase[id]) || BeingChecked(s, id)
    ensures id !in s.disturbed && BeingChecked(s, id) ==> !Live(s.phase[id])
  {
    var n := s.inodes[id];
    assert RunOk(s, id) && LockOk(s, n);
    if n in s.locks {
      match s.locks[n]
      case Owner(other) =>
        assert Apart(s, id, other);
      case Prober(q) =>
        assert ProbeOk(s, q) && Apart(s, id, s.probes[q].id);
        assert s.probes[q].id == id;
    }
    if q :| q in s.probes && s.probes[q].Locked? && s.probes[q].id == id {
      assert ProbeOk(s, q) && SawOk(s, q);
    }
    if id !in s.disturbed && BeingChecked(s, id) {
      var q :| q in s.probes && s.probes[q].Locked? && s.probes[q].id == id;
      assert SawOk(s, q);
    }
  }

  /**
   Over every history, and for every run: no record, no reading; with one, `Held`
   while the owner holds the lock or a probe is checking it, `Abandoned` otherwise.
   */
  lemma ReadingsAre(steps: seq<Step>, id: RunId)
    requires Legal(Init, steps) && id in Run(Init, steps).phase
    ensures var s := Run(Init, steps); var p := s.phase[id];
      Probed(s, id) ==
        if !Recorded(p) || id in s.discarded then NoRecord
        else if p.Holding? || BeingChecked(s, id) then Held
        else Abandoned
  {
    Reached(steps);
    var s := Run(Init, steps);
    assert RunOk(s, id) && RecordOk(s, id);
    if id in s.inodes {
      LockedByWhom(s, id);
    }
  }

  /**
   Over every history, a live run reads `Abandoned` exactly when it is in its
   window, between the creation and the locking of its file or after the
   locking failed, no repair has removed the file, and no probe is checking it.
   */
  lemma LiveRunReadsAbandonedIff(steps: seq<Step>, id: RunId)
    requires Legal(Init, steps) && id in Run(Init, steps).phase
    ensures var s := Run(Init, steps);
      Live(s.phase[id]) && Probed(s, id) == Abandoned
      <==> InWindow(s.phase[id]) && id !in s.discarded && !BeingChecked(s, id)
  {
    ReadingsAre(steps, id);
  }

  // ----- who is gone, and who is not touched -----

  lemma GoneStays(s: State, step: Step, id: RunId)
    requires Inv(s) && Enabled(s, step) && id in s.phase && !Live(s.phase[id])
    ensures id in Apply(s, step).phase && Apply(s, step).phase[id] == s.phase[id]
  {
    assert RunOk(s, id);
  }

  /** An owner that is gone stays gone, so no later holder can be stamped over either. */
  lemma {:induction false} GoneForGood(s: State, steps: seq<Step>, id: RunId)
    requires Inv(s) && Legal(s, steps) && id in s.phase && !Live(s.phase[id])
    ensures id in Run(s, steps).phase && Run(s, steps).phase[id] == s.phase[id]
    decreases |steps|
  {
    if steps != [] {
      GoneStays(s, steps[0], id);
      InvKept(s, steps[0]);
      GoneForGood(Apply(s, steps[0]), steps[1..], id);
    }
  }

  /** A step about one run changes neither the row nor the reading of another. */
  lemma RunsDoNotInterfere(steps: seq<Step>, step: Step, other: RunId)
    requires Legal(Init, steps) && Enabled(Run(Init, steps), step)
    requires other in Run(Init, steps).phase && other != Subject(Run(Init, steps), step)
    ensures var s := Run(Init, steps); var t := Apply(s, step);
      && other in t.phase && t.phase[other] == s.phase[other]
      && other in t.rows && other in s.rows && t.rows[other] == s.rows[other]
      && Probed(t, other) == Probed(s, other)
  {
    Reached(steps);
    var s := Run(Init, steps);
    assert RunOk(s, other) && RecordOk(s, other);
    Elsewhere(s, step, other);
    if other in s.inodes {
      LockElsewhere(s, step, other);
    }
  }

  // ----- a run that locks its file at once -----

  /**
   The `acquire` of this run seen as one step: the lock is tried right after the
   file is created, and trying it is not an error. Other runs may do as they like.
   */
  predicate LocksAtOnce(steps: seq<Step>, id: RunId) {
    forall i :: 0 <= i < |steps| && steps[i] == Create(id) ==> i + 1 < |steps| && steps[i + 1] == Lock(id)
  }

  predicate Calm(s: State, id: RunId) {
    id !in s.disturbed && (id in s.phase ==> !InWindow(s.phase[id]))
  }

  /** A lock tried right after the creation is taken: no one can have opened the file before. */
  lemma AcquireInOneStep(s: State, id: RunId)
    requires Inv(s) && Calm(s, id) && Enabled(s, Create(id))
    requires Enabled(Apply(s, Create(id)), Lock(id))
    ensures Calm(Apply(Apply(s, Create(id)), Lock(id)), id)
    ensures Apply(Apply(s, Create(id)), Lock(id)).phase[id] == Holding
  {
    assert RecordOk(s, id);
    var t := Apply(s, Create(id));
    if s.next in s.locks {
      LockedInodesExist(s, s.next);
    }
    assert t.inodes[id] == s.next && t.locks == s.locks;
  }

  lemma LockedInodesExist(s: State, n: Inode)
    requires Inv(s) && n in s.locks
    ensures n < s.next
  {
    assert LockOk(s, n);
    match s.locks[n]
    case Owner(other) => assert RunOk(s, other);
    case Prober(q) => assert ProbeOk(s, q) && RunOk(s, s.probes[q].id);
  }

  lemma CalmKept(s: State, step: Step, id: RunId)
    requires Inv(s) && Calm(s, id) && Enabled(s, step) && step != Create(id)
    ensures Calm(Apply(s, step), id)
  {
    if id in s.phase && id != Subject(s, step) {
      Elsewhere(s, step, id);
    }
  }

  /** No probe ever meets such a run in its window. */
  lemma {:induction false} LockingAtOnceAvoidsTheWindow(s: State, steps: seq<Step>, id: RunId)
    requires Inv(s) && Calm(s, id) && Legal(s, steps) && LocksAtOnce(steps, id)
    ensures Calm(Run(s, steps), id)
    decreases |steps|
  {
    if steps != [] {
      var t, rest := Apply(s, steps[0]), steps[1..];
      InvKept(s, steps[0]);
      assert forall i :: 0 <= i < |rest| ==> rest[i] == steps[i + 1];
      if steps[0] == Create(id) {
        assert rest[0] == Lock(id);
        AcquireInOneStep(s, id);
        InvKept(t, rest[0]);
        assert forall i :: 0 <= i < |rest[1..]| ==> rest[1..][i] == steps[i + 2];
        LockingAtOnceAvoidsTheWindow(Apply(t, rest[0]), rest[1..], id);
      } else {
        CalmKept(s, steps[0], id);
        LockingAtOnceAvoidsTheWindow(t, rest, id);
      }
    }
  }

  /**
   In every interleaving such a run reads `Held` while its owner holds the lock,
   `Abandoned` from its death or its `abandon` until the record is discarded
   (`Held` for a second probe meanwhile), and `NoRecord` in all other cases.
   */
  lemma LockingAtOnceMakesReadingsRight(steps: seq<Step>, id: RunId)
    requires Legal(Init, steps) && LocksAtOnce(steps, id) && id in Run(Init, steps).phase
    ensures var s := Run(Init, steps);
      Probed(s, id) ==
        if s.phase[id] == Holding then Held
        else if s.phase[id] == Dead && id !in s.discarded then (if BeingChecked(s, id) then Held else Abandoned)
        else NoRecord
  {
    LockingAtOnceAvoidsTheWindow(Init, steps, id);
    ReadingsAre(steps, id);
    Reached(steps);
    assert RecordOk(Run(Init, steps), id);
  }

  // ----- and one that does not -----

  function ProbedWhileCreating(id: RunId): seq<Step> {
    [OpenRow(id)] + [Create(id)] + [ProbeOpen(0, id)] + [ProbeLock(0)]
  }

  function CreatingUnderProbe(id: RunId): State {
    State(map[id := RUNNING], map[id := Creating], map[LockName(id) := 0], map[0 := Prober(0)], 1,
      map[0 := Locked(id, 0)], map[id := 0], {}, {id})
  }

  function Created(id: RunId): State {
    State(map[id := RUNNING], map[id := Creating], map[LockName(id) := 0], map[], 1, map[], map[id := 0], {}, {})
  }

  lemma JustCreated(id: RunId)
    requires IsRunId(id)
    ensures Legal(Init, [OpenRow(id)] + [Create(id)]) && Run(Init, [OpenRow(id)] + [Create(id)]) == Created(id)
  {
    StepsCompose(Init, [], OpenRow(id));
    assert [] + [OpenRow(id)] == [OpenRow(id)];
    StepsCompose(Init, [OpenRow(id)], Create(id));
  }

  lemma ProbeInTheWindow(id: RunId)
    requires IsRunId(id)
    ensures Legal(Init, ProbedWhileCreating(id)) && Run(Init, ProbedWhileCreating(id)) == CreatingUnderProbe(id)
  {
    JustCreated(id);
    StepsCompose(Init, [OpenRow(id)] + [Create(id)], ProbeOpen(0, id));
    StepsCompose(Init, [OpenRow(id)] + [Create(id)] + [ProbeOpen(0, id)], ProbeLock(0));
  }

  /**
   A probe between the two halves of `acquire` reads `Abandoned`; the owner
   then takes the lock, and the repair stamps a run that is held.
   */
  lemma RepairCanStampAHeldRun(id: RunId)
    requires IsRunId(id)
    ensures var steps := ProbedWhileCreating(id) + [ProbeClose(0)] + [Lock(id)] + [RepairStamp(0)];
      Legal(Init, steps) && At(Run(Init, steps), id, Holding) && Run(Init, steps).rows == map[id := ABANDONED]
  {
    var steps := ProbedWhileCreating(id);
    ProbeInTheWindow(id);
    StepsCompose(Init, steps, ProbeClose(0));
    StepsCompose(Init, steps + [ProbeClose(0)], Lock(id));
    StepsCompose(Init, steps + [ProbeClose(0)] + [Lock(id)], RepairStamp(0));
  }

  /**
   An acquire that loses its lock to a probe leaves its file behind: the live
   run then reads `Abandoned`, not `NoRecord`.
   */
  lemma LostAcquireReadsAbandoned(id: RunId)
    requires IsRunId(id)
    ensures var steps := ProbedWhileCreating(id) + [Lock(id)] + [ProbeClose(0)];
      Legal(Init, steps) && At(Run(Init, steps), id, LeftBehind) && Live(LeftBehind)
      && Probed(Run(Init, steps), id) == Abandoned
  {
    var steps := ProbedWhileCreating(id);
    ProbeInTheWindow(id);
    StepsCompose(Init, steps, Lock(id));
    StepsCompose(Init, steps + [Lock(id)], ProbeClose(0));
  }

  /** So does one whose lock attempt fails outright, with no probe anywhere. */
  lemma FailedLockReadsAbandoned(id: RunId)
    requires IsRunId(id)
    ensures var steps := [OpenRow(id)] + [Create(id)] + [LockError(id)];
      Legal(Init, steps) && At(Run(Init, steps), id, LeftBehind) && Run(Init, steps).disturbed == {}
      && Probed(Run(Init, steps), id) == Abandoned
  {
    JustCreated(id);
    StepsCompose(Init, [OpenRow(id)] + [Create(id)], LockError(id));
  }

  function WholeProbe(id: RunId, q: ProbeId): seq<Step> {
    [ProbeOpen(q, id)] + [ProbeLock(q)] + [ProbeClose(q)]
  }

  function ProbedThrough(steps: seq<Step>, id: RunId, q: ProbeId): seq<Step> {
    steps + WholeProbe(id, q)
  }

  lemma WholeProbeRuns(s: State, id: RunId, q: ProbeId)
    requires q !in s.probes && id in s.rows && id in s.phase && !InWindow(s.phase[id])
    requires LockName(id) in s.files && s.files[LockName(id)] !in s.locks
    ensures Legal(s, WholeProbe(id, q))
    ensures Run(s, WholeProbe(id, q)) == s.(probes := s.probes[q := Reading(id, Abandoned)])
  {
    StepsCompose(s, [], ProbeOpen(q, id));
    assert [] + [ProbeOpen(q, id)] == [ProbeOpen(q, id)];
    StepsCompose(s, [ProbeOpen(q, id)], ProbeLock(q));
    StepsCompose(s, [ProbeOpen(q, id)] + [ProbeLock(q)], ProbeClose(q));
    var t := Run(s, WholeProbe(id, q));
    assert t.locks == s.locks && t.probes == s.probes[q := Reading(id, Abandoned)];
  }

  /** A probe that runs through on the record of a dead owner reads `Abandoned` and leaves everything as it was. */
  lemma ProbeReadsAbandoned(steps: seq<Step>, id: RunId, q: ProbeId)
    requires Legal(Init, steps)
    requires At(Run(Init, steps), id, Dead) && id !in Run(Init, steps).discarded
    requires !BeingChecked(Run(Init, steps), id) && q !in Run(Init, steps).probes
    ensures Legal(Init, ProbedThrough(steps, id, q))
    ensures var s := Run(Init, steps);
      Run(Init, ProbedThrough(steps, id, q)) == s.(probes := s.probes[q := Reading(id, Abandoned)])
  {
    Reached(steps);
    ReadingsAre(steps, id);
    var s := Run(Init, steps);
    assert RunOk(s, id);
    WholeProbeRuns(s, id, q);
    StepsAppend(Init, steps, WholeProbe(id, q));
  }

  /**
   What an interrupted owner leaves can be repaired: from any reachable state, a
   repair that finds the record of a dead owner unchecked closes the row and
   removes the record.
   */
  lemma RepairSucceeds(steps: seq<Step>, id: RunId, q: ProbeId)
    requires Legal(Init, steps)
    requires At(Run(Init, steps), id, Dead) && id !in Run(Init, steps).discarded
    requires !BeingChecked(Run(Init, steps), id) && q !in Run(Init, steps).probes
    ensures var all := ProbedThrough(steps, id, q) + [RepairStamp(q)] + [RepairDiscard(q)];
      && Legal(Init, all)
      && Run(Init, all).rows == Run(Init, steps).rows[id := ABANDONED]
      && Probed(Run(Init, all), id) == NoRecord
  {
    Reached(steps);
    assert RunOk(Run(Init, steps), id);
    ProbeReadsAbandoned(steps, id, q);
    StepsCompose(Init, ProbedThrough(steps, id, q), RepairStamp(q));
    StepsCompose(Init, ProbedThrough(steps, id, q) + [RepairStamp(q)], RepairDiscard(q));
  }

  /** A history that goes on. */
  lemma {:induction false} StepsAppend(s: State, a: seq<Step>, b: seq<Step>)
    requires Legal(s, a) && Legal(Run(s, a), b)
    ensures Legal(s, a + b) && Run(s, a + b) == Run(Run(s, a), b)
    decreases |a|
  {
    if a == [] {
      assert a + b == b;
    } else {
      assert (a + b)[1..] == a[1..] + b;
      StepsAppend(Apply(s, a[0]), a[1..], b);
    }
  }

  /** One more step at the end of a history. */
  lemma {:induction false} StepsCompose(s: State, steps: seq<Step>, last: Step)
    requires Legal(s, steps) && Enabled(Run(s, steps), last)
    ensures Legal(s, steps + [last]) && Run(s, steps + [last]) == Apply(Run(s, steps), last)
    decreases |steps|
  {
    if steps == [] {
      assert (steps + [last])[1..] == [];
    } else {
      assert (steps + [last])[1..] == steps[1..] + [last];
      StepsCompose(Apply(s, steps[0]), steps[1..], last);
    }
  }
}
