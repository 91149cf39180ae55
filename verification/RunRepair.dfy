/** A repair pass as steps of the liveness protocol, and whom it may stamp. */
module RunRepair {
  import opened Prelude
  import opened RunNames
  import opened RunProtocol
  import opened RunLocks
  import opened RunTable

  /** The table holds the rows of the protocol's state, with their statuses. */
  ghost predicate InStep(rows: seq<RunRow>, s: State) {
    && (forall id :: id in s.rows <==> HasRow(rows, id))
    && (forall i :: 0 <= i < |rows| ==> rows[i].id in s.rows && s.rows[rows[i].id] == rows[i].status)
  }

  lemma HasRowKept(rows: seq<RunRow>, after: seq<RunRow>, id: RunId)
    requires |after| == |rows| && forall i :: 0 <= i < |rows| ==> after[i].id == rows[i].id
    ensures HasRow(after, id) <==> HasRow(rows, id)
  {
    if i :| 0 <= i < |rows| && rows[i].id == id { assert after[i].id == id; }
    if i :| 0 <= i < |after| && after[i].id == id { assert rows[i].id == id; }
  }

  /** Changing statuses in the table and in the state alike keeps them in step. */
  lemma StatusesInStep(rows: seq<RunRow>, s: State, after: seq<RunRow>, t: State)
    requires InStep(rows, s) && t.rows.Keys == s.rows.Keys
    requires |after| == |rows|
    requires forall i :: 0 <= i < |rows| ==>
      after[i].id == rows[i].id && after[i].id in t.rows && t.rows[after[i].id] == after[i].status
    ensures InStep(after, t)
  {
    forall id ensures id in t.rows <==> HasRow(after, id) {
      HasRowKept(rows, after, id);
    }
  }

  lemma StampInStep(rows: seq<RunRow>, s: State, id: RunId, status: string, now: string, t: State)
    requires InStep(rows, s) && id in s.rows && t.rows == s.rows[id := status]
    ensures InStep(Closed(rows, id, status, now), t)
  {
    StatusesInStep(rows, s, Closed(rows, id, status, now), t);
  }

  /** Prober and repair steps only: what a pass does and no owner. */
  predicate OfRepair(steps: seq<Step>) {
    forall i :: 0 <= i < |steps| ==>
      steps[i].ProbeOpen? || steps[i].ProbeLock? || steps[i].ProbeClose? || steps[i].ProbeDie?
      || steps[i].RepairStamp? || steps[i].RepairDiscard?
  }

  /** These steps are legal in `s` and lead to `t`. */
  predicate Goes(s: State, steps: seq<Step>, t: State) { Legal(s, steps) && Run(s, steps) == t }

  lemma GoesOn(s: State, a: seq<Step>, t: State, b: seq<Step>, u: State)
    requires Goes(s, a, t) && Goes(t, b, u)
    ensures Goes(s, a + b, u)
  {
    StepsAppend(s, a, b);
  }

  // ----- closing one run -----

  /** Stamps the row, then discards the record, or just goes away if it cannot be removed. */
  function RepairSteps(q: ProbeId, stuck: bool): seq<Step> {
    [RepairStamp(q)] + [if stuck then ProbeDie(q) else RepairDiscard(q)]
  }

  predicate CanRepair(s: State, q: ProbeId, id: RunId) {
    q in s.probes && s.probes[q] == Reading(id, Abandoned) && id in s.rows
  }

  function Repaired(s: State, q: ProbeId, id: RunId, stuck: bool): State {
    var t := s.(rows := s.rows[id := ABANDONED], probes := s.probes - {q});
    if stuck then t else t.(files := s.files - {LockName(id)}, discarded := s.discarded + {id})
  }

  lemma RepairGoes(s: State, q: ProbeId, id: RunId, stuck: bool)
    requires CanRepair(s, q, id)
    ensures Goes(s, RepairSteps(q, stuck), Repaired(s, q, id, stuck))
  {
    StepsCompose(s, [], RepairStamp(q));
    assert [] + [RepairStamp(q)] == [RepairStamp(q)];
    StepsCompose(s, [RepairStamp(q)], if stuck then ProbeDie(q) else RepairDiscard(q));
    assert Run(s, RepairSteps(q, stuck)).probes == s.probes - {q};
  }

  /** The repair's steps lead from `s` to a state with this table and this disk. */
  ghost predicate RepairLeadsTo(s: State, q: ProbeId, id: RunId, stuck: bool, rows: seq<RunRow>, d: Disk) {
    var t := Repaired(s, q, id, stuck);
    Goes(s, RepairSteps(q, stuck), t) && InStep(rows, t) && DiskOf(t) == d && t.phase == s.phase
  }

  lemma RepairIsSteps(s: State, q: ProbeId, id: RunId, stuck: bool, rows: seq<RunRow>, now: string)
    requires CanRepair(s, q, id) && InStep(rows, s)
    ensures RepairLeadsTo(s, q, id, stuck, Closed(rows, id, ABANDONED, now),
      if stuck then DiskOf(s) else DiskOf(s).(files := s.files - {LockName(id)}))
  {
    RepairGoes(s, q, id, stuck);
    StampInStep(rows, s, id, ABANDONED, now, Repaired(s, q, id, stuck));
  }

  // ----- the survey -----

  /** A survey probes each listed row with a file handle of its own. */
  function SurveySteps(list: seq<RunRow>, d: Disk, troubles: Troubles, first: ProbeId): seq<Step> {
    if list == [] then []
    else
      var n := |list| - 1;
      SurveySteps(list[..n], d, troubles, first)
      + ProbeSteps(d, first + n, list[n].id, TroubleOf(troubles, list[n].id))
  }

  ghost predicate HasReadings(s: State, runs: seq<OpenRun>, first: ProbeId) {
    forall k :: 0 <= k < |runs| && runs[k].liveness != Unreadable ==>
      first + k in s.probes && s.probes[first + k] == Reading(runs[k].id, runs[k].liveness)
  }

  ghost predicate FreshFrom(s: State, first: ProbeId) { forall q: ProbeId :: q >= first ==> q !in s.probes }

  ghost predicate AllKnown(s: State, list: seq<RunRow>) {
    forall k :: 0 <= k < |list| ==> list[k].id in s.rows && list[k].id in s.phase
  }

  /** A survey changes no row, no phase and no disk, and leaves a reading for every readable run. */
  ghost predicate Looked(s: State, t: State, list: seq<RunRow>, troubles: Troubles, first: ProbeId) {
    && DiskOf(t) == DiskOf(s) && t.rows == s.rows && t.phase == s.phase
    && HasReadings(t, Surveyed(list, DiskOf(s), troubles), first) && FreshFrom(t, first + |list|)
  }

  lemma {:induction false} SurveyIsSteps(s: State, list: seq<RunRow>, troubles: Troubles, first: ProbeId)
    returns (t: State)
    requires AllKnown(s, list) && FreshFrom(s, first)
    ensures Goes(s, SurveySteps(list, DiskOf(s), troubles, first), t) && Looked(s, t, list, troubles, first)
    decreases |list|
  {
    t := s;
    if list != [] {
      var before := SurveyIsSteps(s, list[..|list| - 1], troubles, first);
      t := OneMoreProbe(s, before, list, troubles, first);
      OneMoreProbeGoes(s, before, t, list, DiskOf(s), troubles, first);
    }
  }

  lemma OneMoreProbeGoes(s: State, before: State, t: State, list: seq<RunRow>, d: Disk, troubles: Troubles,
                         first: ProbeId)
    requires list != [] && Goes(s, SurveySteps(list[..|list| - 1], d, troubles, first), before)
    requires var n := |list| - 1; Goes(before, ProbeSteps(d, first + n, list[n].id, TroubleOf(troubles, list[n].id)), t)
    ensures Goes(s, SurveySteps(list, d, troubles, first), t)
  {
    var n := |list| - 1;
    var probed, probing := SurveySteps(list[..n], d, troubles, first),
      ProbeSteps(d, first + n, list[n].id, TroubleOf(troubles, list[n].id));
    assert SurveySteps(list, d, troubles, first) == probed + probing;
    GoesOn(s, probed, before, probing, t);
  }

  lemma OneMoreProbe(s: State, before: State, list: seq<RunRow>, troubles: Troubles, first: ProbeId) returns (t: State)
    requires list != [] && AllKnown(s, list) && Looked(s, before, list[..|list| - 1], troubles, first)
    ensures var n := |list| - 1;
      Goes(before, ProbeSteps(DiskOf(s), first + n, list[n].id, TroubleOf(troubles, list[n].id)), t)
    ensures Looked(s, t, list, troubles, first)
  {
    var n := |list| - 1;
    var d, trouble := DiskOf(s), TroubleOf(troubles, list[n].id);
    ProbeIsSteps(before, first + n, list[n].id, trouble);
    t := Run(before, ProbeSteps(d, first + n, list[n].id, trouble));
    SurveyedAppend(list, n, d, troubles);
    assert list[..n + 1] == list;
    OneMoreReading(before, t, Surveyed(list[..n], d, troubles), SurveyedRow(list[n], d, troubles), first);
  }

  lemma OneMoreReading(t: State, u: State, runs: seq<OpenRun>, run: OpenRun, first: ProbeId)
    requires HasReadings(t, runs, first) && FreshFrom(t, first + |runs|)
    requires u.probes == if run.liveness == Unreadable then t.probes
                         else t.probes[first + |runs| := Reading(run.id, run.liveness)]
    ensures HasReadings(u, runs + [run], first) && FreshFrom(u, first + |runs| + 1)
  {
  }

  // ----- the pass -----

  function RunSteps(run: OpenRun, q: ProbeId, barred: set<RunId>, stuck: set<RunId>): seq<Step> {
    if run.liveness == Abandoned && run.id !in barred then RepairSteps(q, run.id in stuck) else []
  }

  /** Closes the runs that read `Abandoned`, in survey order, except the barred ones. */
  function PassSteps(runs: seq<OpenRun>, first: ProbeId, barred: set<RunId>, stuck: set<RunId>): seq<Step> {
    if runs == [] then []
    else
      var n := |runs| - 1;
      PassSteps(runs[..n], first, barred, stuck) + RunSteps(runs[n], first + n, barred, stuck)
  }

  function WithRun(closed: seq<RunId>, run: OpenRun, barred: set<RunId>): seq<RunId> {
    if run.liveness == Abandoned && run.id !in barred then closed + [run.id] else closed
  }

  function ClosedBy(runs: seq<OpenRun>, barred: set<RunId>): seq<RunId> {
    if runs == [] then [] else WithRun(ClosedBy(runs[..|runs| - 1], barred), runs[|runs| - 1], barred)
  }

  /** A pass closes what its survey judged abandoned, except the barred ones. */
  lemma {:induction false} ClosedAreTheAbandoned(runs: seq<OpenRun>, barred: set<RunId>)
    ensures ClosedBy(runs, barred) == Outside(Judged(runs, Abandoned), barred)
    decreases |runs|
  {
    if runs != [] {
      var n := |runs| - 1;
      ClosedAreTheAbandoned(runs[..n], barred);
      assert runs[..n] + [runs[n]] == runs;
      JudgedAppend(runs[..n], runs[n], Abandoned);
      OneMoreSorted(Judged(runs[..n], Abandoned), runs[n].id, barred);
      assert Judged(runs[..n], Abandoned) + [] == Judged(runs[..n], Abandoned);
    }
  }

  /** From this probe on, nothing has happened. */
  ghost predicate SameFrom(s: State, t: State, q: ProbeId) {
    forall x: ProbeId :: x >= q ==> (x in t.probes <==> x in s.probes) && (x in s.probes ==> t.probes[x] == s.probes[x])
  }

  /** The registered statuses once these runs are closed. */
  function StatusesAfter(rows: map<RunId, string>, closed: seq<RunId>): map<RunId, string> {
    map id | id in rows :: if id in closed then ABANDONED else rows[id]
  }

  /** What the first part of a pass has left: the rows, the directory, and the readings still to come. */
  ghost predicate PassHasReached(s: State, t: State, closed: seq<RunId>, stuck: set<RunId>, next: ProbeId) {
    && t.rows == StatusesAfter(s.rows, closed)
    && RecordsGone(DiskOf(s), closed, stuck, DiskOf(t))
    && t.phase == s.phase
    && SameFrom(s, t, next)
  }

  lemma RecordsGoneOneMore(d: Disk, closed: seq<RunId>, id: RunId, stuck: set<RunId>, before: Disk, after: Disk)
    requires RecordsGone(d, closed, stuck, before)
    requires after == if id in stuck then before else before.(files := before.files - {LockName(id)})
    ensures RecordsGone(d, closed + [id], stuck, after)
  {
    OneMoreName(closed, id, stuck);
    var names := LockNamesOf(Outside(closed, stuck));
    assert d.files - names - {LockName(id)} == d.files - (names + {LockName(id)});
  }

  /** The steps of the pass over these runs lead from `s` to `t`. */
  ghost predicate PassIs(s: State, t: State, runs: seq<OpenRun>, first: ProbeId, barred: set<RunId>,
                         stuck: set<RunId>) {
    && Goes(s, PassSteps(runs, first, barred, stuck), t)
    && PassHasReached(s, t, ClosedBy(runs, barred), stuck, first + |runs|)
  }

  lemma {:induction false} PassIsSteps(s: State, runs: seq<OpenRun>, first: ProbeId, barred: set<RunId>,
                                       stuck: set<RunId>)
    returns (t: State)
    requires HasReadings(s, runs, first) && AllListed(s, runs)
    ensures PassIs(s, t, runs, first, barred, stuck)
    decreases |runs|
  {
    if runs == [] {
      t := s;
      assert StatusesAfter(s.rows, []) == s.rows;
    } else {
      var before := PassIsSteps(s, runs[..|runs| - 1], first, barred, stuck);
      t := NextRun(s, before, runs, first, barred, stuck);
    }
  }

  lemma NextRun(s: State, before: State, runs: seq<OpenRun>, first: ProbeId, barred: set<RunId>, stuck: set<RunId>)
    returns (t: State)
    requires runs != [] && HasReadings(s, runs, first) && AllListed(s, runs)
    requires PassIs(s, before, runs[..|runs| - 1], first, barred, stuck)
    ensures PassIs(s, t, runs, first, barred, stuck)
  {
    t := AfterRun(before, runs[|runs| - 1], first + |runs| - 1, barred, stuck);
    NextRunGoes(s, before, runs, first, barred, stuck);
    OneMoreRunGoes(s, before, t, runs, first, barred, stuck);
    NextRunReaches(s, before, runs, first, barred, stuck);
  }

  lemma NextRunGoes(s: State, before: State, runs: seq<OpenRun>, first: ProbeId, barred: set<RunId>, stuck: set<RunId>)
    requires runs != [] && HasReadings(s, runs, first) && AllListed(s, runs)
    requires before.rows.Keys == s.rows.Keys && SameFrom(s, before, first + |runs| - 1)
    ensures var n := |runs| - 1;
      Goes(before, RunSteps(runs[n], first + n, barred, stuck), AfterRun(before, runs[n], first + n, barred, stuck))
  {
    var n := |runs| - 1;
    if runs[n].liveness == Abandoned && runs[n].id !in barred {
      RepairGoes(before, first + n, runs[n].id, runs[n].id in stuck);
    }
  }

  lemma NextRunReaches(s: State, before: State, runs: seq<OpenRun>, first: ProbeId, barred: set<RunId>,
                       stuck: set<RunId>)
    requires runs != [] && AllListed(s, runs)
    requires PassHasReached(s, before, ClosedBy(runs[..|runs| - 1], barred), stuck, first + |runs| - 1)
    ensures var n := |runs| - 1; var t := AfterRun(before, runs[n], first + n, barred, stuck);
      PassHasReached(s, t, ClosedBy(runs, barred), stuck, first + |runs|)
  {
    var n := |runs| - 1;
    if runs[n].liveness == Abandoned && runs[n].id !in barred {
      OneMoreRepair(s, before, ClosedBy(runs[..n], barred), runs[n].id, first + n, stuck);
    }
  }

  lemma OneMoreRunGoes(s: State, before: State, t: State, runs: seq<OpenRun>, first: ProbeId,
                       barred: set<RunId>, stuck: set<RunId>)
    requires runs != [] && Goes(s, PassSteps(runs[..|runs| - 1], first, barred, stuck), before)
    requires Goes(before, RunSteps(runs[|runs| - 1], first + |runs| - 1, barred, stuck), t)
    ensures Goes(s, PassSteps(runs, first, barred, stuck), t)
  {
    var n := |runs| - 1;
    GoesOn(s, PassSteps(runs[..n], first, barred, stuck), before, RunSteps(runs[n], first + n, barred, stuck), t);
  }

  function AfterRun(s: State, run: OpenRun, q: ProbeId, barred: set<RunId>, stuck: set<RunId>): State {
    if run.liveness == Abandoned && run.id !in barred then Repaired(s, q, run.id, run.id in stuck) else s
  }

  ghost predicate AllListed(s: State, runs: seq<OpenRun>) {
    forall k :: 0 <= k < |runs| ==> runs[k].id in s.rows
  }

  lemma OneMoreRepair(s: State, before: State, closed: seq<RunId>, id: RunId, q: ProbeId, stuck: set<RunId>)
    requires PassHasReached(s, before, closed, stuck, q) && id in s.rows
    ensures PassHasReached(s, Repaired(before, q, id, id in stuck), closed + [id], stuck, q + 1)
  {
    var t := Repaired(before, q, id, id in stuck);
    assert t.rows == StatusesAfter(s.rows, closed + [id]);
    RecordsGoneOneMore(DiskOf(s), closed, id, stuck, DiskOf(before), DiskOf(t));
    LaterProbesStay(s, before, t, q);
  }

  lemma LaterProbesStay(s: State, t: State, u: State, q: ProbeId)
    requires SameFrom(s, t, q) && u.probes == t.probes - {q}
    ensures SameFrom(s, u, q + 1)
  {
  }

  /** The table after the pass is the protocol's. */
  lemma ClosedInStep(rows: seq<RunRow>, s: State, closed: seq<RunId>, now: string, t: State)
    requires InStep(rows, s) && t.rows == StatusesAfter(s.rows, closed)
    ensures InStep(AllClosed(rows, closed, now), t)
  {
    StatusesInStep(rows, s, AllClosed(rows, closed, now), t);
  }

  predicate CanPass(s: State, rows: seq<RunRow>) {
    forall i :: 0 <= i < |rows| ==> rows[i].id in s.phase
  }

  /** The whole pass, first every probe and then every close, is one legal sequence of prober and repair steps. */
  ghost predicate PassLeadsTo(s: State, rows: seq<RunRow>, d: Disk) {
    exists steps, t {:trigger Goes(s, steps, t)} ::
      Goes(s, steps, t) && OfRepair(steps) && InStep(rows, t) && DiskOf(t) == d
  }

  lemma {:induction false} SurveyIsOfRepair(list: seq<RunRow>, d: Disk, troubles: Troubles, first: ProbeId)
    ensures OfRepair(SurveySteps(list, d, troubles, first))
    decreases |list|
  {
    if list != [] {
      SurveyIsOfRepair(list[..|list| - 1], d, troubles, first);
    }
  }

  lemma {:induction false} PassIsOfRepair(runs: seq<OpenRun>, first: ProbeId, barred: set<RunId>, stuck: set<RunId>)
    ensures OfRepair(PassSteps(runs, first, barred, stuck))
    decreases |runs|
  {
    if runs != [] {
      PassIsOfRepair(runs[..|runs| - 1], first, barred, stuck);
    }
  }

  lemma PassIsOnePath(s: State, rows: seq<RunRow>, troubles: Troubles, first: ProbeId, barred: set<RunId>,
                      stuck: set<RunId>, now: string, newDisk: Disk)
    requires InStep(rows, s) && CanPass(s, rows) && FreshFrom(s, first)
    requires RecordsGone(DiskOf(s), ClosedBy(SurveyOf(rows, DiskOf(s), troubles), barred), stuck, newDisk)
    ensures PassLeadsTo(s, AllClosed(rows, ClosedBy(SurveyOf(rows, DiskOf(s), troubles), barred), now), newDisk)
  {
    var list, runs := OpenRowsInOrder(rows), SurveyOf(rows, DiskOf(s), troubles);
    var looked := ProbingHalf(s, rows, troubles, first);
    var t := ClosingHalf(looked, rows, runs, first, barred, stuck, now, newDisk);
    BothHalves(s, SurveySteps(list, DiskOf(s), troubles, first), looked, PassSteps(runs, first, barred, stuck), t);
  }

  lemma ProbingHalf(s: State, rows: seq<RunRow>, troubles: Troubles, first: ProbeId) returns (looked: State)
    requires InStep(rows, s) && CanPass(s, rows) && FreshFrom(s, first)
    ensures var probing := SurveySteps(OpenRowsInOrder(rows), DiskOf(s), troubles, first);
      Goes(s, probing, looked) && OfRepair(probing)
    ensures InStep(rows, looked) && DiskOf(looked) == DiskOf(s)
    ensures var runs := SurveyOf(rows, DiskOf(s), troubles); HasReadings(looked, runs, first) && AllListed(looked, runs)
  {
    var list := OpenRowsInOrder(rows);
    ListedIsKnown(s, rows);
    SurveyIsOfRepair(list, DiskOf(s), troubles, first);
    looked := SurveyIsSteps(s, list, troubles, first);
  }

  lemma ClosingHalf(s: State, rows: seq<RunRow>, runs: seq<OpenRun>, first: ProbeId, barred: set<RunId>,
                    stuck: set<RunId>, now: string, newDisk: Disk) returns (t: State)
    requires InStep(rows, s) && HasReadings(s, runs, first) && AllListed(s, runs)
    requires RecordsGone(DiskOf(s), ClosedBy(runs, barred), stuck, newDisk)
    ensures Goes(s, PassSteps(runs, first, barred, stuck), t) && OfRepair(PassSteps(runs, first, barred, stuck))
    ensures InStep(AllClosed(rows, ClosedBy(runs, barred), now), t) && DiskOf(t) == newDisk
  {
    t := PassIsSteps(s, runs, first, barred, stuck);
    ClosedInStep(rows, s, ClosedBy(runs, barred), now, t);
    PassIsOfRepair(runs, first, barred, stuck);
  }

  lemma BothHalves(s: State, a: seq<Step>, t: State, b: seq<Step>, u: State)
    requires Goes(s, a, t) && OfRepair(a) && Goes(t, b, u) && OfRepair(b)
    ensures Goes(s, a + b, u) && OfRepair(a + b)
  {
    GoesOn(s, a, t, b, u);
  }

  lemma ListedIsKnown(s: State, rows: seq<RunRow>)
    requires InStep(rows, s) && CanPass(s, rows)
    ensures AllKnown(s, OpenRowsInOrder(rows))
    ensures forall k :: 0 <= k < |OpenRowsInOrder(rows)| ==> HasRow(rows, OpenRowsInOrder(rows)[k].id)
  {
    var list := OpenRowsInOrder(rows);
    SurveyMembers(rows);
    forall k | 0 <= k < |list| ensures list[k].id in s.rows && list[k].id in s.phase && HasRow(rows, list[k].id) {
      assert list[k] in rows;
      var i :| 0 <= i < |rows| && rows[i] == list[k];
    }
  }

  // ----- whom a pass may close -----

  predicate LeadsToDisk(history: seq<Step>, id: RunId, d: Disk) {
    Legal(Init, history) && DiskOf(Run(Init, history)) == d && id in Run(Init, history).phase
  }

  /** The run's owner is gone, or in its window; and gone for sure if it locked its file at once. */
  predicate OwnerIsGone(history: seq<Step>, id: RunId)
    requires Legal(Init, history) && id in Run(Init, history).phase
  {
    var p := Run(Init, history).phase[id];
    (Live(p) ==> InWindow(p)) && (LocksAtOnce(history, id) ==> !Live(p))
  }

  lemma AbandonedOwnersAreGone(history: seq<Step>, id: RunId, d: Disk, trouble: Trouble)
    requires LeadsToDisk(history, id, d) && Read(d, id, trouble) == Abandoned
    ensures OwnerIsGone(history, id)
  {
    ReadingsAre(history, id);
    if LocksAtOnce(history, id) {
      LockingAtOnceAvoidsTheWindow(Init, history, id);
    }
  }

  /** So it is for each of these runs, whatever history led to this disk. */
  ghost predicate OwnersAreGone(d: Disk, ids: seq<RunId>) {
    forall history: seq<Step>, id {:trigger LeadsToDisk(history, id, d)} ::
      id in ids && LeadsToDisk(history, id, d) ==> OwnerIsGone(history, id)
  }

  /** A survey that finds runs abandoned is right about their owners. */
  lemma ClosedOwnersAreGone(d: Disk, ids: seq<RunId>, troubles: Troubles)
    requires forall id :: id in ids ==> Read(d, id, TroubleOf(troubles, id)) == Abandoned
    ensures OwnersAreGone(d, ids)
  {
    forall history: seq<Step>, id | id in ids && LeadsToDisk(history, id, d)
      ensures OwnerIsGone(history, id)
    {
      AbandonedOwnersAreGone(history, id, d, TroubleOf(troubles, id));
    }
  }
}
