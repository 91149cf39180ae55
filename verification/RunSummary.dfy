/**
 The two audit projections, the rollup a run stores at its close, and the
 calls that write them.
 */
module RunSummary {
  import opened Prelude
  import opened Tables
  import opened Sorting
  import opened Grouping

  /** `flags` holds one value per flag column, in column order. */
  datatype PaperAudit = PaperAudit(
    intakeId: int, scope: string, profileName: string, verdict: string, flags: seq<nat>,
    run: Option<string>, fingerprint: Option<string>)

  /** One row per build; `runId` is the row's own key. */
  datatype BookAudit = BookAudit(
    runId: nat, slug: string, sourcePath: string, startedAt: string, finishedAt: string,
    pages: int, blocks: int, raws: int, splits: int, entries: int, unmatchedLines: int, pairMismatch: int,
    gateStatus: string, gateThreshold: Option<real>, profileRef: string, extractorVersion: string,
    run: Option<string>, toggleSummary: Option<string>)

  /** One stage of a build; `ord` is its place in the pipeline. */
  datatype StageReport = StageReport(
    ord: int, stageName: string, inKind: string, outKind: string, inLen: int, outLen: int)

  datatype StageRow = StageRow(runId: nat, report: StageReport)

  function StageKey(r: StageRow): (nat, int) { (r.runId, r.report.ord) }

  function StageRows(runId: nat, reports: seq<StageReport>): seq<StageRow> {
    Map(reports, (r: StageReport) => StageRow(runId, r))
  }

  function OrdOf(r: StageReport): int { r.ord }

  datatype Bucket = Bucket(kind: string, fingerprint: Option<string>, profileName: Option<string>, n: nat)

  datatype Summary = Summary(
    nBooks: nat, nPapers: nat, verdictCounts: map<string, nat>, flagCounts: map<string, nat>,
    pairMismatchTotal: int, unmatchedLinesTotal: int, pagesTotal: int, gateFailCount: nat,
    wallClockMs: Option<int>, buckets: seq<Bucket>, computedAt: string)

  function PaperAddress(r: PaperAudit): Address { (r.intakeId, r.scope) }

  function RunOf(r: PaperAudit): Option<string> { r.run }

  function BookRunOf(r: BookAudit): Option<string> { r.run }

  function VerdictOf(r: PaperAudit): string { r.verdict }

  function ProfileOf(r: PaperAudit): (Option<string>, string) { (r.fingerprint, r.profileName) }

  /** `NULLIF(profile_ref, '')`. */
  function BookProfileOf(r: BookAudit): Option<string> { if r.profileRef == "" then None else Some(r.profileRef) }

  function PairMismatchOf(r: BookAudit): int { r.pairMismatch }

  function UnmatchedLinesOf(r: BookAudit): int { r.unmatchedLines }

  function PagesOf(r: BookAudit): int { r.pages }

  function PapersOf(papers: seq<PaperAudit>, run: string): seq<PaperAudit> {
    if papers == [] then [] else (if papers[0].run == Some(run) then [papers[0]] else []) + PapersOf(papers[1..], run)
  }

  function BooksOf(books: seq<BookAudit>, run: string): seq<BookAudit> {
    if books == [] then [] else (if books[0].run == Some(run) then [books[0]] else []) + BooksOf(books[1..], run)
  }

  // ----- the aggregates -----

  function Sum(xs: seq<int>): int {
    if xs == [] then 0 else xs[0] + Sum(xs[1..])
  }

  function FlagTotal(rows: seq<PaperAudit>, i: nat): nat {
    if rows == [] then 0 else (if i < |rows[0].flags| then rows[0].flags[i] else 0) + FlagTotal(rows[1..], i)
  }

  function GateFails(rows: seq<BookAudit>): (n: nat)
    ensures n <= |rows|
  {
    if rows == [] then 0 else (if rows[0].gateStatus == "fail" then 1 else 0) + GateFails(rows[1..])
  }

  function VerdictCounts(rows: seq<PaperAudit>): map<string, nat> {
    var verdicts := Map(rows, VerdictOf);
    map v | v in verdicts :: CountOf(verdicts, v)
  }

  /** The columns whose total is positive, with the total, among the first `n`. */
  function FlagCounts(rows: seq<PaperAudit>, columns: seq<string>, n: nat): map<string, nat>
    requires n <= |columns|
  {
    if n == 0 then map[]
    else if FlagTotal(rows, n - 1) > 0
    then FlagCounts(rows, columns, n - 1)[columns[n - 1] := FlagTotal(rows, n - 1)]
    else FlagCounts(rows, columns, n - 1)
  }

  predicate NullsFirst(a: Option<string>, b: Option<string>) {
    a.None? || (b.Some? && StringLe(a.value, b.value))
  }

  /** `ORDER BY n DESC, profile_fingerprint`. */
  predicate PaperOrder(a: Group<(Option<string>, string)>, b: Group<(Option<string>, string)>) {
    a.n > b.n || (a.n == b.n && NullsFirst(a.key.0, b.key.0))
  }

  predicate BookOrder(a: Group<Option<string>>, b: Group<Option<string>>) {
    a.n > b.n || (a.n == b.n && NullsFirst(a.key, b.key))
  }

  predicate VerdictOrder(a: Group<string>, b: Group<string>) { StringLe(a.key, b.key) }

  lemma NullsFirstOrders()
    ensures TotalPreorder(NullsFirst)
  {
    StringOrder();
  }

  lemma BucketOrders()
    ensures TotalPreorder(PaperOrder) && TotalPreorder(BookOrder)
  {
    NullsFirstOrders();
  }

  function PaperGroups(rows: seq<PaperAudit>): seq<Group<(Option<string>, string)>> {
    StableSort(GroupBy(Map(rows, ProfileOf)), PaperOrder)
  }

  function BookGroups(rows: seq<BookAudit>): seq<Group<Option<string>>> {
    StableSort(GroupBy(Map(rows, BookProfileOf)), BookOrder)
  }

  function PaperBucket(g: Group<(Option<string>, string)>): Bucket { Bucket("paper", g.key.0, Some(g.key.1), g.n) }

  function BookBucket(g: Group<Option<string>>): Bucket { Bucket("book", g.key, None, g.n) }

  function Buckets(papers: seq<PaperAudit>, books: seq<BookAudit>, run: string): seq<Bucket> {
    Map(PaperGroups(PapersOf(papers, run)), PaperBucket) + Map(BookGroups(BooksOf(books, run)), BookBucket)
  }

  function SummaryOf(columns: seq<string>, papers: seq<PaperAudit>, books: seq<BookAudit>, run: string,
                     wallClockMs: Option<int>, now: string): Summary {
    var ps, bs := PapersOf(papers, run), BooksOf(books, run);
    Summary(|bs|, |ps|, VerdictCounts(ps), FlagCounts(ps, columns, |columns|),
      Sum(Map(bs, PairMismatchOf)), Sum(Map(bs, UnmatchedLinesOf)), Sum(Map(bs, PagesOf)),
      GateFails(bs), wallClockMs, Buckets(papers, books, run), now)
  }

  // ----- the writes -----

  /** `ON CONFLICT(intake_id, scope) DO UPDATE`: the whole row is overwritten. */
  function Upserted(papers: seq<PaperAudit>, row: PaperAudit): seq<PaperAudit> {
    if papers == [] then [row]
    else if PaperAddress(papers[0]) == PaperAddress(row) then [row] + papers[1..]
    else [papers[0]] + Upserted(papers[1..], row)
  }

  predicate GateStatusAllowed(s: string) { s == "pass" || s == "fail" || s == "off" }

  /** The cascade of an item's removal: its papers' rows go, in every scope. */
  function WithoutIntake(papers: seq<PaperAudit>, intakeId: int): seq<PaperAudit> {
    if papers == [] then []
    else (if papers[0].intakeId == intakeId then [] else [papers[0]]) + WithoutIntake(papers[1..], intakeId)
  }

  lemma {:induction false} WithoutIntakeSnoc(papers: seq<PaperAudit>, last: PaperAudit, intakeId: int)
    ensures WithoutIntake(papers + [last], intakeId)
         == WithoutIntake(papers, intakeId) + (if last.intakeId == intakeId then [] else [last])
  {
    if papers == [] {
      assert papers + [last] == [last];
    } else {
      SplitFirst(papers, [last]);
      WithoutIntakeSnoc(papers[1..], last, intakeId);
      Associate(if papers[0].intakeId == intakeId then [] else [papers[0]], WithoutIntake(papers[1..], intakeId),
        if last.intakeId == intakeId then [] else [last]);
    }
  }

  lemma {:induction false} WithoutIntakeKeepsRows(papers: seq<PaperAudit>, intakeId: int)
    ensures forall r :: r in WithoutIntake(papers, intakeId) <==> r in papers && r.intakeId != intakeId
    ensures Unique(papers, PaperAddress) ==> Unique(WithoutIntake(papers, intakeId), PaperAddress)
  {
    if papers != [] {
      WithoutIntakeKeepsRows(papers[1..], intakeId);
      assert papers == [papers[0]] + papers[1..];
      if Unique(papers, PaperAddress) {
        FirstAddressIsApart(papers);
      }
    }
  }

  lemma FirstAddressIsApart(papers: seq<PaperAudit>)
    requires papers != [] && Unique(papers, PaperAddress)
    ensures Unique(papers[1..], PaperAddress)
    ensures forall r :: r in papers[1..] ==> PaperAddress(r) != PaperAddress(papers[0])
  {
    forall r | r in papers[1..] ensures PaperAddress(r) != PaperAddress(papers[0]) {
      var i :| 0 <= i < |papers[1..]| && papers[1..][i] == r;
      assert papers[i + 1] == r;
    }
  }

  lemma {:induction false} UpsertedAt(papers: seq<PaperAudit>, row: PaperAudit, i: nat)
    requires i <= |papers| && forall j :: 0 <= j < i ==> PaperAddress(papers[j]) != PaperAddress(row)
    ensures i == |papers| ==> Upserted(papers, row) == papers + [row]
    ensures i < |papers| && PaperAddress(papers[i]) == PaperAddress(row) ==> Upserted(papers, row) == papers[i := row]
  {
    if i > 0 {
      UpsertedAt(papers[1..], row, i - 1);
    }
  }

  ghost predicate HeadersKeyed(books: seq<BookAudit>, next: nat) {
    && (forall r :: r in books ==> r.runId < next)
    && (forall i, j :: 0 <= i < j < |books| ==> books[i].runId != books[j].runId)
  }

  lemma OneMoreHeader(books: seq<BookAudit>, row: BookAudit)
    requires HeadersKeyed(books, row.runId)
    ensures HeadersKeyed(books + [row], row.runId + 1)
  {
    assert forall i :: 0 <= i < |books| ==> books[i] in books;
  }

  predicate HasStage(rows: seq<StageRow>, k: (nat, int)) {
    exists i :: 0 <= i < |rows| && StageKey(rows[i]) == k
  }

  /** An earlier stage of the build has this place. */
  predicate PlaceTaken(reports: seq<StageReport>, i: nat)
    requires i < |reports|
  {
    exists j :: 0 <= j < i && reports[j].ord == reports[i].ord
  }

  /** Under a fresh run id, a stage conflicts exactly with an earlier stage in the same place. */
  lemma OneMoreStage(before: seq<StageRow>, id: nat, reports: seq<StageReport>, i: nat)
    requires i < |reports| && Unique(reports[..i], OrdOf) && forall r :: r in before ==> r.runId < id
    ensures StageRows(id, reports[..i + 1]) == StageRows(id, reports[..i]) + [StageRow(id, reports[i])]
    ensures HasStage(before + StageRows(id, reports[..i]), (id, reports[i].ord)) <==> PlaceTaken(reports, i)
    ensures PlaceTaken(reports, i) ==> !Unique(reports, OrdOf)
    ensures !PlaceTaken(reports, i) ==> Unique(reports[..i + 1], OrdOf)
  {
    var rows := before + StageRows(id, reports[..i]);
    forall k | 0 <= k < |rows|
      ensures rows[k].runId == id ==> k >= |before| && rows[k].report == reports[k - |before|]
    {
      if k < |before| { assert rows[k] in before; }
    }
    if j :| 0 <= j < i && reports[j].ord == reports[i].ord {
      assert rows[|before| + j] == StageRow(id, reports[j]);
      assert OrdOf(reports[j]) == OrdOf(reports[i]);
    }
    assert forall j :: 0 <= j < i ==> reports[..i + 1][j] == reports[..i][j] == reports[j];
  }

  lemma StagesStayKeyed(before: seq<StageRow>, id: nat, reports: seq<StageReport>)
    requires Unique(before, StageKey) && Unique(reports, OrdOf) && forall r :: r in before ==> r.runId < id
    ensures Unique(before + StageRows(id, reports), StageKey)
  {
    var rows := before + StageRows(id, reports);
    forall i, j | 0 <= i < j < |rows| ensures StageKey(rows[i]) != StageKey(rows[j]) {
      if i < |before| {
        assert rows[i] in before;
      } else {
        assert OrdOf(reports[i - |before|]) != OrdOf(reports[j - |before|]);
      }
    }
  }

  // ----- the writes as events -----

  /** A build the table's CHECK lets in. */
  type AllowedBuild = row: BookAudit | GateStatusAllowed(row.gateStatus)
    witness BookAudit(0, "", "", "", "", 0, 0, 0, 0, 0, 0, 0, "off", None, "", "", None, None)

  datatype Event =
    | Judge(paper: PaperAudit)
    | Build(book: AllowedBuild)
    | Close(run: string, wallClockMs: Option<int>, now: string)
    | Remove(intakeId: int)

  datatype Audits = Audits(papers: seq<PaperAudit>, books: seq<BookAudit>, summaries: map<string, Summary>)

  const Empty := Audits([], [], map[])

  function Apply(columns: seq<string>, s: Audits, e: Event): Audits {
    match e
    case Judge(row) => s.(papers := Upserted(s.papers, row))
    case Build(row) => s.(books := s.books + [row])
    case Close(run, wall, now) =>
      s.(summaries := s.summaries[run := SummaryOf(columns, s.papers, s.books, run, wall, now)])
    case Remove(intakeId) => s.(papers := WithoutIntake(s.papers, intakeId))
  }

  function Run(columns: seq<string>, s: Audits, events: seq<Event>): Audits {
    if events == [] then s else Apply(columns, Run(columns, s, events[..|events| - 1]), events[|events| - 1])
  }

  lemma CloseStores(columns: seq<string>, s: Audits, run: string, wallClockMs: Option<int>, now: string, row: Summary)
    requires row == SummaryOf(columns, s.papers, s.books, run, wallClockMs, now)
    ensures Apply(columns, s, Close(run, wallClockMs, now)) == s.(summaries := s.summaries[run := row])
  {
  }

  lemma RunSnoc(columns: seq<string>, s: Audits, events: seq<Event>, e: Event)
    ensures Run(columns, s, events + [e]) == Apply(columns, Run(columns, s, events), e)
  {
    assert (events + [e])[..|events|] == events;
  }

  /**
   The audit tables of one catalog, and the events that made them; `durations` is
   what the registry knows of its runs.
   */
  class AuditTables {
    const columns: seq<string>
    var papers: seq<PaperAudit>
    var books: seq<BookAudit>
    var stages: seq<StageRow>
    var nextRunId: nat
    var summaries: map<string, Summary>
    var durations: map<string, Option<int>>
    ghost var history: seq<Event>

    function State(): Audits
      reads this
    {
      Audits(papers, books, summaries)
    }

    ghost predicate RowsKeyed()
      reads this
    {
      && Unique(papers, PaperAddress)
      && HeadersKeyed(books, nextRunId)
      && Unique(stages, StageKey)
      && (forall r :: r in stages ==> r.runId < nextRunId)
    }

    ghost predicate Valid()
      reads this
    {
      RowsKeyed() && State() == Run(columns, Empty, history)
    }

    constructor (columns: seq<string>)
      ensures Valid() && this.columns == columns && papers == [] && books == [] && stages == [] && summaries == map[]
      ensures history == []
    {
      this.columns := columns;
      papers, books, stages, nextRunId, summaries, durations, history := [], [], [], 1, map[], map[], [];
    }

    ghost method Recorded(e: Event)
      requires State() == Apply(columns, Run(columns, Empty, history), e)
      modifies this`history
      ensures history == old(history) + [e] && State() == Run(columns, Empty, history)
    {
      RunSnoc(columns, Empty, history, e);
      history := history + [e];
    }

    method UpsertNodePaperAudit(row: PaperAudit)
      requires Valid()
      modifies this`papers, this`history
      ensures Valid() && papers == Upserted(old(papers), row) && history == old(history) + [Judge(row)]
    {
      var i := 0;
      while i < |papers| && PaperAddress(papers[i]) != PaperAddress(row)
        invariant i <= |papers|
        invariant forall j :: 0 <= j < i ==> PaperAddress(papers[j]) != PaperAddress(row)
      {
        i := i + 1;
      }
      UpsertedAt(papers, row, i);
      papers := if i < |papers| then papers[i := row] else papers + [row];
      Recorded(Judge(row));
    }

    /** The audit rows among what `delete_book_derived` deletes, and how many they were; a second call deletes none. */
    method RemovePaperAudits(intakeId: int) returns (deleted: nat)
      requires Valid()
      modifies this`papers, this`history
      ensures Valid() && history == old(history) + [Remove(intakeId)]
      ensures papers == WithoutIntake(old(papers), intakeId) && deleted == |old(papers)| - |papers|
      ensures forall r :: r in papers <==> r in old(papers) && r.intakeId != intakeId
    {
      var kept: seq<PaperAudit> := [];
      for i := 0 to |papers|
        invariant kept == WithoutIntake(papers[..i], intakeId) && |kept| <= i
        modifies {}
      {
        assert papers[..i + 1] == papers[..i] + [papers[i]];
        WithoutIntakeSnoc(papers[..i], papers[i], intakeId);
        if papers[i].intakeId != intakeId {
          kept := kept + [papers[i]];
        }
      }
      assert papers[..|papers|] == papers;
      WithoutIntakeKeepsRows(papers, intakeId);
      deleted := |papers| - |kept|;
      papers := kept;
      Recorded(Remove(intakeId));
    }

    /**
     One transaction: the header under the table's next key, then its stages. A
     status the gate's CHECK rejects, or two stages in one place, leaves nothing.
     */
    method InsertDistillAudit(row: BookAudit, reports: seq<StageReport>) returns (runId: Option<nat>)
      requires Valid()
      modifies this`books, this`stages, this`nextRunId, this`history
      ensures Valid()
      ensures runId.Some? <==> row.gateStatus in {"pass", "fail", "off"} && Unique(reports, OrdOf)
      ensures runId.Some? ==> runId.value == old(nextRunId) && nextRunId == old(nextRunId) + 1
      ensures runId.None? ==> books == old(books) && stages == old(stages) && history == old(history)
      ensures runId.Some? ==> books == old(books) + [row.(runId := runId.value)]
      ensures runId.Some? ==> stages == old(stages) + StageRows(runId.value, reports)
      ensures runId.Some? ==> history == old(history) + [Build(row.(runId := runId.value))]
    {
      if !GateStatusAllowed(row.gateStatus) {
        return None;
      }
      var ok := InsertStages(nextRunId, reports);
      if !ok {
        return None;
      }
      runId := Some(nextRunId);
      OneMoreHeader(books, row.(runId := nextRunId));
      books := books + [row.(runId := nextRunId)];
      nextRunId := nextRunId + 1;
      Recorded(Build(row.(runId := runId.value)));
    }

    /** The stages of one build under its key, all of them or, if two share a place, none. */
    method InsertStages(id: nat, reports: seq<StageReport>) returns (ok: bool)
      requires Unique(stages, StageKey) && forall r :: r in stages ==> r.runId < id
      modifies this`stages
      ensures ok <==> Unique(reports, OrdOf)
      ensures stages == if ok then old(stages) + StageRows(id, reports) else old(stages)
      ensures Unique(stages, StageKey) && forall r :: r in stages ==> r.runId <= id
    {
      var before := stages;
      for i := 0 to |reports|
        invariant Unique(reports[..i], OrdOf)
        invariant stages == before + StageRows(id, reports[..i])
      {
        OneMoreStage(before, id, reports, i);
        if HasStage(stages, (id, reports[i].ord)) {
          stages := before;
          return false;
        }
        stages := stages + [StageRow(id, reports[i])];
      }
      assert reports[..|reports|] == reports;
      StagesStayKeyed(before, id, reports);
      return true;
    }

    method RunProfileBuckets(run: string) returns (buckets: seq<Bucket>)
      ensures buckets == Buckets(papers, books, run)
    {
      buckets := [];
      var paperRows := PaperGroups(PapersOf(papers, run));
      for i := 0 to |paperRows|
        invariant buckets == Map(paperRows[..i], PaperBucket)
      {
        MapSnoc(paperRows, i, PaperBucket);
        buckets := buckets + [PaperBucket(paperRows[i])];
      }
      assert paperRows[..|paperRows|] == paperRows;
      ghost var fromPapers := buckets;
      var bookRows := BookGroups(BooksOf(books, run));
      for i := 0 to |bookRows|
        invariant buckets == fromPapers + Map(bookRows[..i], BookBucket)
      {
        MapSnoc(bookRows, i, BookBucket);
        buckets := buckets + [BookBucket(bookRows[i])];
      }
      assert bookRows[..|bookRows|] == bookRows;
    }

    /**
     The whole rollup is taken from the tables at one moment, stored under the
     run and returned. A run without a registry row is refused by the foreign key.
     */
    method ComputeRunSummary(run: string, now: string) returns (r: Option<Summary>)
      requires Valid()
      modifies this`summaries, this`history
      ensures Valid()
      ensures r.Some? <==> run in durations
      ensures r.Some? ==> r.value == SummaryOf(columns, papers, books, run, durations[run], now)
      ensures summaries == if r.Some? then old(summaries)[run := r.value] else old(summaries)
      ensures history == if r.Some? then old(history) + [Close(run, durations[run], now)] else old(history)
    {
      if run !in durations {
        return None;
      }
      var row := RollUp(run, now);
      CloseStores(columns, State(), run, durations[run], now, row);
      summaries := summaries[run := row];
      Recorded(Close(run, durations[run], now));
      return Some(row);
    }

    /** The queries of the rollup, one after another. */
    method RollUp(run: string, now: string) returns (row: Summary)
      requires run in durations
      ensures row == SummaryOf(columns, papers, books, run, durations[run], now)
    {
      var ps, bs := PapersOf(papers, run), BooksOf(books, run);
      var verdicts := VerdictMap(ps);
      var flags := FlagMap(ps, columns);
      var pairMismatch := Sum(Map(bs, PairMismatchOf));
      var unmatchedLines := Sum(Map(bs, UnmatchedLinesOf));
      var pages := Sum(Map(bs, PagesOf));
      var buckets := RunProfileBuckets(run);
      row := Summary(|bs|, |ps|, verdicts, flags, pairMismatch, unmatchedLines, pages, GateFails(bs),
        durations[run], buckets, now);
    }
  }

  /** Inserting the groups into a map one after another. */
  function Inserted(groups: seq<Group<string>>): map<string, nat> {
    if groups == [] then map[] else Inserted(groups[..|groups| - 1])[groups[|groups| - 1].key := groups[|groups| - 1].n]
  }

  lemma {:induction false} InsertedHolds(groups: seq<Group<string>>, keys: seq<string>, v: string)
    requires forall g :: g in groups ==> g.n == CountOf(keys, g.key)
    ensures v in Inserted(groups) <==> Group(v, CountOf(keys, v)) in groups
    ensures v in Inserted(groups) ==> Inserted(groups)[v] == CountOf(keys, v)
    decreases |groups|
  {
    if groups != [] {
      var before, last := groups[..|groups| - 1], groups[|groups| - 1];
      InsertedHolds(before, keys, v);
      assert groups == before + [last];
      assert last in groups && last.n == CountOf(keys, last.key);
    }
  }

  method VerdictMap(rows: seq<PaperAudit>) returns (counts: map<string, nat>)
    ensures counts == VerdictCounts(rows)
  {
    var keys := Map(rows, VerdictOf);
    var groups := StableSort(GroupBy(keys), VerdictOrder);
    counts := map[];
    for i := 0 to |groups|
      invariant counts == Inserted(groups[..i])
    {
      assert groups[..i + 1][..i] == groups[..i];
      counts := counts[groups[i].key := groups[i].n];
    }
    assert groups[..|groups|] == groups;
    VerdictGroups(rows);
  }

  lemma VerdictGroups(rows: seq<PaperAudit>)
    ensures Inserted(StableSort(GroupBy(Map(rows, VerdictOf)), VerdictOrder)) == VerdictCounts(rows)
  {
    var keys := Map(rows, VerdictOf);
    var groups := StableSort(GroupBy(keys), VerdictOrder);
    GroupByTallies(keys);
    SortedTally(GroupBy(keys), keys, VerdictOrder);
    forall v ensures v in Inserted(groups) <==> v in keys
             ensures v in Inserted(groups) ==> Inserted(groups)[v] == CountOf(keys, v) {
      InsertedHolds(groups, keys, v);
    }
  }

  method FlagMap(rows: seq<PaperAudit>, columns: seq<string>) returns (counts: map<string, nat>)
    ensures counts == FlagCounts(rows, columns, |columns|)
  {
    counts := map[];
    for i := 0 to |columns|
      invariant counts == FlagCounts(rows, columns, i)
    {
      var v := FlagTotal(rows, i);
      if v > 0 {
        counts := counts[columns[i] := v];
      }
    }
  }

  // ----- conservation at close -----

  function SumOver(order: seq<string>, counts: map<string, nat>): nat
    requires forall v :: v in order ==> v in counts
  {
    if order == [] then 0 else counts[order[0]] + SumOver(order[1..], counts)
  }

  /** `order` lists the keys of `counts`, each once. */
  ghost predicate Lists(order: seq<string>, counts: map<string, nat>) {
    && (forall v :: v in order <==> v in counts)
    && (forall i, j :: 0 <= i < j < |order| ==> order[i] != order[j])
  }

  function CountsAsGroups(order: seq<string>, counts: map<string, nat>): (groups: seq<Group<string>>)
    requires forall v :: v in order ==> v in counts
    ensures |groups| == |order|
    ensures forall i :: 0 <= i < |order| ==> groups[i] == Group(order[i], counts[order[i]])
  {
    seq(|order|, i requires 0 <= i < |order| => Group(order[i], counts[order[i]]))
  }

  lemma {:induction false} SumIsTotal(order: seq<string>, counts: map<string, nat>)
    requires forall v :: v in order ==> v in counts
    ensures SumOver(order, counts) == Total(CountsAsGroups(order, counts))
  {
    if order != [] {
      assert CountsAsGroups(order, counts)[1..] == CountsAsGroups(order[1..], counts);
      SumIsTotal(order[1..], counts);
    }
  }

  lemma {:induction false} NoRepeats<K(!new)>(groups: seq<Group<K>>, g: Group<K>)
    requires forall i, j :: 0 <= i < j < |groups| ==> groups[i] != groups[j]
    ensures multiset(groups)[g] <= 1
  {
    if groups != [] {
      NoRepeats(groups[1..], g);
      assert groups == [groups[0]] + groups[1..];
      assert groups[0] !in groups[1..];
    }
  }

  /** However the verdicts are listed, their counts add up to the papers of the run. */
  lemma VerdictsAddUp(rows: seq<PaperAudit>, order: seq<string>)
    requires Lists(order, VerdictCounts(rows))
    ensures SumOver(order, VerdictCounts(rows)) == |rows|
  {
    var keys, counts := Map(rows, VerdictOf), VerdictCounts(rows);
    var groups := CountsAsGroups(order, counts);
    SumIsTotal(order, counts);
    forall g ensures multiset(groups)[g] <= 1 {
      NoRepeats(groups, g);
    }
    forall k | k in keys ensures Group(k, CountOf(keys, k)) in groups {
      assert k in order;
      var i :| 0 <= i < |order| && order[i] == k;
      assert groups[i] == Group(k, CountOf(keys, k));
    }
    TallyConserves(groups, keys);
  }

  function SumOfKind(buckets: seq<Bucket>, kind: string): nat {
    if buckets == [] then 0 else (if buckets[0].kind == kind then buckets[0].n else 0) + SumOfKind(buckets[1..], kind)
  }

  lemma {:induction false} SumOfKindAppend(a: seq<Bucket>, b: seq<Bucket>, kind: string)
    ensures SumOfKind(a + b, kind) == SumOfKind(a, kind) + SumOfKind(b, kind)
  {
    if a == [] {
      assert a + b == b;
    } else {
      assert (a + b)[1..] == a[1..] + b;
      SumOfKindAppend(a[1..], b, kind);
    }
  }

  lemma {:induction false} TotalAppend<K>(groups: seq<Group<K>>, last: Group<K>)
    ensures Total(groups + [last]) == Total(groups) + last.n
  {
    if groups == [] {
      assert groups + [last] == [last];
    } else {
      assert (groups + [last])[1..] == groups[1..] + [last];
      TotalAppend(groups[1..], last);
    }
  }

  /** A bucket for each group, all of one kind, with the group's count. */
  lemma {:induction false} OneKindAddsUp<K>(groups: seq<Group<K>>, f: Group<K> -> Bucket, kind: string, other: string)
    requires kind != other && forall g :: f(g).kind == kind && f(g).n == g.n
    ensures SumOfKind(Map(groups, f), kind) == Total(groups) && SumOfKind(Map(groups, f), other) == 0
  {
    if groups != [] {
      assert Map(groups, f)[1..] == Map(groups[1..], f);
      OneKindAddsUp(groups[1..], f, kind, other);
    }
  }

  /** The profile buckets of a run account for each of its rows once, in both tables. */
  lemma BucketsAddUp(papers: seq<PaperAudit>, books: seq<BookAudit>, run: string)
    ensures SumOfKind(Buckets(papers, books, run), "paper") == |PapersOf(papers, run)|
    ensures SumOfKind(Buckets(papers, books, run), "book") == |BooksOf(books, run)|
  {
    var ps, bs := PapersOf(papers, run), BooksOf(books, run);
    GroupByTallies(Map(ps, ProfileOf));
    SortedTally(GroupBy(Map(ps, ProfileOf)), Map(ps, ProfileOf), PaperOrder);
    TallyConserves(PaperGroups(ps), Map(ps, ProfileOf));
    GroupByTallies(Map(bs, BookProfileOf));
    SortedTally(GroupBy(Map(bs, BookProfileOf)), Map(bs, BookProfileOf), BookOrder);
    TallyConserves(BookGroups(bs), Map(bs, BookProfileOf));
    OneKindAddsUp(PaperGroups(ps), PaperBucket, "paper", "book");
    OneKindAddsUp(BookGroups(bs), BookBucket, "book", "paper");
    SumOfKindAppend(Map(PaperGroups(ps), PaperBucket), Map(BookGroups(bs), BookBucket), "paper");
    SumOfKindAppend(Map(PaperGroups(ps), PaperBucket), Map(BookGroups(bs), BookBucket), "book");
  }

  /** Largest first, and among equals the unfingerprinted first and then by fingerprint. */
  predicate ByCount(a: Bucket, b: Bucket) {
    a.n > b.n || (a.n == b.n && NullsFirst(a.fingerprint, b.fingerprint))
  }

  ghost predicate OneKindByCount(buckets: seq<Bucket>, kind: string) {
    && (forall i :: 0 <= i < |buckets| ==> buckets[i].kind == kind)
    && (forall i, j :: 0 <= i < j < |buckets| ==> ByCount(buckets[i], buckets[j]))
  }

  lemma PapersByCount(rows: seq<PaperAudit>)
    ensures OneKindByCount(Map(PaperGroups(rows), PaperBucket), "paper")
  {
    BucketOrders();
    SortSorts(GroupBy(Map(rows, ProfileOf)), PaperOrder);
  }

  lemma BooksByCount(rows: seq<BookAudit>)
    ensures OneKindByCount(Map(BookGroups(rows), BookBucket), "book")
  {
    BucketOrders();
    SortSorts(GroupBy(Map(rows, BookProfileOf)), BookOrder);
  }

  lemma OneAfterTheOther(a: seq<Bucket>, b: seq<Bucket>, i: nat, j: nat)
    requires OneKindByCount(a, "paper") && OneKindByCount(b, "book") && i < j < |a + b|
    ensures var all := a + b;
      (all[i].kind == "paper" && all[j].kind == "book") || (all[i].kind == all[j].kind && ByCount(all[i], all[j]))
  {
  }

  /** The paper buckets come first, and each kind comes by descending count. */
  lemma BucketsComeByCount(papers: seq<PaperAudit>, books: seq<BookAudit>, run: string, i: nat, j: nat)
    requires i < j < |Buckets(papers, books, run)|
    ensures var b := Buckets(papers, books, run);
      (b[i].kind == "paper" && b[j].kind == "book") || (b[i].kind == b[j].kind && ByCount(b[i], b[j]))
  {
    var ps, bs := PapersOf(papers, run), BooksOf(books, run);
    PapersByCount(ps);
    BooksByCount(bs);
    OneAfterTheOther(Map(PaperGroups(ps), PaperBucket), Map(BookGroups(bs), BookBucket), i, j);
  }

  predicate FlagsAreBooleans(rows: seq<PaperAudit>, i: nat) {
    forall r :: r in rows ==> i < |r.flags| ==> r.flags[i] <= 1
  }

  lemma {:induction false} FlagTotalBound(rows: seq<PaperAudit>, i: nat)
    requires FlagsAreBooleans(rows, i)
    ensures FlagTotal(rows, i) <= |rows|
  {
    if rows != [] {
      assert rows == [rows[0]] + rows[1..];
      FlagTotalBound(rows[1..], i);
    }
  }

  /** Some paper carries this flag. */
  ghost predicate Carried(rows: seq<PaperAudit>, i: nat) {
    exists r :: r in rows && i < |r.flags| && r.flags[i] > 0
  }

  lemma {:induction false} FlagTotalCarried(rows: seq<PaperAudit>, i: nat)
    ensures FlagTotal(rows, i) > 0 <==> Carried(rows, i)
  {
    if rows != [] {
      assert rows == [rows[0]] + rows[1..];
      FlagTotalCarried(rows[1..], i);
      if i < |rows[0].flags| && rows[0].flags[i] > 0 { assert rows[0] in rows; }
      if r :| r in rows[1..] && i < |r.flags| && r.flags[i] > 0 { assert r in rows; }
    }
  }

  lemma {:induction false} OnlyColumnsCounted(rows: seq<PaperAudit>, columns: seq<string>, n: nat)
    requires n <= |columns|
    ensures forall c :: c in FlagCounts(rows, columns, n) ==> c in columns
  {
    if n > 0 {
      OnlyColumnsCounted(rows, columns, n - 1);
    }
  }

  /** With distinct column names, a column is in the map exactly when some paper carries its flag. */
  lemma {:induction false} FlagCountsMean(rows: seq<PaperAudit>, columns: seq<string>, n: nat, i: nat)
    requires i < n <= |columns| && forall a, b :: 0 <= a < b < |columns| ==> columns[a] != columns[b]
    ensures columns[i] in FlagCounts(rows, columns, n) <==> FlagTotal(rows, i) > 0
    ensures columns[i] in FlagCounts(rows, columns, n) <==> Carried(rows, i)
    ensures FlagTotal(rows, i) > 0 ==> FlagCounts(rows, columns, n)[columns[i]] == FlagTotal(rows, i)
    ensures FlagsAreBooleans(rows, i) && columns[i] in FlagCounts(rows, columns, n)
      ==> FlagCounts(rows, columns, n)[columns[i]] <= |rows|
  {
    FlagTotalCarried(rows, i);
    if FlagsAreBooleans(rows, i) { FlagTotalBound(rows, i); }
    if i < n - 1 {
      FlagCountsMean(rows, columns, n - 1, i);
    } else {
      NotYetCounted(rows, columns, n - 1, i);
    }
  }

  lemma {:induction false} NotYetCounted(rows: seq<PaperAudit>, columns: seq<string>, n: nat, i: nat)
    requires n <= i < |columns| && forall a, b :: 0 <= a < b < |columns| ==> columns[a] != columns[b]
    ensures columns[i] !in FlagCounts(rows, columns, n)
  {
    if n > 0 {
      NotYetCounted(rows, columns, n - 1, i);
    }
  }

  /** The flag figures of a rollup: the flags some paper carries, each with a count no larger than the papers. */
  ghost predicate FlagsBalance(s: Summary, columns: seq<string>, rows: seq<PaperAudit>) {
    && (forall c :: c in s.flagCounts ==> c in columns && s.flagCounts[c] > 0)
    && (forall i :: 0 <= i < |columns| ==> (columns[i] in s.flagCounts <==> Carried(rows, i)))
    && (forall i :: 0 <= i < |columns| && columns[i] in s.flagCounts && FlagsAreBooleans(rows, i) ==>
          s.flagCounts[columns[i]] <= s.nPapers)
  }

  /** Every figure of a stored rollup, taken together, balances. */
  lemma RollupBalances(columns: seq<string>, papers: seq<PaperAudit>, books: seq<BookAudit>, run: string,
                       wallClockMs: Option<int>, now: string, order: seq<string>)
    requires forall a, b :: 0 <= a < b < |columns| ==> columns[a] != columns[b]
    requires Lists(order, SummaryOf(columns, papers, books, run, wallClockMs, now).verdictCounts)
    ensures var s := SummaryOf(columns, papers, books, run, wallClockMs, now);
      && SumOver(order, s.verdictCounts) == s.nPapers
      && SumOfKind(s.buckets, "paper") == s.nPapers
      && SumOfKind(s.buckets, "book") == s.nBooks
      && s.gateFailCount <= s.nBooks
      && FlagsBalance(s, columns, PapersOf(papers, run))
  {
    VerdictsAddUp(PapersOf(papers, run), order);
    BucketsAddUp(papers, books, run);
    FlagFiguresBalance(SummaryOf(columns, papers, books, run, wallClockMs, now), columns, PapersOf(papers, run));
  }

  lemma FlagFiguresBalance(s: Summary, columns: seq<string>, rows: seq<PaperAudit>)
    requires forall a, b :: 0 <= a < b < |columns| ==> columns[a] != columns[b]
    requires s.flagCounts == FlagCounts(rows, columns, |columns|) && s.nPapers == |rows|
    ensures FlagsBalance(s, columns, rows)
  {
    OnlyColumnsCounted(rows, columns, |columns|);
    forall i | 0 <= i < |columns|
      ensures columns[i] in s.flagCounts <==> Carried(rows, i)
      ensures columns[i] in s.flagCounts ==> s.flagCounts[columns[i]] > 0
      ensures columns[i] in s.flagCounts && FlagsAreBooleans(rows, i) ==> s.flagCounts[columns[i]] <= s.nPapers
    {
      FlagCountsMean(rows, columns, |columns|, i);
      FlagTotalCarried(rows, i);
    }
  }
}
