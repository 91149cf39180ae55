/**
 Audit rows and rollups over any history of judgements, builds, closes and removals:
 who a row belongs to now, and what a stored rollup still says.
 */
module AuditHistory {
  import opened Prelude
  import opened Tables
  import opened Sorting
  import opened Grouping
  import opened RunSummary
  import opened RollupMeaning

  // ----- one row per paper -----

  /** The papers judged and not removed since. */
  function Addresses(events: seq<Event>): set<Address> {
    if events == [] then {}
    else
      var before, e := Addresses(events[..|events| - 1]), events[|events| - 1];
      match e
      case Judge(row) => before + {PaperAddress(row)}
      case Remove(intakeId) => set a | a in before && a.0 != intakeId
      case _ => before
  }

  ghost predicate RowsFor(papers: seq<PaperAudit>, addresses: set<Address>) {
    && Unique(papers, PaperAddress)
    && (forall a :: a in addresses <==> HasRow(papers, a))
  }

  predicate HasRow(papers: seq<PaperAudit>, a: Address) {
    exists i :: 0 <= i < |papers| && PaperAddress(papers[i]) == a
  }

  /** An upsert keeps the position of a known address and appends an unknown one. */
  lemma {:induction false} UpsertedIs(papers: seq<PaperAudit>, row: PaperAudit)
    ensures !HasRow(papers, PaperAddress(row)) ==> Upserted(papers, row) == papers + [row]
    ensures Unique(papers, PaperAddress) ==>
      forall i :: 0 <= i < |papers| && PaperAddress(papers[i]) == PaperAddress(row) ==>
        Upserted(papers, row) == papers[i := row]
  {
    if !HasRow(papers, PaperAddress(row)) {
      UpsertedAt(papers, row, |papers|);
    }
    forall i | 0 <= i < |papers| && PaperAddress(papers[i]) == PaperAddress(row) && Unique(papers, PaperAddress)
      ensures Upserted(papers, row) == papers[i := row]
    {
      UpsertedAt(papers, row, i);
    }
  }

  lemma UpsertRows(papers: seq<PaperAudit>, row: PaperAudit, addresses: set<Address>)
    requires RowsFor(papers, addresses)
    ensures RowsFor(Upserted(papers, row), addresses + {PaperAddress(row)})
  {
    UpsertedIs(papers, row);
    var after := Upserted(papers, row);
    if !HasRow(papers, PaperAddress(row)) {
      forall i, j | 0 <= i < j < |after| ensures PaperAddress(after[i]) != PaperAddress(after[j]) {
        assert after[i] == papers[i];
      }
      assert after[|papers|] == row;
      forall a ensures HasRow(after, a) <==> HasRow(papers, a) || a == PaperAddress(row) {
        if i :| 0 <= i < |papers| && PaperAddress(papers[i]) == a { assert after[i] == papers[i]; }
      }
    } else {
      var k :| 0 <= k < |papers| && PaperAddress(papers[k]) == PaperAddress(row);
      assert after == papers[k := row];
      forall a ensures HasRow(after, a) <==> HasRow(papers, a) {
        if i :| 0 <= i < |papers| && PaperAddress(papers[i]) == a { assert PaperAddress(after[i]) == a; }
        if i :| 0 <= i < |after| && PaperAddress(after[i]) == a { assert PaperAddress(papers[i]) == a; }
      }
    }
  }

  lemma RemoveRows(papers: seq<PaperAudit>, intakeId: int, addresses: set<Address>)
    requires RowsFor(papers, addresses)
    ensures RowsFor(WithoutIntake(papers, intakeId), set a | a in addresses && a.0 != intakeId)
  {
    WithoutIntakeKeepsRows(papers, intakeId);
    var after := WithoutIntake(papers, intakeId);
    forall a ensures HasRow(after, a) <==> HasRow(papers, a) && a.0 != intakeId {
      if i :| 0 <= i < |papers| && PaperAddress(papers[i]) == a && a.0 != intakeId {
        assert papers[i] in after;
        var k :| 0 <= k < |after| && after[k] == papers[i];
      }
      if k :| 0 <= k < |after| && PaperAddress(after[k]) == a {
        assert after[k] in papers;
        var i :| 0 <= i < |papers| && papers[i] == after[k];
      }
    }
  }

  lemma {:induction false} OneRowPerPaper(columns: seq<string>, events: seq<Event>)
    ensures RowsFor(Run(columns, Empty, events).papers, Addresses(events))
    decreases |events|
  {
    if events != [] {
      var before, e := events[..|events| - 1], events[|events| - 1];
      OneRowPerPaper(columns, before);
      if e.Judge? {
        UpsertRows(Run(columns, Empty, before).papers, e.paper, Addresses(before));
      } else if e.Remove? {
        RemoveRows(Run(columns, Empty, before).papers, e.intakeId, Addresses(before));
      }
    }
  }

  lemma {:induction false} RowsAreAddresses(papers: seq<PaperAudit>, addresses: set<Address>)
    requires RowsFor(papers, addresses)
    ensures |papers| == |addresses|
    decreases |papers|
  {
    if papers == [] {
      assert addresses == {};
    } else {
      var last := PaperAddress(papers[|papers| - 1]);
      var before := papers[..|papers| - 1];
      assert HasRow(papers, last);
      forall a ensures a in addresses - {last} <==> HasRow(before, a) {
        if i :| 0 <= i < |before| && PaperAddress(before[i]) == a { assert papers[i] == before[i]; }
        if a in addresses && a != last {
          var i :| 0 <= i < |papers| && PaperAddress(papers[i]) == a;
          assert before[i] == papers[i];
        }
      }
      RowsAreAddresses(before, addresses - {last});
    }
  }

  // ----- no such promise for books -----

  function SlugOf(r: BookAudit): string { r.slug }

  ghost predicate BuiltOnce(events: seq<Event>) {
    forall i, j :: 0 <= i < j < |events| && events[i].Build? && events[j].Build? ==>
      events[i].book.slug != events[j].book.slug
  }

  ghost predicate HasBook(books: seq<BookAudit>, slug: string) { exists i :: 0 <= i < |books| && books[i].slug == slug }

  ghost predicate HasBuild(events: seq<Event>, slug: string) {
    exists i :: 0 <= i < |events| && events[i].Build? && events[i].book.slug == slug
  }

  lemma OneMoreBook(books: seq<BookAudit>, row: BookAudit, slug: string)
    ensures HasBook(books + [row], slug) <==> HasBook(books, slug) || row.slug == slug
    ensures Unique(books + [row], SlugOf) <==> Unique(books, SlugOf) && !HasBook(books, row.slug)
  {
    var more := books + [row];
    assert more[|books|] == row && forall i :: 0 <= i < |books| ==> more[i] == books[i];
    if i :| 0 <= i < |books| && books[i].slug == slug { assert more[i].slug == slug; }
    if i :| 0 <= i < |books| && books[i].slug == row.slug { assert SlugOf(more[i]) == SlugOf(more[|books|]); }
    if Unique(more, SlugOf) {
      forall i, j | 0 <= i < j < |books| ensures SlugOf(books[i]) != SlugOf(books[j]) {
        assert SlugOf(more[i]) != SlugOf(more[j]);
      }
    }
  }

  lemma OneMoreBuild(before: seq<Event>, e: Event, slug: string)
    ensures HasBuild(before + [e], slug) <==> HasBuild(before, slug) || (e.Build? && e.book.slug == slug)
    ensures BuiltOnce(before + [e]) <==> BuiltOnce(before) && (e.Build? ==> !HasBuild(before, e.book.slug))
  {
    var more := before + [e];
    assert more[|before|] == e && forall i :: 0 <= i < |before| ==> more[i] == before[i];
    if i :| 0 <= i < |before| && before[i].Build? && before[i].book.slug == slug { assert more[i].Build?; }
    if e.Build? && HasBuild(before, e.book.slug) {
      var i :| 0 <= i < |before| && before[i].Build? && before[i].book.slug == e.book.slug;
      assert more[i].Build? && more[|before|].Build?;
    }
    if BuiltOnce(more) {
      forall i, j | 0 <= i < j < |before| && before[i].Build? && before[j].Build?
        ensures before[i].book.slug != before[j].book.slug
      {
        assert more[i].Build? && more[j].Build?;
      }
    }
  }

  lemma {:induction false} BooksAreBuilt(columns: seq<string>, events: seq<Event>, slug: string)
    ensures HasBook(Run(columns, Empty, events).books, slug) <==> HasBuild(events, slug)
    decreases |events|
  {
    if events != [] {
      var before, e := events[..|events| - 1], events[|events| - 1];
      BooksAreBuilt(columns, before, slug);
      assert before + [e] == events;
      OneMoreBuild(before, e, slug);
      if e.Build? {
        OneMoreBook(Run(columns, Empty, before).books, e.book, slug);
      }
    }
  }

  /** Over all histories: no two book rows share a slug exactly when no slug was built twice. */
  lemma {:induction false} OneRowPerBookIffBuiltOnce(columns: seq<string>, events: seq<Event>)
    ensures Unique(Run(columns, Empty, events).books, SlugOf) <==> BuiltOnce(events)
    decreases |events|
  {
    if events != [] {
      var before, e := events[..|events| - 1], events[|events| - 1];
      OneRowPerBookIffBuiltOnce(columns, before);
      assert before + [e] == events;
      OneMoreBuild(before, e, "");
      if e.Build? {
        OneMoreBook(Run(columns, Empty, before).books, e.book, "");
        BooksAreBuilt(columns, before, e.book.slug);
      }
    }
  }

  /** Building one book twice leaves two rows for it, whatever the builds report. */
  lemma TwoBuildsLeaveTwoRows(columns: seq<string>, first: AllowedBuild, second: AllowedBuild)
    requires first.slug == second.slug
    ensures var books := Run(columns, Empty, [Build(first), Build(second)]).books;
      books == [first, second] && !Unique(books, SlugOf)
  {
    var events := [Build(first), Build(second)];
    assert events[..1] == [Build(first)];
    assert Run(columns, Empty, [Build(first)]).books == [first];
    var books := Run(columns, Empty, events).books;
    assert books == [first, second];
    assert SlugOf(books[0]) == SlugOf(books[1]);
  }

  // ----- attribution -----

  function PapersLive(papers: seq<PaperAudit>, run: Option<string>): nat {
    CountOf(Map(papers, RunOf), run)
  }

  function BooksLive(books: seq<BookAudit>, run: Option<string>): nat {
    CountOf(Map(books, BookRunOf), run)
  }

  lemma {:induction false} LiveIsCounted(papers: seq<PaperAudit>, run: string)
    ensures |PapersOf(papers, run)| == PapersLive(papers, Some(run))
  {
    if papers != [] {
      LiveIsCounted(papers[1..], run);
      assert Map(papers, RunOf)[1..] == Map(papers[1..], RunOf);
    }
  }

  lemma {:induction false} LiveBooksAreCounted(books: seq<BookAudit>, run: string)
    ensures |BooksOf(books, run)| == BooksLive(books, Some(run))
  {
    if books != [] {
      LiveBooksAreCounted(books[1..], run);
      assert Map(books, BookRunOf)[1..] == Map(books[1..], BookRunOf);
    }
  }

  function Attribution(keys: seq<Option<string>>, runs: seq<Option<string>>): (groups: seq<Group<Option<string>>>)
    ensures |groups| == |runs| && forall i :: 0 <= i < |runs| ==> groups[i] == Group(runs[i], CountOf(keys, runs[i]))
  {
    seq(|runs|, i requires 0 <= i < |runs| => Group(runs[i], CountOf(keys, runs[i])))
  }

  /** `runs` names every run a row points to, and `None`, each once; idle runs may be listed too. */
  ghost predicate Covers(runs: seq<Option<string>>, keys: seq<Option<string>>) {
    && (forall i, j :: 0 <= i < j < |runs| ==> runs[i] != runs[j])
    && (forall k :: k in keys ==> k in runs)
  }

  lemma AttributionTallies(keys: seq<Option<string>>, runs: seq<Option<string>>)
    requires Covers(runs, keys)
    ensures Total(Attribution(keys, runs)) == |keys|
  {
    var groups := Attribution(keys, runs);
    forall g ensures multiset(groups)[g] <= 1 {
      NoRepeats(groups, g);
    }
    forall k | k in keys ensures Group(k, CountOf(keys, k)) in groups {
      var i :| 0 <= i < |runs| && runs[i] == k;
      assert groups[i] == Group(k, CountOf(keys, k));
    }
    TallyConserves(groups, keys);
  }

  /**
   After any history, the live counts over all runs and over no run add up to
   the rows, and there is one paper row for each paper ever judged.
   */
  lemma LiveCountsAddUp(columns: seq<string>, events: seq<Event>, runs: seq<Option<string>>)
    requires var s := Run(columns, Empty, events);
      Covers(runs, Map(s.papers, RunOf)) && Covers(runs, Map(s.books, BookRunOf))
    ensures var s := Run(columns, Empty, events);
      && Total(Attribution(Map(s.papers, RunOf), runs)) == |s.papers| == |Addresses(events)|
      && Total(Attribution(Map(s.books, BookRunOf), runs)) == |s.books|
  {
    var s := Run(columns, Empty, events);
    AttributionTallies(Map(s.papers, RunOf), runs);
    AttributionTallies(Map(s.books, BookRunOf), runs);
    OneRowPerPaper(columns, events);
    RowsAreAddresses(s.papers, Addresses(events));
  }

  lemma {:induction false} CountAfterUpdate<K>(keys: seq<K>, i: nat, now: K, k: K)
    requires i < |keys|
    ensures CountOf(keys[i := now], k) + (if keys[i] == k then 1 else 0)
         == CountOf(keys, k) + (if now == k then 1 else 0)
  {
    if i > 0 {
      assert keys[i := now][1..] == keys[1..][i - 1 := now];
      CountAfterUpdate(keys[1..], i - 1, now, k);
    } else {
      assert keys[0 := now][1..] == keys[1..];
    }
  }

  lemma {:induction false} CountAfterAppend<K>(keys: seq<K>, now: K, k: K)
    ensures CountOf(keys + [now], k) == CountOf(keys, k) + (if now == k then 1 else 0)
  {
    if keys == [] {
      assert keys + [now] == [now];
    } else {
      assert (keys + [now])[1..] == keys[1..] + [now];
      CountAfterAppend(keys[1..], now, k);
    }
  }

  /**
   A judgement moves exactly one unit: out of the group its old row was in, if
   it had one, and into the group of the new one. `f` is any grouping at all.
   */
  lemma JudgementMovesOneUnit<K>(papers: seq<PaperAudit>, row: PaperAudit, f: PaperAudit -> K, k: K)
    requires Unique(papers, PaperAddress)
    ensures var was := Lookup(papers, PaperAddress, PaperAddress(row));
      CountOf(Map(Upserted(papers, row), f), k) + (if was.Some? && f(was.value) == k then 1 else 0)
      == CountOf(Map(papers, f), k) + (if f(row) == k then 1 else 0)
  {
    UpsertedIs(papers, row);
    var was := Lookup(papers, PaperAddress, PaperAddress(row));
    if was.Some? {
      var i :| 0 <= i < |papers| && papers[i] == was.value;
      assert Map(papers[i := row], f) == Map(papers, f)[i := f(row)];
      CountAfterUpdate(Map(papers, f), i, f(row), k);
    } else {
      assert forall i :: 0 <= i < |papers| ==> papers[i] in papers;
      assert Map(papers + [row], f) == Map(papers, f) + [f(row)];
      CountAfterAppend(Map(papers, f), f(row), k);
    }
  }

  lemma {:induction false} SumAppend(xs: seq<int>, x: int)
    ensures Sum(xs + [x]) == Sum(xs) + x
  {
    if xs == [] {
      assert xs + [x] == [x] && [x][1..] == [];
    } else {
      SplitFirst(xs, [x]);
      SumAppend(xs[1..], x);
    }
  }

  lemma {:induction false} GateFailsAppend(rows: seq<BookAudit>, row: BookAudit)
    ensures GateFails(rows + [row]) == GateFails(rows) + if row.gateStatus == "fail" then 1 else 0
  {
    if rows == [] {
      assert rows + [row] == [row] && [row][1..] == [];
    } else {
      SplitFirst(rows, [row]);
      GateFailsAppend(rows[1..], row);
    }
  }

  /** One more build of a run adds its own figures to each total of that run's rollup, and to no other run's. */
  lemma BuildAddsItsFigures(columns: seq<string>, s: Audits, row: AllowedBuild, run: string,
                            wallClockMs: Option<int>, now: string)
    ensures var t := Apply(columns, s, Build(row));
      var before, after := SummaryOf(columns, s.papers, s.books, run, wallClockMs, now),
        SummaryOf(columns, t.papers, t.books, run, wallClockMs, now);
      var own := row.run == Some(run);
      && after.nBooks == before.nBooks + (if own then 1 else 0)
      && after.pairMismatchTotal == before.pairMismatchTotal + (if own then row.pairMismatch else 0)
      && after.unmatchedLinesTotal == before.unmatchedLinesTotal + (if own then row.unmatchedLines else 0)
      && after.pagesTotal == before.pagesTotal + (if own then row.pages else 0)
      && after.gateFailCount == before.gateFailCount + (if own && row.gateStatus == "fail" then 1 else 0)
      && after.nPapers == before.nPapers && after.verdictCounts == before.verdictCounts
      && after.flagCounts == before.flagCounts
  {
    BooksOfAppend(s.books, row, run);
    var bs := BooksOf(s.books, run);
    if row.run == Some(run) {
      FigureAppend(bs, row, PairMismatchOf);
      FigureAppend(bs, row, UnmatchedLinesOf);
      FigureAppend(bs, row, PagesOf);
      GateFailsAppend(bs, row);
    } else {
      assert bs + [] == bs;
    }
  }

  lemma FigureAppend(bs: seq<BookAudit>, row: BookAudit, f: BookAudit -> int)
    ensures Sum(Map(bs + [row], f)) == Sum(Map(bs, f)) + f(row)
  {
    SumAppend(Map(bs, f), f(row));
    assert Map(bs + [row], f) == Map(bs, f) + [f(row)];
  }

  // ----- the stored rollup -----

  predicate NoCloseOf(events: seq<Event>, run: string) {
    forall i :: 0 <= i < |events| && events[i].Close? ==> events[i].run != run
  }

  /** Papers `run` gained, or lost, over a history that starts at `s`. */
  function Gained(columns: seq<string>, s: Audits, events: seq<Event>, run: string): nat {
    if events == [] then 0
    else
      var before, e := events[..|events| - 1], events[|events| - 1];
      Gained(columns, s, before, run) + if e.Judge? && e.paper.run == Some(run) then 1 else 0
  }

  function Lost(columns: seq<string>, s: Audits, events: seq<Event>, run: string): nat {
    if events == [] then 0
    else
      var before, e := events[..|events| - 1], events[|events| - 1];
      Lost(columns, s, before, run) +
      match e
      case Judge(row) => if RunBefore(Run(columns, s, before), row) == Some(run) then 1 else 0
      case Remove(intakeId) => |PapersOf(OfIntake(Run(columns, s, before).papers, intakeId), run)|
      case _ => 0
  }

  function OfIntake(papers: seq<PaperAudit>, intakeId: int): seq<PaperAudit> {
    if papers == [] then []
    else (if papers[0].intakeId == intakeId then [papers[0]] else []) + OfIntake(papers[1..], intakeId)
  }

  /** The run that judged this paper last, if it was judged in a run. */
  function RunBefore(s: Audits, row: PaperAudit): Option<string> {
    var was := Lookup(s.papers, PaperAddress, PaperAddress(row));
    if was.Some? then was.value.run else None
  }

  function BooksBuilt(events: seq<Event>, run: string): nat {
    if events == [] then 0
    else
      var e := events[|events| - 1];
      BooksBuilt(events[..|events| - 1], run) + if e.Build? && e.book.run == Some(run) then 1 else 0
  }

  lemma {:induction false} PapersStayUnique(columns: seq<string>, s: Audits, events: seq<Event>)
    requires Unique(s.papers, PaperAddress)
    ensures Unique(Run(columns, s, events).papers, PaperAddress)
    decreases |events|
  {
    if events != [] {
      var before, e := events[..|events| - 1], events[|events| - 1];
      PapersStayUnique(columns, s, before);
      var papers := Run(columns, s, before).papers;
      var addresses := set i | 0 <= i < |papers| :: PaperAddress(papers[i]);
      if e.Judge? {
        assert RowsFor(papers, addresses);
        UpsertRows(papers, e.paper, addresses);
      } else if e.Remove? {
        WithoutIntakeKeepsRows(papers, e.intakeId);
      }
    }
  }

  lemma {:induction false} SnapshotStands(columns: seq<string>, s: Audits, events: seq<Event>, run: string)
    requires run in s.summaries && NoCloseOf(events, run)
    ensures run in Run(columns, s, events).summaries
    ensures Run(columns, s, events).summaries[run] == s.summaries[run]
    decreases |events|
  {
    if events != [] {
      var before := events[..|events| - 1];
      assert forall i :: 0 <= i < |before| ==> before[i] == events[i];
      SnapshotStands(columns, s, before, run);
    }
  }

  /** A removal takes from each run the papers of that item, and no others. */
  lemma {:induction false} RemovalTakesItsOwn(papers: seq<PaperAudit>, intakeId: int, run: string)
    ensures PapersLive(WithoutIntake(papers, intakeId), Some(run)) + |PapersOf(OfIntake(papers, intakeId), run)|
         == PapersLive(papers, Some(run))
  {
    if papers != [] {
      RemovalTakesItsOwn(papers[1..], intakeId, run);
      FirstIsCounted(papers, run);
      var rest := WithoutIntake(papers[1..], intakeId);
      var its := OfIntake(papers[1..], intakeId);
      if papers[0].intakeId == intakeId {
        assert WithoutIntake(papers, intakeId) == rest;
        assert OfIntake(papers, intakeId)[1..] == its;
      } else {
        FirstIsCounted([papers[0]] + rest, run);
        assert OfIntake(papers, intakeId) == its;
      }
    }
  }

  lemma FirstIsCounted(papers: seq<PaperAudit>, run: string)
    requires papers != []
    ensures PapersLive(papers, Some(run))
         == PapersLive(papers[1..], Some(run)) + if papers[0].run == Some(run) then 1 else 0
  {
    assert Map(papers, RunOf)[1..] == Map(papers[1..], RunOf);
  }

  lemma {:induction false} PapersDrift(columns: seq<string>, s: Audits, events: seq<Event>, run: string)
    requires Unique(s.papers, PaperAddress)
    ensures PapersLive(Run(columns, s, events).papers, Some(run)) + Lost(columns, s, events, run)
      == PapersLive(s.papers, Some(run)) + Gained(columns, s, events, run)
    decreases |events|
  {
    if events != [] {
      var before, e := events[..|events| - 1], events[|events| - 1];
      PapersDrift(columns, s, before, run);
      if e.Judge? {
        PapersStayUnique(columns, s, before);
        JudgementMovesOneUnit(Run(columns, s, before).papers, e.paper, RunOf, Some(run));
      } else if e.Remove? {
        RemovalTakesItsOwn(Run(columns, s, before).papers, e.intakeId, run);
      }
    }
  }

  lemma {:induction false} BooksDrift(columns: seq<string>, s: Audits, events: seq<Event>, run: string)
    ensures BooksLive(Run(columns, s, events).books, Some(run)) ==
      BooksLive(s.books, Some(run)) + BooksBuilt(events, run)
    decreases |events|
  {
    if events != [] {
      var before, e := events[..|events| - 1], events[|events| - 1];
      BooksDrift(columns, s, before, run);
      if e.Build? {
        var books := Run(columns, s, before).books;
        assert Map(books + [e.book], BookRunOf) == Map(books, BookRunOf) + [e.book.run];
        CountAfterAppend(Map(books, BookRunOf), e.book.run, Some(run));
      }
    }
  }

  /**
   From the close of a run on, whatever is judged, built or closed elsewhere:
   the stored rollup is the one taken at the close, and the live counts differ
   from it by exactly the papers gained less those lost, and the books built.
   */
  lemma SnapshotStandsLiveDrifts(columns: seq<string>, s: Audits, events: seq<Event>, run: string)
    requires Unique(s.papers, PaperAddress) && run in s.summaries && NoCloseOf(events, run)
    requires s.summaries[run].nPapers == PapersLive(s.papers, Some(run))
    requires s.summaries[run].nBooks == BooksLive(s.books, Some(run))
    ensures var t := Run(columns, s, events);
      && run in t.summaries && t.summaries[run] == s.summaries[run]
      && PapersLive(t.papers, Some(run)) + Lost(columns, s, events, run)
         == t.summaries[run].nPapers + Gained(columns, s, events, run)
      && BooksLive(t.books, Some(run)) == t.summaries[run].nBooks + BooksBuilt(events, run)
  {
    SnapshotStands(columns, s, events, run);
    PapersDrift(columns, s, events, run);
    BooksDrift(columns, s, events, run);
  }

  /** The close itself establishes what the drift is measured from. */
  lemma CloseTakesTheSnapshot(columns: seq<string>, s: Audits, run: string, wallClockMs: Option<int>, now: string)
    ensures var t := Apply(columns, s, Close(run, wallClockMs, now));
      && t.papers == s.papers && t.books == s.books
      && run in t.summaries
      && t.summaries[run].nPapers == PapersLive(s.papers, Some(run))
      && t.summaries[run].nBooks == BooksLive(s.books, Some(run))
      && (forall other :: other in s.summaries && other != run ==>
        other in t.summaries && t.summaries[other] == s.summaries[other])
  {
    LiveIsCounted(s.papers, run);
    LiveBooksAreCounted(s.books, run);
  }
}
