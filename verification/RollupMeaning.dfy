/** What the figures of a rollup count, on the tables and without the queries. */
module RollupMeaning {
  import opened Prelude
  import opened Sorting
  import opened Grouping
  import opened RunSummary

  // ----- the figures, counted on the tables -----

  /** The places of a run's papers that have a property, and of its books. */
  function PaperPlaces(papers: seq<PaperAudit>, run: string, p: PaperAudit -> bool): set<int> {
    set i | 0 <= i < |papers| && papers[i].run == Some(run) && p(papers[i])
  }

  function BookPlaces(books: seq<BookAudit>, run: string, p: BookAudit -> bool): set<int> {
    set i | 0 <= i < |books| && books[i].run == Some(run) && p(books[i])
  }

  lemma OnePaperPlaced(papers: seq<PaperAudit>, last: PaperAudit, run: string, p: PaperAudit -> bool)
    ensures |PaperPlaces(papers + [last], run, p)|
         == |PaperPlaces(papers, run, p)| + if last.run == Some(run) && p(last) then 1 else 0
  {
    var n, before := |papers|, PaperPlaces(papers, run, p);
    assert PaperPlaces(papers + [last], run, p) == if last.run == Some(run) && p(last) then before + {n} else before;
  }

  lemma OnePaperCounted(papers: seq<PaperAudit>, last: PaperAudit, run: string, p: PaperAudit -> bool)
    ensures Counted(PapersOf(papers + [last], run), p)
         == Counted(PapersOf(papers, run), p) + if last.run == Some(run) && p(last) then 1 else 0
  {
    PapersOfSnoc(papers, last, run);
    if last.run == Some(run) {
      CountedSnoc(PapersOf(papers, run), last, p);
    } else {
      assert PapersOf(papers, run) + [] == PapersOf(papers, run);
    }
  }

  lemma {:induction false} PapersCounted(papers: seq<PaperAudit>, run: string, p: PaperAudit -> bool)
    ensures Counted(PapersOf(papers, run), p) == |PaperPlaces(papers, run, p)|
    decreases |papers|
  {
    if papers == [] {
      assert PaperPlaces(papers, run, p) == {};
    } else {
      var n := |papers| - 1;
      PapersCounted(papers[..n], run, p);
      assert papers == papers[..n] + [papers[n]];
      OnePaperPlaced(papers[..n], papers[n], run, p);
      OnePaperCounted(papers[..n], papers[n], run, p);
    }
  }

  lemma {:induction false} PapersOfSnoc(papers: seq<PaperAudit>, last: PaperAudit, run: string)
    ensures PapersOf(papers + [last], run) == PapersOf(papers, run) + if last.run == Some(run) then [last] else []
  {
    if papers == [] {
      assert papers + [last] == [last] && [last][1..] == [];
    } else {
      SplitFirst(papers, [last]);
      PapersOfSnoc(papers[1..], last, run);
      Associate(if papers[0].run == Some(run) then [papers[0]] else [], PapersOf(papers[1..], run),
        if last.run == Some(run) then [last] else []);
    }
  }

  lemma OneBookPlaced(books: seq<BookAudit>, last: BookAudit, run: string, p: BookAudit -> bool)
    ensures |BookPlaces(books + [last], run, p)|
         == |BookPlaces(books, run, p)| + if last.run == Some(run) && p(last) then 1 else 0
  {
    var n, before := |books|, BookPlaces(books, run, p);
    assert BookPlaces(books + [last], run, p) == if last.run == Some(run) && p(last) then before + {n} else before;
  }

  lemma OneBookCounted(books: seq<BookAudit>, last: BookAudit, run: string, p: BookAudit -> bool)
    ensures Counted(BooksOf(books + [last], run), p)
         == Counted(BooksOf(books, run), p) + if last.run == Some(run) && p(last) then 1 else 0
  {
    BooksOfAppend(books, last, run);
    if last.run == Some(run) {
      CountedSnoc(BooksOf(books, run), last, p);
    } else {
      assert BooksOf(books, run) + [] == BooksOf(books, run);
    }
  }

  lemma {:induction false} BooksCounted(books: seq<BookAudit>, run: string, p: BookAudit -> bool)
    ensures Counted(BooksOf(books, run), p) == |BookPlaces(books, run, p)|
    decreases |books|
  {
    if books == [] {
      assert BookPlaces(books, run, p) == {};
    } else {
      var n := |books| - 1;
      BooksCounted(books[..n], run, p);
      assert books == books[..n] + [books[n]];
      OneBookPlaced(books[..n], books[n], run, p);
      OneBookCounted(books[..n], books[n], run, p);
    }
  }

  lemma {:induction false} BooksOfAppend(books: seq<BookAudit>, row: BookAudit, run: string)
    ensures BooksOf(books + [row], run) == BooksOf(books, run) + if row.run == Some(run) then [row] else []
  {
    if books == [] {
      assert books + [row] == [row] && [row][1..] == [];
    } else {
      SplitFirst(books, [row]);
      BooksOfAppend(books[1..], row, run);
      Associate(if books[0].run == Some(run) then [books[0]] else [], BooksOf(books[1..], run),
        if row.run == Some(run) then [row] else []);
    }
  }

  /** A group's count is the rows with its key. */
  lemma {:induction false} KeysCounted<R, K>(rows: seq<R>, f: R -> K, k: K, p: R -> bool)
    requires forall r :: r in rows ==> (p(r) <==> f(r) == k)
    ensures CountOf(Map(rows, f), k) == Counted(rows, p)
  {
    if rows != [] {
      assert rows[0] in rows && forall r :: r in rows[1..] ==> r in rows;
      MapSplits(rows, f);
      KeysCounted(rows[1..], f, k, p);
    }
  }

  lemma {:induction false} AllCounted<R>(rows: seq<R>, p: R -> bool)
    requires forall r :: r in rows ==> p(r)
    ensures Counted(rows, p) == |rows|
  {
    if rows != [] {
      assert rows[0] in rows && forall r :: r in rows[1..] ==> r in rows;
      AllCounted(rows[1..], p);
    }
  }

  // ----- the properties counted -----

  function AnyPaper(): PaperAudit -> bool { (r: PaperAudit) => true }

  function WithVerdict(v: string): PaperAudit -> bool { (r: PaperAudit) => r.verdict == v }

  function WithFlag(i: nat): PaperAudit -> bool { (r: PaperAudit) => i < |r.flags| && r.flags[i] == 1 }

  function WithProfile(fingerprint: Option<string>, name: Option<string>): PaperAudit -> bool {
    (r: PaperAudit) => r.fingerprint == fingerprint && Some(r.profileName) == name
  }

  function AnyBook(): BookAudit -> bool { (r: BookAudit) => true }

  function Failed(): BookAudit -> bool { (r: BookAudit) => r.gateStatus == "fail" }

  /** An empty reference stands for none. */
  function BuiltWith(fingerprint: Option<string>): BookAudit -> bool {
    (r: BookAudit) => if r.profileRef == "" then fingerprint == None else fingerprint == Some(r.profileRef)
  }

  lemma {:induction false} GateFailsCounted(rows: seq<BookAudit>)
    ensures GateFails(rows) == Counted(rows, Failed())
  {
    if rows != [] {
      GateFailsCounted(rows[1..]);
    }
  }

  lemma {:induction false} FlagsCounted(rows: seq<PaperAudit>, i: nat)
    requires FlagsAreBooleans(rows, i)
    ensures FlagTotal(rows, i) == Counted(rows, WithFlag(i))
  {
    if rows != [] {
      assert rows[0] in rows && forall r :: r in rows[1..] ==> r in rows;
      FlagsCounted(rows[1..], i);
    }
  }

  /** The papers, books and failed gates of a rollup are the run's rows, counted on the tables. */
  lemma RowsAreCounted(columns: seq<string>, papers: seq<PaperAudit>, books: seq<BookAudit>, run: string,
                       wallClockMs: Option<int>, now: string)
    ensures var s := SummaryOf(columns, papers, books, run, wallClockMs, now);
      && s.nPapers == |PaperPlaces(papers, run, AnyPaper())|
      && s.nBooks == |BookPlaces(books, run, AnyBook())|
      && s.gateFailCount == |BookPlaces(books, run, Failed())|
      && s.wallClockMs == wallClockMs && s.computedAt == now
  {
    AllCounted(PapersOf(papers, run), AnyPaper());
    PapersCounted(papers, run, AnyPaper());
    AllCounted(BooksOf(books, run), AnyBook());
    BooksCounted(books, run, AnyBook());
    GateFailsCounted(BooksOf(books, run));
    BooksCounted(books, run, Failed());
  }

  /** A verdict's count is the run's papers with that verdict; a verdict not listed has none. */
  lemma VerdictsAreCounted(papers: seq<PaperAudit>, run: string, v: string)
    ensures var counts, places := VerdictCounts(PapersOf(papers, run)), PaperPlaces(papers, run, WithVerdict(v));
      |places| == if v in counts then counts[v] else 0
  {
    var rows := PapersOf(papers, run);
    KeysCounted(rows, VerdictOf, v, WithVerdict(v));
    PapersCounted(papers, run, WithVerdict(v));
  }

  /** A flag's count, if the flags are 0 and 1, is the run's papers that carry it. */
  lemma FlagsAreCounted(papers: seq<PaperAudit>, run: string, columns: seq<string>, i: nat)
    requires i < |columns| && forall a, b :: 0 <= a < b < |columns| ==> columns[a] != columns[b]
    requires FlagsAreBooleans(PapersOf(papers, run), i)
    ensures var counts := FlagCounts(PapersOf(papers, run), columns, |columns|);
      |PaperPlaces(papers, run, WithFlag(i))| == if columns[i] in counts then counts[columns[i]] else 0
  {
    var rows := PapersOf(papers, run);
    FlagCountsMean(rows, columns, |columns|, i);
    FlagsCounted(rows, i);
    PapersCounted(papers, run, WithFlag(i));
  }

  /** A bucket counts the run's rows of its kind and profile: papers by fingerprint and name, books by fingerprint. */
  lemma BucketsAreCounted(papers: seq<PaperAudit>, books: seq<BookAudit>, run: string, b: Bucket)
    requires b in Buckets(papers, books, run)
    ensures b.kind == "paper" || b.kind == "book"
    ensures b.kind == "paper" ==>
      b.profileName.Some? && b.n == |PaperPlaces(papers, run, WithProfile(b.fingerprint, b.profileName))|
    ensures b.kind == "book" ==>
      b.profileName == None && b.n == |BookPlaces(books, run, BuiltWith(b.fingerprint))|
  {
    var groups := PaperGroups(PapersOf(papers, run));
    var a := Map(groups, PaperBucket);
    if b in a {
      var i :| 0 <= i < |a| && a[i] == b;
      PaperGroupCounted(papers, run, groups[i]);
    } else {
      var bookGroups := BookGroups(BooksOf(books, run));
      var c := Map(bookGroups, BookBucket);
      var i :| 0 <= i < |c| && c[i] == b;
      BookGroupCounted(books, run, bookGroups[i]);
    }
  }

  lemma PaperGroupCounted(papers: seq<PaperAudit>, run: string, g: Group<(Option<string>, string)>)
    requires g in PaperGroups(PapersOf(papers, run))
    ensures g.n == |PaperPlaces(papers, run, WithProfile(g.key.0, Some(g.key.1)))|
  {
    var rows, p := PapersOf(papers, run), WithProfile(g.key.0, Some(g.key.1));
    GroupByTallies(Map(rows, ProfileOf));
    SortedTally(GroupBy(Map(rows, ProfileOf)), Map(rows, ProfileOf), PaperOrder);
    KeysCounted(rows, ProfileOf, g.key, p);
    PapersCounted(papers, run, p);
  }

  lemma BookGroupCounted(books: seq<BookAudit>, run: string, g: Group<Option<string>>)
    requires g in BookGroups(BooksOf(books, run))
    ensures g.n == |BookPlaces(books, run, BuiltWith(g.key))|
  {
    var rows := BooksOf(books, run);
    GroupByTallies(Map(rows, BookProfileOf));
    SortedTally(GroupBy(Map(rows, BookProfileOf)), Map(rows, BookProfileOf), BookOrder);
    KeysCounted(rows, BookProfileOf, g.key, BuiltWith(g.key));
    BooksCounted(books, run, BuiltWith(g.key));
  }

  /** A run nothing was judged or built in has empty totals. */
  lemma EmptyRollup(columns: seq<string>, papers: seq<PaperAudit>, books: seq<BookAudit>, run: string,
                    wallClockMs: Option<int>, now: string)
    requires forall r :: r in books ==> r.run != Some(run)
    ensures var s := SummaryOf(columns, papers, books, run, wallClockMs, now);
      s.nBooks == 0 && s.pairMismatchTotal == 0 && s.unmatchedLinesTotal == 0 && s.pagesTotal == 0
  {
    NoBooksOf(books, run);
  }

  lemma {:induction false} NoBooksOf(books: seq<BookAudit>, run: string)
    requires forall r :: r in books ==> r.run != Some(run)
    ensures BooksOf(books, run) == []
  {
    if books != [] {
      assert books[0] in books && forall r :: r in books[1..] ==> r in books;
      NoBooksOf(books[1..], run);
    }
  }
}
