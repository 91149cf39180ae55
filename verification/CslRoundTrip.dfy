/** What survives the way through the catalog and back. */
module CslRoundTrip {
  import opened Prelude
  import opened Tables
  import opened Decimal
  import opened Text
  import opened Sorting
  import opened Csl

  // ----- the normal form of an item -----

  /** `note` is a carrier for the arXiv id and nothing else. */
  function NormalNote(note: Option<string>): Option<string> {
    if note.Some? && ArxivFromNote(note.value).Some? then Some("arXiv: " + ArxivFromNote(note.value).value) else None
  }

  predicate NonNegative(parts: seq<i32>) { forall i :: 0 <= i < |parts| ==> parts[i] >= 0 }

  /** A full non-negative date survives; of any other structured date, the year; of raw text, four leading digits. */
  function NormalIssued(issued: Option<CslDate>): Option<CslDate> {
    match issued
    case None => None
    case Some(date) =>
      if date.dateParts.Some? && date.dateParts.value != [] then
        var parts := date.dateParts.value[0];
        if parts == [] then None
        else if |parts| == 3 && NonNegative(parts) then Some(DateOf(parts))
        else Some(DateOf([parts[0]]))
      else if date.raw.Some? && |date.raw.value| >= 4 && AllDigits(date.raw.value[..4]) then
        YearOfDigits(date.raw.value[..4]);
        Some(DateOf([Value(date.raw.value[..4])]))
      else None
  }

  /** Structured, or literal, never both and never neither. */
  function NormalName(n: CslName): CslName {
    n.(literal := if n.family.Some? || n.given.Some? then None
                  else Some(if n.literal.Some? then n.literal.value else ""))
  }

  function NormalNames(names: seq<CslName>): (r: seq<CslName>)
    ensures |r| == |names| && forall i :: 0 <= i < |r| ==> r[i] == NormalName(names[i])
  {
    seq(|names|, i requires 0 <= i < |names| => NormalName(names[i]))
  }

  function Normal<O>(item: CslItem<O>, intakeId: int): CslItem<O> {
    item.(id := IdFor(intakeId), note := NormalNote(item.note), issued := NormalIssued(item.issued),
          author := NormalNames(item.author), editor := NormalNames(item.editor),
          translator := NormalNames(item.translator))
  }

  lemma {:induction false} ValueBound(s: string, n: nat)
    requires AllDigits(s) && |s| <= n
    ensures n <= 4 ==> Value(s) < [1, 10, 100, 1000, 10000][n]
  {
    if s != [] {
      ValueBound(s[..|s| - 1], n - 1);
    }
  }

  lemma YearOfDigits(s: string)
    requires AllDigits(s) && |s| == 4
    ensures Value(s) < 10000
  {
    ValueBound(s, 4);
  }

  // ----- the canonical items -----

  predicate CanonicalNote(note: Option<string>) {
    note.Some? ==>
      |note.value| > 7 && note.value[..7] == "arXiv: " && !IsWhitespace(note.value[7])
  }

  predicate CanonicalIssued(issued: Option<CslDate>) {
    issued.Some? ==>
      && issued.value.raw.None? && issued.value.literal.None?
      && issued.value.dateParts.Some? && |issued.value.dateParts.value| == 1
      && var parts := issued.value.dateParts.value[0];
         |parts| == 1 || (|parts| == 3 && NonNegative(parts))
  }

  /** Purely structured or purely literal. */
  predicate CanonicalName(n: CslName) {
    if n.literal.Some? then n.family.None? && n.given.None? else n.family.Some? || n.given.Some?
  }

  predicate CanonicalNames(names: seq<CslName>) {
    forall i :: 0 <= i < |names| ==> CanonicalName(names[i])
  }

  predicate Canonical<O>(item: CslItem<O>, intakeId: int) {
    && item.id == IdFor(intakeId)
    && CanonicalNote(item.note)
    && CanonicalIssued(item.issued)
    && CanonicalNames(item.author) && CanonicalNames(item.editor) && CanonicalNames(item.translator)
  }

  lemma {:induction false} TrimmedIsBare(s: string)
    ensures TrimStart(s) != [] ==> !IsWhitespace(TrimStart(s)[0])
    ensures s != [] && !IsWhitespace(s[0]) ==> TrimStart(s) == s
  {
    if s != [] && IsWhitespace(s[0]) {
      TrimmedIsBare(s[1..]);
    }
  }

  /** What `from_catalog` writes for an arXiv id, read back. */
  lemma NoteOfArxiv(x: string)
    ensures ArxivFromNote("arXiv: " + x) == if TrimStart(x) == [] then None else Some(TrimStart(x))
  {
    var note := "arXiv: " + x;
    assert note[..6] == ARXIV && note[6..] == [' '] + x && ([' '] + x)[1..] == x;
  }

  lemma NoteIsCanonicalIffFixed(note: Option<string>)
    ensures NormalNote(note) == note <==> CanonicalNote(note)
    ensures CanonicalNote(NormalNote(note))
  {
    if note.Some? {
      var s := note.value;
      if |s| >= 6 { TrimmedIsBare(s[6..]); }
      if ArxivFromNote(s).Some? {
        var x := ArxivFromNote(s).value;
        assert ("arXiv: " + x)[..7] == "arXiv: " && ("arXiv: " + x)[7] == x[0];
      }
      if CanonicalNote(note) {
        assert s == "arXiv: " + s[7..];
        NoteOfArxiv(s[7..]);
        TrimmedIsBare(s[7..]);
      }
    }
  }

  lemma IssuedIsCanonicalIffFixed(issued: Option<CslDate>)
    ensures NormalIssued(issued) == issued <==> CanonicalIssued(issued)
    ensures CanonicalIssued(NormalIssued(issued))
  {
    if issued.Some? && CanonicalIssued(issued) {
      var parts := issued.value.dateParts.value;
      assert parts == [parts[0]];
      if |parts[0]| == 1 { assert parts[0] == [parts[0][0]]; }
    }
  }

  lemma NamesAreCanonicalIffFixed(names: seq<CslName>)
    ensures NormalNames(names) == names <==> CanonicalNames(names)
    ensures CanonicalNames(NormalNames(names))
  {
    if NormalNames(names) == names {
      forall i | 0 <= i < |names| ensures CanonicalName(names[i]) {
        assert NormalNames(names)[i] == names[i];
      }
    }
  }

  /** The canonical items are the fixed points of normalisation, and normalisation reaches them in one step. */
  lemma CanonicalIffNormal<O>(item: CslItem<O>, intakeId: int)
    ensures Normal(item, intakeId) == item <==> Canonical(item, intakeId)
    ensures Canonical(Normal(item, intakeId), intakeId)
  {
    NoteIsCanonicalIffFixed(item.note);
    IssuedIsCanonicalIffFixed(item.issued);
    NamesAreCanonicalIffFixed(item.author);
    NamesAreCanonicalIffFixed(item.editor);
    NamesAreCanonicalIffFixed(item.translator);
  }

  // ----- dates through text -----

  /** A date with an empty piece does not parse. */
  lemma LeadingDashFails(date: string, rest: string)
    requires date == "-" + rest
    ensures Split(date, '-') == [""] + Split(rest, '-') && ParseIsoDate(date) == None
  {
    assert date[1..] == rest;
    assert Split(date, '-')[0] == "";
  }

  lemma PositiveDate(a: string, b: string, c: string)
    requires '-' !in a && '-' !in b && '-' !in c
    ensures Split(a + "-" + b + "-" + c, '-') == [a, b, c]
  {
    assert a + "-" + b + "-" + c == a + ['-'] + (b + ['-'] + c);
    SplitHead(a, '-', b + ['-'] + c);
    SplitHead(b, '-', c);
    SplitNone(c, '-');
  }

  lemma DashedYear(a: string, b: string, c: string)
    requires a != [] && a[0] == '-'
    ensures ParseIsoDate(a + "-" + b + "-" + c) == None
  {
    var rest := a[1..] + "-" + b + "-" + c;
    assert a + "-" + b + "-" + c == "-" + rest;
    LeadingDashFails(a + "-" + b + "-" + c, rest);
  }

  lemma DashedMonth(a: string, b: string, c: string)
    requires '-' !in a && b != [] && b[0] == '-'
    ensures ParseIsoDate(a + "-" + b + "-" + c) == None
  {
    var rest := b[1..] + "-" + c;
    assert a + "-" + b + "-" + c == a + ['-'] + ("-" + rest);
    SplitHead(a, '-', "-" + rest);
    LeadingDashFails("-" + rest, rest);
    assert Split(a + "-" + b + "-" + c, '-')[1] == "";
  }

  lemma DashedDay(a: string, b: string, c: string)
    requires '-' !in a && '-' !in b && c != [] && c[0] == '-'
    ensures ParseIsoDate(a + "-" + b + "-" + c) == None
  {
    var rest := c[1..];
    assert a + "-" + b + "-" + c == a + ['-'] + (b + ['-'] + ("-" + rest));
    SplitHead(a, '-', b + ['-'] + ("-" + rest));
    SplitHead(b, '-', "-" + rest);
    LeadingDashFails("-" + rest, rest);
    assert Split(a + "-" + b + "-" + c, '-')[2] == "";
  }

  /** The printed date parses back if none of its parts is negative, and not at all otherwise. */
  lemma SplitOfIsoDate(y: i32, m: i32, d: i32)
    ensures ParseIsoDate(IsoDate(y, m, d)) == if y >= 0 && m >= 0 && d >= 0 then Some([y, m, d]) else None
  {
    ParseOfPadded(y, 4);
    ParseOfPadded(m, 2);
    ParseOfPadded(d, 2);
    var a, b, c := Padded(y, 4), Padded(m, 2), Padded(d, 2);
    if y < 0 {
      DashedYear(a, b, c);
    } else if m < 0 {
      DashedMonth(a, b, c);
    } else if d < 0 {
      DashedDay(a, b, c);
    } else {
      PositiveDate(a, b, c);
    }
  }

  lemma ThreePartsReturn(parts: seq<i32>)
    requires |parts| == 3
    ensures ParseIsoDate(IsoDate(parts[0], parts[1], parts[2]))
         == if parts[0] >= 0 && parts[1] >= 0 && parts[2] >= 0 then Some(parts) else None
  {
    SplitOfIsoDate(parts[0], parts[1], parts[2]);
    assert parts == [parts[0], parts[1], parts[2]];
  }

  lemma IssuedThroughTheCatalog(issued: Option<CslDate>, attrs: PublicationAttrs)
    requires (attrs.year, attrs.publicationDate) == SplitIssued(issued)
    ensures BuildIssued(attrs) == NormalIssued(issued)
  {
    if issued.Some? {
      var date := issued.value;
      if date.dateParts.Some? && date.dateParts.value != [] {
        var parts := date.dateParts.value[0];
        if parts != [] {
          ParseOfPrint(parts[0]);
          if |parts| == 3 {
            ThreePartsReturn(parts);
          }
        }
      } else if date.raw.Some? && |date.raw.value| >= 4 && AllDigits(date.raw.value[..4]) {
        YearOfDigits(date.raw.value[..4]);
        ParseOfDigits(date.raw.value[..4]);
      }
    }
  }

  /** A date read from any column text is canonical: a piece between dashes cannot be negative. */
  lemma BuiltDatesAreCanonical(attrs: PublicationAttrs)
    ensures CanonicalIssued(BuildIssued(attrs))
  {
    if attrs.publicationDate.Some? && ParseIsoDate(attrs.publicationDate.value).Some? {
      var pieces := Split(attrs.publicationDate.value, '-');
      PiecesAreFree(attrs.publicationDate.value, '-', 0);
      PiecesAreFree(attrs.publicationDate.value, '-', 1);
      PiecesAreFree(attrs.publicationDate.value, '-', 2);
      UnsignedIsNonNegative(pieces[0]);
      UnsignedIsNonNegative(pieces[1]);
      UnsignedIsNonNegative(pieces[2]);
    }
  }

  // ----- contributors through the table -----

  /** A stored row without the id the table gave it. */
  function Fresh(r: NodeContributor): NewContributor {
    NewContributor(r.intakeId, r.scope, r.role, r.ordinal, r.origin, r.name, r.family, r.given, r.orcid)
  }

  function AllFresh(rows: seq<NodeContributor>): (r: seq<NewContributor>)
    ensures |r| == |rows| && forall i :: 0 <= i < |r| ==> r[i] == Fresh(rows[i])
  {
    seq(|rows|, i requires 0 <= i < |rows| => Fresh(rows[i]))
  }

  /** The table holds these rows, under some ids and in some order. */
  ghost predicate Stored(rows: seq<NodeContributor>, news: seq<NewContributor>) {
    multiset(AllFresh(rows)) == multiset(news)
  }

  function NewOfRole(rows: seq<NewContributor>, role: string): seq<NewContributor> {
    if rows == [] then [] else (if rows[0].role == role then [rows[0]] else []) + NewOfRole(rows[1..], role)
  }

  predicate NewByOrdinal(a: NewContributor, b: NewContributor) { a.ordinal <= b.ordinal }

  lemma {:induction false} FreshOfRole(rows: seq<NodeContributor>, role: string)
    ensures AllFresh(OfRole(rows, role)) == NewOfRole(AllFresh(rows), role)
  {
    if rows != [] {
      FreshOfRole(rows[1..], role);
      assert AllFresh(rows)[1..] == AllFresh(rows[1..]);
    }
  }

  lemma {:induction false} RoleCount(rows: seq<NewContributor>, role: string, x: NewContributor)
    ensures multiset(NewOfRole(rows, role))[x] == if x.role == role then multiset(rows)[x] else 0
  {
    if rows != [] {
      assert rows == [rows[0]] + rows[1..];
      RoleCount(rows[1..], role, x);
    }
  }

  lemma SameRole(a: seq<NewContributor>, b: seq<NewContributor>, role: string)
    requires multiset(a) == multiset(b)
    ensures multiset(NewOfRole(a, role)) == multiset(NewOfRole(b, role))
  {
    forall x ensures multiset(NewOfRole(a, role))[x] == multiset(NewOfRole(b, role))[x] {
      RoleCount(a, role, x);
      RoleCount(b, role, x);
    }
  }

  lemma {:induction false} FreshPermutes(a: seq<NodeContributor>, b: seq<NodeContributor>)
    requires multiset(a) == multiset(b)
    ensures multiset(AllFresh(a)) == multiset(AllFresh(b))
    decreases |a|
  {
    assert |multiset(a)| == |a| && |multiset(b)| == |b|;
    if a == [] {
      assert b == [];
    } else {
      assert a[0] in multiset(b);
      var k :| 0 <= k < |b| && b[k] == a[0];
      WithoutTheFirst(a, b, k);
      FreshPermutes(a[1..], b[..k] + b[k + 1..]);
      FreshWithoutOne(b, k);
      assert AllFresh(a) == [Fresh(a[0])] + AllFresh(a[1..]);
    }
  }

  lemma FreshWithoutOne(b: seq<NodeContributor>, k: nat)
    requires k < |b|
    ensures multiset(AllFresh(b)) == multiset(AllFresh(b[..k] + b[k + 1..])) + multiset{Fresh(b[k])}
  {
    assert AllFresh(b[..k] + b[k + 1..]) == AllFresh(b)[..k] + AllFresh(b)[k + 1..];
    WithoutOne(AllFresh(b), k);
  }

  lemma {:induction false} NewOfRoleAppend(a: seq<NewContributor>, b: seq<NewContributor>, role: string)
    ensures NewOfRole(a + b, role) == NewOfRole(a, role) + NewOfRole(b, role)
  {
    if a == [] {
      assert a + b == b;
    } else {
      SplitFirst(a, b);
      NewOfRoleAppend(a[1..], b, role);
      Associate(if a[0].role == role then [a[0]] else [], NewOfRole(a[1..], role), NewOfRole(b, role));
    }
  }

  ghost predicate AllOfRole(rows: seq<NewContributor>, own: string) {
    forall i :: 0 <= i < |rows| ==> rows[i].role == own
  }

  lemma {:induction false} OneRole(rows: seq<NewContributor>, own: string, role: string)
    requires AllOfRole(rows, own)
    ensures NewOfRole(rows, role) == if role == own then rows else []
  {
    if rows != [] {
      OneRole(rows[1..], own, role);
    }
  }

  /** The item's list for a role. */
  function NamesIn<O>(item: CslItem<O>, role: string): seq<CslName> {
    if role == "author" then item.author else if role == "editor" then item.editor
    else if role == "translator" then item.translator else []
  }

  lemma ThreeParts(a: seq<NewContributor>, b: seq<NewContributor>, c: seq<NewContributor>,
                   roleA: string, roleB: string, roleC: string, role: string)
    requires AllOfRole(a, roleA) && AllOfRole(b, roleB) && AllOfRole(c, roleC)
    requires roleA != roleB && roleA != roleC && roleB != roleC
    ensures NewOfRole(a + b + c, role)
         == if role == roleA then a else if role == roleB then b else if role == roleC then c else []
  {
    NewOfRoleAppend(a + b, c, role);
    NewOfRoleAppend(a, b, role);
    OneRole(a, roleA, role);
    OneRole(b, roleB, role);
    OneRole(c, roleC, role);
    NothingElse(NewOfRole(a, role), NewOfRole(b, role), NewOfRole(c, role));
  }

  lemma NothingElse<T>(a: seq<T>, b: seq<T>, c: seq<T>)
    ensures b == [] && c == [] ==> a + b + c == a
    ensures a == [] && c == [] ==> a + b + c == b
    ensures a == [] && b == [] ==> a + b + c == c
  {
  }

  lemma RolesDiffer()
    ensures "author" != "editor" && "author" != "translator" && "editor" != "translator"
  {
    assert "author"[0] != "editor"[0] && "author"[0] != "translator"[0] && "editor"[0] != "translator"[0];
  }

  lemma SplitByRole<O>(item: CslItem<O>, intakeId: int, scope: string, role: string)
    ensures NewOfRole(SplitContributors(item, intakeId, scope), role)
         == RoleRows(intakeId, scope, role, NamesIn(item, role))
  {
    RolesDiffer();
    ThreeParts(RoleRows(intakeId, scope, "author", item.author), RoleRows(intakeId, scope, "editor", item.editor),
      RoleRows(intakeId, scope, "translator", item.translator), "author", "editor", "translator", role);
  }

  lemma OrdinalOrder()
    ensures TotalPreorder(NewByOrdinal) && TotalPreorder(ByOrdinal)
  {
  }

  /** Sorting by ordinal undoes whatever order the table keeps its rows in. */
  lemma SortedRowsOfRole(rows: seq<NodeContributor>, news: seq<NewContributor>, role: string,
                         expected: seq<NewContributor>)
    requires Stored(rows, news) && NewOfRole(news, role) == expected
    requires forall i :: 0 <= i < |expected| ==> expected[i].ordinal == i
    ensures AllFresh(StableSort(OfRole(rows, role), ByOrdinal)) == expected
  {
    OrdinalOrder();
    var found := StableSort(OfRole(rows, role), ByOrdinal);
    SortSorts(OfRole(rows, role), ByOrdinal);
    FreshPermutes(found, OfRole(rows, role));
    FreshOfRole(rows, role);
    SameRole(AllFresh(rows), news, role);
    forall i, j | 0 <= i < j < |found| ensures NewByOrdinal(AllFresh(found)[i], AllFresh(found)[j]) {
      assert ByOrdinal(found[i], found[j]);
    }
    SortedIsUnique(expected, AllFresh(found), NewByOrdinal);
  }

  lemma NamesThroughTheTable<O>(item: CslItem<O>, intakeId: int, scope: string, rows: seq<NodeContributor>,
                                role: string)
    requires Stored(rows, SplitContributors(item, intakeId, scope))
    ensures ContributorsWithRole(rows, role) == NormalNames(NamesIn(item, role))
  {
    var names := NamesIn(item, role);
    var expected := RoleRows(intakeId, scope, role, names);
    SplitByRole(item, intakeId, scope, role);
    SortedRowsOfRole(rows, SplitContributors(item, intakeId, scope), role, expected);
    var found := StableSort(OfRole(rows, role), ByOrdinal);
    forall i | 0 <= i < |found| ensures NameOf(found[i]) == NormalName(names[i]) {
      assert AllFresh(found)[i] == expected[i];
    }
  }

  /** No two rows of one item collide on the table's natural key. */
  lemma ContributorsNeverCollide<O>(item: CslItem<O>, intakeId: int, scope: string, i: nat, j: nat)
    requires i < j < |SplitContributors(item, intakeId, scope)|
    ensures var rows := SplitContributors(item, intakeId, scope);
      rows[i].role != rows[j].role || rows[i].ordinal != rows[j].ordinal
  {
    assert "author"[0] != "editor"[0] && "author"[0] != "translator"[0] && "editor"[0] != "translator"[0];
  }

  // ----- the round trip -----

  /** For every item, every row order and every codec that can read its own output: the result is the normal form. */
  lemma RoundTripNormalises<O(!new)>(
    codec: Codec<O>, item: CslItem<O>, intakeId: int, scope: string, rows: seq<NodeContributor>)
    requires Faithful(codec) && Stored(rows, SplitContributors(item, intakeId, scope))
    ensures FromCatalog(codec, SplitAttrs(codec, item, intakeId, scope), rows) == Normal(item, intakeId)
  {
    IssuedThroughTheCatalog(item.issued, SplitAttrs(codec, item, intakeId, scope));
    EveryRoleThroughTheTable(item, intakeId, scope, rows);
  }

  lemma EveryRoleThroughTheTable<O>(item: CslItem<O>, intakeId: int, scope: string, rows: seq<NodeContributor>)
    requires Stored(rows, SplitContributors(item, intakeId, scope))
    ensures ContributorsWithRole(rows, "author") == NormalNames(item.author)
    ensures ContributorsWithRole(rows, "editor") == NormalNames(item.editor)
    ensures ContributorsWithRole(rows, "translator") == NormalNames(item.translator)
  {
    RolesDiffer();
    NamesThroughTheTable(item, intakeId, scope, rows, "author");
    NamesThroughTheTable(item, intakeId, scope, rows, "editor");
    NamesThroughTheTable(item, intakeId, scope, rows, "translator");
  }

  /** The round trip is the identity exactly on the canonical items. */
  lemma RoundTripIsIdentityIffCanonical<O(!new)>(
    codec: Codec<O>, item: CslItem<O>, intakeId: int, scope: string, rows: seq<NodeContributor>)
    requires Faithful(codec) && Stored(rows, SplitContributors(item, intakeId, scope))
    ensures FromCatalog(codec, SplitAttrs(codec, item, intakeId, scope), rows) == item <==> Canonical(item, intakeId)
  {
    RoundTripNormalises(codec, item, intakeId, scope, rows);
    CanonicalIffNormal(item, intakeId);
  }

  /** A second round trip changes nothing, whatever the first one was given. */
  lemma SecondRoundTripChangesNothing<O(!new)>(
    codec: Codec<O>, item: CslItem<O>, intakeId: int, scope: string,
    rows: seq<NodeContributor>, again: seq<NodeContributor>)
    requires Faithful(codec) && Stored(rows, SplitContributors(item, intakeId, scope))
    requires Stored(again, SplitContributors(
      FromCatalog(codec, SplitAttrs(codec, item, intakeId, scope), rows), intakeId, scope))
    ensures var once := FromCatalog(codec, SplitAttrs(codec, item, intakeId, scope), rows);
      FromCatalog(codec, SplitAttrs(codec, once, intakeId, scope), again) == once
  {
    RoundTripNormalises(codec, item, intakeId, scope, rows);
    CanonicalIffNormal(item, intakeId);
    RoundTripIsIdentityIffCanonical(codec, Normal(item, intakeId), intakeId, scope, again);
  }

  predicate CarriesItsArxivId(attrs: PublicationAttrs) {
    attrs.arxivId.Some? ==> attrs.arxivId.value != [] && !IsWhitespace(attrs.arxivId.value[0])
  }

  lemma ReadNoteIsCanonical(x: string)
    ensures CanonicalNote(Some("arXiv: " + x)) <==> x != [] && !IsWhitespace(x[0])
  {
    var note := "arXiv: " + x;
    assert note[..7] == "arXiv: " && note[7..] == x;
    if x != [] { assert note[7] == x[0]; }
  }

  lemma ReadNamesAreCanonical(rows: seq<NodeContributor>, role: string)
    ensures CanonicalNames(ContributorsWithRole(rows, role))
  {
    var sorted := StableSort(OfRole(rows, role), ByOrdinal);
    assert forall i :: 0 <= i < |sorted| ==> CanonicalName(NameOf(sorted[i]));
  }

  lemma ReadItemIsCanonical<O>(codec: Codec<O>, attrs: PublicationAttrs, contributors: seq<NodeContributor>)
    ensures Canonical(FromCatalog(codec, attrs, contributors), attrs.intakeId) <==> CarriesItsArxivId(attrs)
  {
    BuiltDatesAreCanonical(attrs);
    ReadNamesAreCanonical(contributors, "author");
    ReadNamesAreCanonical(contributors, "editor");
    ReadNamesAreCanonical(contributors, "translator");
    if attrs.arxivId.Some? {
      ReadNoteIsCanonical(attrs.arxivId.value);
    }
  }

  /**
   Whatever rows the catalog holds, the item read from them is a fixed point of
   the pair exactly when its arXiv id is absent, or non-empty without leading
   whitespace.
   */
  lemma ReadItemsAreFixedIffTheArxivIdIsBare<O(!new)>(
    codec: Codec<O>, attrs: PublicationAttrs, contributors: seq<NodeContributor>, scope: string,
    rows: seq<NodeContributor>)
    requires Faithful(codec)
    requires Stored(rows, SplitContributors(FromCatalog(codec, attrs, contributors), attrs.intakeId, scope))
    ensures var item := FromCatalog(codec, attrs, contributors);
      FromCatalog(codec, SplitAttrs(codec, item, attrs.intakeId, scope), rows) == item <==> CarriesItsArxivId(attrs)
  {
    var item := FromCatalog(codec, attrs, contributors);
    RoundTripIsIdentityIffCanonical(codec, item, attrs.intakeId, scope, rows);
    ReadItemIsCanonical(codec, attrs, contributors);
  }
}
