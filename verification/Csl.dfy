/**
 The two adapters between a CSL-JSON item and the catalog's paper-side rows.

 `from_catalog` after `split_into_catalog` normalises an item; it is the
 identity exactly on the canonical ones. `O` is the type of the `other` map.
 */
module Csl {
  import opened Prelude
  import opened Tables
  import opened Decimal
  import opened Text
  import opened Sorting

  datatype CslName = CslName(
    family: Option<string>, given: Option<string>, literal: Option<string>, orcid: Option<string>)

  datatype CslDate = CslDate(dateParts: Option<seq<seq<i32>>>, raw: Option<string>, literal: Option<string>)

  datatype CslItem<O> = CslItem(
    id: string, itemType: Option<string>, title: Option<string>, subtitle: Option<string>,
    containerTitle: Option<string>, publisher: Option<string>, publisherPlace: Option<string>,
    issued: Option<CslDate>, doi: Option<string>, isbn: Option<string>, issn: Option<string>,
    language: Option<string>, edition: Option<string>, abstractText: Option<string>,
    note: Option<string>, author: seq<CslName>, editor: seq<CslName>, translator: seq<CslName>, other: O)

  /** A contributor row before the table gives it its id. */
  datatype NewContributor = NewContributor(
    intakeId: int, scope: string, role: string, ordinal: int, origin: string,
    name: string, family: Option<string>, given: Option<string>, orcid: Option<string>)

  /** `serde_json` on the `other` map; `decode` fails on text that is not an object. */
  datatype Codec<!O> = Codec(encode: O -> string, decode: string -> Option<O>, empty: O)

  ghost predicate Faithful<O(!new)>(codec: Codec<O>) {
    forall o :: codec.decode(codec.encode(o)) == Some(o)
  }

  // ----- from_catalog -----

  function TrimStart(s: string): string {
    if s != [] && IsWhitespace(s[0]) then TrimStart(s[1..]) else s
  }

  const ARXIV := "arXiv:"

  function ArxivFromNote(note: string): Option<string> {
    if |note| >= 6 && note[..6] == ARXIV && TrimStart(note[6..]) != [] then Some(TrimStart(note[6..])) else None
  }

  function ParseIsoDate(date: string): Option<seq<i32>> {
    var parts := Split(date, '-');
    if |parts| != 3 then None
    else
      match (ParseI32(parts[0]), ParseI32(parts[1]), ParseI32(parts[2]))
      case (Some(y), Some(m), Some(d)) => Some([y, m, d])
      case _ => None
  }

  function DateOf(parts: seq<i32>): CslDate { CslDate(Some([parts]), None, None) }

  function BuildIssued(attrs: PublicationAttrs): Option<CslDate> {
    if attrs.publicationDate.Some? && ParseIsoDate(attrs.publicationDate.value).Some?
    then Some(DateOf(ParseIsoDate(attrs.publicationDate.value).value))
    else if attrs.year.Some? && ParseI32(attrs.year.value).Some?
    then Some(DateOf([ParseI32(attrs.year.value).value]))
    else None
  }

  function OfRole(rows: seq<NodeContributor>, role: string): seq<NodeContributor> {
    if rows == [] then [] else (if rows[0].role == role then [rows[0]] else []) + OfRole(rows[1..], role)
  }

  predicate ByOrdinal(a: NodeContributor, b: NodeContributor) { a.ordinal <= b.ordinal }

  /** A structured name suppresses `literal`. */
  function NameOf(r: NodeContributor): CslName {
    CslName(r.family, r.given, if r.family.Some? || r.given.Some? then None else Some(r.name), r.orcid)
  }

  function Names(rows: seq<NodeContributor>): seq<CslName> {
    seq(|rows|, i requires 0 <= i < |rows| => NameOf(rows[i]))
  }

  function ContributorsWithRole(rows: seq<NodeContributor>, role: string): seq<CslName> {
    Names(StableSort(OfRole(rows, role), ByOrdinal))
  }

  function IdFor(intakeId: int): string { "intake-" + Print(intakeId) }

  function Extras<O>(codec: Codec<O>, json: Option<string>): O {
    if json.Some? && codec.decode(json.value).Some? then codec.decode(json.value).value else codec.empty
  }

  function FromCatalog<O>(codec: Codec<O>, attrs: PublicationAttrs, contributors: seq<NodeContributor>): CslItem<O> {
    CslItem(IdFor(attrs.intakeId), attrs.cslType, attrs.title, attrs.subtitle, attrs.containerTitle,
      attrs.publisher, attrs.pubPlace, BuildIssued(attrs), attrs.doi, attrs.isbn, attrs.issn, attrs.language,
      attrs.edition, attrs.abstractText,
      if attrs.arxivId.Some? then Some("arXiv: " + attrs.arxivId.value) else None,
      ContributorsWithRole(contributors, "author"), ContributorsWithRole(contributors, "editor"),
      ContributorsWithRole(contributors, "translator"), Extras(codec, attrs.extrasJson))
  }

  // ----- split_into_catalog -----

  function NameDisplay(n: CslName): string {
    match (n.given, n.family)
    case (Some(g), Some(f)) => g + " " + f
    case (None, Some(f)) => f
    case (Some(g), None) => g
    case (None, None) => if n.literal.Some? then n.literal.value else ""
  }

  function IsoDate(y: i32, m: i32, d: i32): string {
    Padded(y, 4) + "-" + Padded(m, 2) + "-" + Padded(d, 2)
  }

  /** The year and the publication date of an issued date. */
  function SplitIssued(issued: Option<CslDate>): (Option<string>, Option<string>) {
    match issued
    case None => (None, None)
    case Some(date) =>
      if date.dateParts.Some? && date.dateParts.value != [] then
        var parts := date.dateParts.value[0];
        (if parts == [] then None else Some(Print(parts[0])),
         if |parts| == 3 then Some(IsoDate(parts[0], parts[1], parts[2])) else None)
      else if date.raw.Some? && |date.raw.value| >= 4 && AllDigits(date.raw.value[..4]) then
        (Some(date.raw.value[..4]), None)
      else (None, None)
  }

  function EmptyAttrs(intakeId: int, scope: string): PublicationAttrs {
    PublicationAttrs(intakeId, scope, None, None, None, None, None, None, None, None, None, None, None, None, None,
      None, None, None, None, None, None, None, None, None, None, None, None, None)
  }

  /** The row an item is stored as. */
  function SplitAttrs<O(==)>(codec: Codec<O>, item: CslItem<O>, intakeId: int, scope: string): PublicationAttrs {
    EmptyAttrs(intakeId, scope).(
      title := item.title, subtitle := item.subtitle, publisher := item.publisher,
      pubPlace := item.publisherPlace, edition := item.edition, language := item.language, isbn := item.isbn,
      doi := item.doi, issn := item.issn, containerTitle := item.containerTitle,
      abstractText := item.abstractText, cslType := item.itemType,
      arxivId := if item.note.Some? then ArxivFromNote(item.note.value) else None,
      year := SplitIssued(item.issued).0, publicationDate := SplitIssued(item.issued).1,
      extrasJson := if item.other == codec.empty then None else Some(codec.encode(item.other)))
  }

  function RowFor(intakeId: int, scope: string, role: string, ordinal: int, n: CslName): NewContributor {
    NewContributor(intakeId, scope, role, ordinal, "extracted", NameDisplay(n), n.family, n.given, n.orcid)
  }

  /** One row per name, numbered in the order of the list. */
  function RoleRows(intakeId: int, scope: string, role: string, names: seq<CslName>): (r: seq<NewContributor>)
    ensures |r| == |names|
    ensures forall i :: 0 <= i < |r| ==> r[i] == RowFor(intakeId, scope, role, i, names[i])
  {
    seq(|names|, i requires 0 <= i < |names| => RowFor(intakeId, scope, role, i, names[i]))
  }

  function SplitContributors<O>(item: CslItem<O>, intakeId: int, scope: string): seq<NewContributor> {
    RoleRows(intakeId, scope, "author", item.author) + RoleRows(intakeId, scope, "editor", item.editor)
    + RoleRows(intakeId, scope, "translator", item.translator)
  }

  method SplitIntoCatalog<O(==)>(codec: Codec<O>, item: CslItem<O>, intakeId: int, kind: ItemKind)
    returns (attrs: PublicationAttrs, contributors: seq<NewContributor>)
    ensures attrs == SplitAttrs(codec, item, intakeId, ScopeText(kind))
    ensures contributors == SplitContributors(item, intakeId, ScopeText(kind))
  {
    attrs := EmptyAttrs(intakeId, ScopeText(kind));
    attrs := attrs.(title := item.title, subtitle := item.subtitle, publisher := item.publisher);
    attrs := attrs.(pubPlace := item.publisherPlace, edition := item.edition, language := item.language);
    attrs := attrs.(isbn := item.isbn, doi := item.doi, issn := item.issn);
    attrs := attrs.(containerTitle := item.containerTitle, abstractText := item.abstractText, cslType := item.itemType);
    attrs := attrs.(arxivId := if item.note.Some? then ArxivFromNote(item.note.value) else None);
    var (year, publicationDate) := SplitIssued(item.issued);
    attrs := attrs.(year := year, publicationDate := publicationDate);
    attrs := attrs.(extrasJson := if item.other == codec.empty then None else Some(codec.encode(item.other)));
    var roles := [("author", item.author), ("editor", item.editor), ("translator", item.translator)];
    contributors := [];
    ghost var scope := ScopeText(kind);
    for k := 0 to |roles|
      invariant contributors == AllRows(intakeId, scope, roles[..k])
    {
      var (role, names) := roles[k];
      ghost var before := contributors;
      for ordinal := 0 to |names|
        invariant contributors == before + RoleRows(intakeId, scope, role, names[..ordinal])
      {
        var name := names[ordinal];
        var row := NewContributor(intakeId, ScopeText(kind), role, ordinal, "extracted", NameDisplay(name),
          None, None, None);
        if name.family.Some? {
          row := row.(family := name.family);
        }
        if name.given.Some? {
          row := row.(given := name.given);
        }
        if name.orcid.Some? {
          row := row.(orcid := name.orcid);
        }
        contributors := contributors + [row];
        assert RoleRows(intakeId, scope, role, names[..ordinal + 1])
            == RoleRows(intakeId, scope, role, names[..ordinal]) + [row];
      }
      assert names[..|names|] == names && roles[..k + 1] == roles[..k] + [roles[k]];
      AllRowsAppend(intakeId, scope, roles[..k], roles[k]);
    }
    assert roles[..|roles|] == roles;
    ThreeRoles(intakeId, scope, roles);
  }

  function AllRows(intakeId: int, scope: string, roles: seq<(string, seq<CslName>)>): seq<NewContributor> {
    if roles == [] then [] else RoleRows(intakeId, scope, roles[0].0, roles[0].1) + AllRows(intakeId, scope, roles[1..])
  }

  lemma {:induction false} AllRowsAppend(
    intakeId: int, scope: string, roles: seq<(string, seq<CslName>)>, last: (string, seq<CslName>))
    ensures AllRows(intakeId, scope, roles + [last]) ==
      AllRows(intakeId, scope, roles) + RoleRows(intakeId, scope, last.0, last.1)
  {
    if roles == [] {
      assert roles + [last] == [last] && [last][1..] == [];
    } else {
      assert (roles + [last])[1..] == roles[1..] + [last];
      AllRowsAppend(intakeId, scope, roles[1..], last);
    }
  }

  lemma ThreeRoles(intakeId: int, scope: string, roles: seq<(string, seq<CslName>)>)
    requires |roles| == 3
    ensures AllRows(intakeId, scope, roles) == RoleRows(intakeId, scope, roles[0].0, roles[0].1)
      + RoleRows(intakeId, scope, roles[1].0, roles[1].1) + RoleRows(intakeId, scope, roles[2].0, roles[2].1)
  {
    var last := roles[1..][1..];
    assert last == [roles[2]] && last[1..] == [];
    assert AllRows(intakeId, scope, last) == RoleRows(intakeId, scope, roles[2].0, roles[2].1) + [];
  }
}
