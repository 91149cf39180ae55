/**
 The catalog tables the intake filter and the effective-metadata merge read.

 A table is the sequence of its rows in scan order, an order SQLite does not
 promise. `Keyed` states the primary keys the schema declares; every theorem
 is for every keyed catalog, so for every content and every scan order.
 */
module Tables {
  import opened Prelude

  datatype ItemKind = Book | Paper | Reference

  function ScopeText(kind: ItemKind): string {
    match kind
    case Book => "book"
    case Paper => "paper"
    case Reference => "reference"
  }

  /**
   A field name of `node_overrides.field`: a column of the base layer, or a
   name no base column answers to.
   */
  datatype Field =
    | Title | Subtitle | Publisher | Year | PublicationDate | Isbn | Series | SeriesNumber
    | Edition | Language | PubPlace | OriginalTitle | OriginalLanguage | OriginalYear
    | SourceFormat | Source | Confidence | AuditVerdict | EnrichedBy
    | Doi | ArxivId | Issn | ContainerTitle | AbstractText | CslType
    | Other(name: string)

  type Fields = map<Field, string>

  function Get(fields: Fields, f: Field): Option<string> {
    if f in fields then Some(fields[f]) else None
  }

  datatype IntakeRow = IntakeRow(intakeId: int, sourceSha256: string, status: string, format: Option<string>)

  datatype PublicationAttrs = PublicationAttrs(
    intakeId: int, scope: string,
    title: Option<string>, subtitle: Option<string>, publisher: Option<string>, year: Option<string>,
    publicationDate: Option<string>, isbn: Option<string>, series: Option<string>,
    seriesNumber: Option<string>, edition: Option<string>, language: Option<string>,
    pubPlace: Option<string>, originalTitle: Option<string>, originalLanguage: Option<string>,
    originalYear: Option<string>, sourceFormat: Option<string>, source: Option<string>,
    confidence: Option<string>, auditVerdict: Option<string>, enrichedBy: Option<string>,
    doi: Option<string>, arxivId: Option<string>, issn: Option<string>,
    containerTitle: Option<string>, abstractText: Option<string>, cslType: Option<string>,
    extrasJson: Option<string>)

  /** The value `None` is an explicit NULL: a deliberate nullify. */
  datatype NodeOverride = NodeOverride(
    intakeId: int, scope: string, field: Field, value: Option<string>,
    confirmed: bool, curatedAt: string, curatedBy: string, notes: Option<string>)

  datatype NodeContributor = NodeContributor(
    contributorId: int, intakeId: int, scope: string, role: string, ordinal: int, origin: string,
    name: string, family: Option<string>, given: Option<string>, orcid: Option<string>)

  datatype NodeReview = NodeReview(
    intakeId: int, scope: string, reviewedAt: string, reviewedBy: string, status: string,
    notes: Option<string>)

  datatype NodeCategory = NodeCategory(intakeId: int, scope: string, category: string)

  datatype Db = Db(
    intakes: seq<IntakeRow>, attrs: seq<PublicationAttrs>, overrides: seq<NodeOverride>,
    contributors: seq<NodeContributor>, reviews: seq<NodeReview>, categories: seq<NodeCategory>)

  type Address = (int, string)

  function IntakeKey(r: IntakeRow): int { r.intakeId }

  function AttrsKey(r: PublicationAttrs): Address { (r.intakeId, r.scope) }

  function OverrideKey(r: NodeOverride): (int, string, Field) { (r.intakeId, r.scope, r.field) }

  function ReviewKey(r: NodeReview): Address { (r.intakeId, r.scope) }

  /** No two rows of a table share a key. */
  ghost predicate Unique<R, K>(rows: seq<R>, key: R -> K) {
    forall i, j :: 0 <= i < j < |rows| ==> key(rows[i]) != key(rows[j])
  }

  /** The primary keys of `intake`, `node_publication_attrs`, `node_overrides` and `node_reviews`. */
  ghost predicate Keyed(db: Db) {
    && Unique(db.intakes, IntakeKey)
    && Unique(db.attrs, AttrsKey)
    && Unique(db.overrides, OverrideKey)
    && Unique(db.reviews, ReviewKey)
  }

  /** The row a key addresses; a keyed table has at most one. */
  function Lookup<R, K(==)>(rows: seq<R>, key: R -> K, k: K): (found: Option<R>)
    ensures found.Some? ==> found.value in rows && key(found.value) == k
    ensures found.None? ==> forall r :: r in rows ==> key(r) != k
  {
    if rows == [] then None
    else if key(rows[0]) == k then Some(rows[0])
    else Lookup(rows[1..], key, k)
  }

  /** In a keyed table the addressed row does not depend on the scan order. */
  lemma LookupIsTheRow<R, K>(rows: seq<R>, key: R -> K, i: nat)
    requires Unique(rows, key) && i < |rows|
    ensures Lookup(rows, key, key(rows[i])) == Some(rows[i])
  {
    var found := Lookup(rows, key, key(rows[i]));
    assert rows[i] in rows;
    var j :| 0 <= j < |rows| && rows[j] == found.value;
    assert i == j;
  }

  /** `ON CONFLICT … DO UPDATE`: the row of the key is replaced where it is, or a new one appended. */
  function WithRow<R, K(==)>(rows: seq<R>, key: R -> K, row: R): seq<R> {
    if rows == [] then [row]
    else if key(rows[0]) == key(row) then [row] + rows[1..]
    else [rows[0]] + WithRow(rows[1..], key, row)
  }

  lemma {:induction false} WithRowLooksUp<R, K>(rows: seq<R>, key: R -> K, row: R, k: K)
    ensures Lookup(WithRow(rows, key, row), key, k) == if k == key(row) then Some(row) else Lookup(rows, key, k)
  {
    if rows != [] && key(rows[0]) != key(row) {
      WithRowLooksUp(rows[1..], key, row, k);
      assert WithRow(rows, key, row)[1..] == WithRow(rows[1..], key, row);
    }
  }

  lemma {:induction false} WithRowStaysKeyed<R, K>(rows: seq<R>, key: R -> K, row: R)
    requires Unique(rows, key)
    ensures Unique(WithRow(rows, key, row), key)
    ensures forall x :: x in WithRow(rows, key, row) ==> x == row || x in rows
  {
    if rows != [] && key(rows[0]) != key(row) {
      assert Unique(rows[1..], key);
      WithRowStaysKeyed(rows[1..], key, row);
      var rest := WithRow(rows[1..], key, row);
      forall j | 0 <= j < |rest| ensures key(rest[j]) != key(rows[0]) {
        assert rest[j] in rest;
        if rest[j] != row {
          var i :| 0 <= i < |rows[1..]| && rows[1..][i] == rest[j];
          assert key(rows[0]) != key(rows[i + 1]);
        }
      }
    }
  }

  /** The row of an address whose columns take the values given under their names. */
  function RowOf(id: int, scope: string, v: Fields, extrasJson: Option<string>): PublicationAttrs {
    PublicationAttrs(id, scope, Get(v, Title), Get(v, Subtitle), Get(v, Publisher), Get(v, Year),
      Get(v, PublicationDate), Get(v, Isbn), Get(v, Series), Get(v, SeriesNumber), Get(v, Edition),
      Get(v, Language), Get(v, PubPlace), Get(v, OriginalTitle), Get(v, OriginalLanguage),
      Get(v, OriginalYear), Get(v, SourceFormat), Get(v, Source), Get(v, Confidence), Get(v, AuditVerdict),
      Get(v, EnrichedBy), Get(v, Doi), Get(v, ArxivId), Get(v, Issn), Get(v, ContainerTitle),
      Get(v, AbstractText), Get(v, CslType), extrasJson)
  }

  /** Each column is read under the name it was written under. */
  lemma ColumnsReadBack(id: int, scope: string, v: Fields, extrasJson: Option<string>, f: Field)
    ensures BaseColumn(RowOf(id, scope, v, extrasJson), f) == if f.Other? then None else Get(v, f)
  {
  }

  /** A column of the base layer, by its field name. */
  function BaseColumn(a: PublicationAttrs, f: Field): Option<string> {
    match f
    case Title => a.title
    case Subtitle => a.subtitle
    case Publisher => a.publisher
    case Year => a.year
    case PublicationDate => a.publicationDate
    case Isbn => a.isbn
    case Series => a.series
    case SeriesNumber => a.seriesNumber
    case Edition => a.edition
    case Language => a.language
    case PubPlace => a.pubPlace
    case OriginalTitle => a.originalTitle
    case OriginalLanguage => a.originalLanguage
    case OriginalYear => a.originalYear
    case SourceFormat => a.sourceFormat
    case Source => a.source
    case Confidence => a.confidence
    case AuditVerdict => a.auditVerdict
    case EnrichedBy => a.enrichedBy
    case Doi => a.doi
    case ArxivId => a.arxivId
    case Issn => a.issn
    case ContainerTitle => a.containerTitle
    case AbstractText => a.abstractText
    case CslType => a.cslType
    case Other(_) => None
  }

  /** What the base layer says about a field; nothing when there is no row. */
  function BaseValue(db: Db, id: int, scope: string, f: Field): Option<string> {
    match Lookup(db.attrs, AttrsKey, (id, scope))
    case Some(a) => BaseColumn(a, f)
    case None => None
  }

  /**
   The effective value of a field: the presence of an override row decides,
   so an override that is an explicit NULL removes the field.
   */
  function EffectiveValue(db: Db, id: int, scope: string, f: Field): Option<string> {
    match Lookup(db.overrides, OverrideKey, (id, scope, f))
    case Some(o) => o.value
    case None => BaseValue(db, id, scope, f)
  }
}
