/**
 The intake filter and its compilation to SQL fragments: JOIN text, WHERE
 text, and the positional parameters.
 */
module IntakeFilter {
  import opened Prelude
  import opened Tables
  import opened Sql
  import opened SqlFacts
  import Like

  datatype IntakeStatus = Pending | Extracted | DedupHold | Embedded | Aborted | NeedsOcr

  const STATUS_PENDING := "pending"

  function StatusText(s: IntakeStatus): string {
    match s
    case Pending => "pending"
    case Extracted => "extracted"
    case DedupHold => "dedup_hold"
    case Embedded => "embedded"
    case Aborted => "aborted"
    case NeedsOcr => "needs_ocr"
  }

  datatype MatchLayer = Base | Effective

  datatype Filter = Filter(
    kind: ItemKind, layer: MatchLayer,
    titleSubstring: Option<string>, contributorName: Option<string>, contributorRole: Option<string>,
    statuses: seq<IntakeStatus>, format: Option<string>, confidenceIn: seq<string>,
    reviewStatusIn: seq<string>, year: Option<string>, venueSubstring: Option<string>,
    doi: Option<string>, categories: seq<string>, language: seq<string>)

  // ----- what the filter is documented to mean -----

  function ReviewStatus(db: Db, id: int, scope: string): string {
    match Lookup(db.reviews, ReviewKey, (id, scope))
    case Some(r) => r.status
    case None => STATUS_PENDING
  }

  /** The value an attribute predicate judges: the base column, or the effective value. */
  function JudgedValue(db: Db, f: Filter, id: int, field: Field): Option<string> {
    match f.layer
    case Base => BaseValue(db, id, ScopeText(f.kind), field)
    case Effective => EffectiveValue(db, id, ScopeText(f.kind), field)
  }

  predicate Holds(value: Option<string>, wanted: string) {
    value == Some(wanted)
  }

  predicate HoldsText(value: Option<string>, needle: string) {
    value.Some? && Like.ContainsUpToCase(value.value, needle)
  }

  predicate HoldsOneOf(value: Option<string>, wanted: seq<string>) {
    value.Some? && value.value in wanted
  }

  /** The predicates on the title, year, venue, doi, language and confidence columns. */
  predicate SelectsAttrs(db: Db, f: Filter, id: int) {
    && (f.titleSubstring.Some? ==> HoldsText(JudgedValue(db, f, id, Title), f.titleSubstring.value))
    && (f.confidenceIn != [] ==> HoldsOneOf(BaseValue(db, id, ScopeText(f.kind), Confidence), f.confidenceIn))
    && (f.year.Some? ==> Holds(JudgedValue(db, f, id, Year), f.year.value))
    && (f.venueSubstring.Some? ==> HoldsText(JudgedValue(db, f, id, ContainerTitle), f.venueSubstring.value))
    && (f.doi.Some? ==> Holds(JudgedValue(db, f, id, Doi), f.doi.value))
    && (f.language != [] ==> HoldsOneOf(JudgedValue(db, f, id, Language), f.language))
  }

  predicate Tags(f: Filter, id: int, t: NodeCategory) {
    t.intakeId == id && t.scope == ScopeText(f.kind) && t.category in f.categories
  }

  /** Everything but the contributor predicate. */
  predicate SelectsApart(db: Db, f: Filter, r: IntakeRow) {
    && SelectsAttrs(db, f, r.intakeId)
    && (f.statuses != [] ==> exists s :: s in f.statuses && r.status == StatusText(s))
    && (f.format.Some? ==> Holds(r.format, f.format.value))
    && (f.reviewStatusIn != [] ==> ReviewStatus(db, r.intakeId, ScopeText(f.kind)) in f.reviewStatusIn)
    && (f.categories != [] ==> exists t :: t in db.categories && Tags(f, r.intakeId, t))
  }

  /** A contributor row of the right name, and of the right role when one is asked for. */
  predicate Credits(f: Filter, c: NodeContributor)
    requires f.contributorName.Some?
  {
    && c.name == f.contributorName.value
    && (f.contributorRole.Some? ==> c.role == f.contributorRole.value)
  }

  predicate SelectsContributor(db: Db, f: Filter, id: int) {
    f.contributorName.Some? ==>
      exists c :: c in db.contributors && c.intakeId == id && c.scope == ScopeText(f.kind) && Credits(f, c)
  }

  predicate Selects(db: Db, f: Filter, r: IntakeRow) {
    SelectsApart(db, f, r) && SelectsContributor(db, f, r.intakeId)
  }

  // ----- the fragments -----

  function OverriddenColumns(f: Filter): seq<Field> {
    if f.layer == Base then [] else
      (if f.titleSubstring.Some? then [Title] else [])
      + (if f.year.Some? then [Year] else [])
      + (if f.venueSubstring.Some? then [ContainerTitle] else [])
      + (if f.doi.Some? then [Doi] else [])
      + (if f.language != [] then [Language] else [])
  }

  function AttrExpr(f: Filter, column: Field): (e: Expr)
    ensures ExprHoles(e) == 0
  {
    match f.layer
    case Base => Col(Npa, Attr(column))
    case Effective => CaseWhenNull(Col(Ovr(column), IntakeId), Col(Npa, Attr(column)), Col(Ovr(column), ValueColumn))
  }

  predicate NeedNpa(f: Filter) {
    f.titleSubstring.Some? || f.confidenceIn != [] || f.year.Some? || f.venueSubstring.Some?
    || f.doi.Some? || f.language != []
  }

  function OnAddress(a: Alias): (c: Cond)
    ensures CondHoles(c) == 1
  {
    And(Eq(Col(a, IntakeId), Col(I, IntakeId)), Eq(Col(a, Scope), Hole))
  }

  function ScopeArg(f: Filter): seq<Value> { [Text(ScopeText(f.kind))] }

  function OverrideJoin(f: Filter, column: Field): (j: JoinClause)
    ensures |j.args| == CondHoles(j.join.on)
  {
    JoinClause(
      LeftJoin(OverridesTable, Ovr(column),
        And(OnAddress(Ovr(column)), Eq(Col(Ovr(column), FieldColumn), Lit(Name(column))))),
      ScopeArg(f))
  }

  function OverrideJoins(f: Filter, columns: seq<Field>): seq<JoinClause> {
    if columns == [] then [] else [OverrideJoin(f, columns[0])] + OverrideJoins(f, columns[1..])
  }

  function NpaJoins(f: Filter): seq<JoinClause> {
    if NeedNpa(f) then [JoinClause(LeftJoin(AttrsTable, Npa, OnAddress(Npa)), ScopeArg(f))] else []
  }

  function ContributorJoins(f: Filter): seq<JoinClause> {
    if f.contributorName.Some? then [JoinClause(LeftJoin(ContributorsTable, Nc, OnAddress(Nc)), ScopeArg(f))] else []
  }

  function ReviewJoins(f: Filter): seq<JoinClause> {
    if f.reviewStatusIn != [] then [JoinClause(LeftJoin(ReviewsTable, Nr, OnAddress(Nr)), ScopeArg(f))] else []
  }

  function JoinClauses(f: Filter): seq<JoinClause> {
    NpaJoins(f) + OverrideJoins(f, OverriddenColumns(f)) + ContributorJoins(f) + ReviewJoins(f)
  }

  function TextClause(e: Expr, needle: Option<string>): seq<Clause> {
    if needle.None? then []
    else [Clause(LikeEscape(e, Hole), [Text(Like.SubstringPattern(needle.value))])]
  }

  function EqClause(e: Expr, wanted: Option<string>): seq<Clause> {
    if wanted.None? then [] else [Clause(Eq(e, Hole), [Text(wanted.value)])]
  }

  function InClause(e: Expr, wanted: seq<string>): seq<Clause> {
    if wanted == [] then [] else [Clause(In(e, HoleList(|wanted|)), TextList(wanted))]
  }

  function StatusTexts(ss: seq<IntakeStatus>): seq<string> {
    if ss == [] then [] else [StatusText(ss[0])] + StatusTexts(ss[1..])
  }

  function ContributorClauses(f: Filter): seq<Clause> {
    if f.contributorName.None? then []
    else EqClause(Col(Nc, NameColumn), f.contributorName) + EqClause(Col(Nc, Role), f.contributorRole)
  }

  function CategoryClauses(f: Filter): seq<Clause> {
    if f.categories == [] then []
    else [Clause(
      Exists(CategoriesTable, NcCat, And(OnAddress(NcCat), In(Col(NcCat, Category), HoleList(|f.categories|)))),
      ScopeArg(f) + TextList(f.categories))]
  }

  const ReviewExpr := Coalesce(Col(Nr, Status), Lit(Text(STATUS_PENDING)))

  const SEGMENTS := 11

  /** The predicates in the order they are pushed. */
  function Segment(f: Filter, k: nat): seq<Clause> {
    match k
    case 0 => TextClause(AttrExpr(f, Title), f.titleSubstring)
    case 1 => ContributorClauses(f)
    case 2 => InClause(Col(I, Status), StatusTexts(f.statuses))
    case 3 => EqClause(Col(I, Format), f.format)
    case 4 => InClause(Col(Npa, Attr(Confidence)), f.confidenceIn)
    case 5 => InClause(ReviewExpr, f.reviewStatusIn)
    case 6 => EqClause(AttrExpr(f, Year), f.year)
    case 7 => TextClause(AttrExpr(f, ContainerTitle), f.venueSubstring)
    case 8 => EqClause(AttrExpr(f, Doi), f.doi)
    case 9 => InClause(AttrExpr(f, Language), f.language)
    case _ => CategoryClauses(f)
  }

  function Segments(f: Filter): seq<seq<Clause>> {
    seq(SEGMENTS, k requires 0 <= k => Segment(f, k))
  }

  function WhereClauses(f: Filter): seq<Clause> {
    Concat(Segments(f))
  }

  /** The fragments, with the parameters of the joins before those of the WHERE clause. */
  function Params(f: Filter): seq<Value> {
    JoinArgs(JoinClauses(f)) + Args(WhereClauses(f))
  }
}
