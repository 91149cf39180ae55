/** The catalog handle: the query and merge methods, and the writes to `node_overrides`. */
module Catalog {
  import opened Prelude
  import opened Tables
  import opened Sql
  import opened SqlFacts
  import opened IntakeFilter
  import opened IntakeMeaning
  import opened Intake
  import opened Effective
  import opened Sorting
  import Like

  // ----- decoding rows -----

  datatype FoundIntake = FoundIntake(intakeId: int, sourceSha256: string, status: IntakeStatus, format: Option<string>)

  const ALL_STATUSES: seq<IntakeStatus> := [Pending, Extracted, DedupHold, Embedded, Aborted, NeedsOcr]

  function FindStatus(among: seq<IntakeStatus>, s: string): (found: Option<IntakeStatus>)
    ensures found.Some? ==> StatusText(found.value) == s
    ensures found.None? ==> forall st :: st in among ==> StatusText(st) != s
  {
    if among == [] then None
    else if StatusText(among[0]) == s then Some(among[0])
    else FindStatus(among[1..], s)
  }

  function StatusFromText(s: string): Option<IntakeStatus> {
    FindStatus(ALL_STATUSES, s)
  }

  lemma StatusTextsDistinct(a: IntakeStatus, b: IntakeStatus)
    requires StatusText(a) == StatusText(b)
    ensures a == b
  {
    assert StatusText(Pending)[0] == 'p' && StatusText(Aborted)[0] == 'a';
    assert StatusText(Extracted)[1] == 'x' && StatusText(NeedsOcr)[0] == 'n' && StatusText(Extracted)[0] == 'e';
  }

  /** Every status a row can be given reads back as itself. */
  lemma StatusRoundTrip(st: IntakeStatus)
    ensures StatusFromText(StatusText(st)) == Some(st)
  {
    var i := match st
      case Pending => 0 case Extracted => 1 case DedupHold => 2 case Embedded => 3 case Aborted => 4 case NeedsOcr => 5;
    assert ALL_STATUSES[i] == st;
    var found := StatusFromText(StatusText(st));
    assert st in ALL_STATUSES;
    StatusTextsDistinct(found.value, st);
  }

  /** The row an entry is written back as. */
  function Written(x: FoundIntake): IntakeRow {
    IntakeRow(x.intakeId, x.sourceSha256, StatusText(x.status), x.format)
  }

  predicate IsStatusText(s: string) { exists st :: StatusText(st) == s }

  function Decode(r: IntakeRow): (x: Result<FoundIntake, SqlError>)
    ensures x.Ok? ==> Written(x.value) == r
    ensures x.Err? ==> !IsStatusText(r.status) && x.error == UnknownStatus(r.status)
  {
    match StatusFromText(r.status)
    case Some(st) => Ok(FoundIntake(r.intakeId, r.sourceSha256, st, r.format))
    case None => UnknownMeansNone(r.status); Err(UnknownStatus(r.status))
  }

  lemma UnknownMeansNone(s: string)
    requires StatusFromText(s) == None
    ensures !IsStatusText(s)
  {
    if st :| StatusText(st) == s {
      StatusRoundTrip(st);
      assert false;
    }
  }

  /** Each entry is its row; or the first row whose status is no status stops the reading. */
  ghost predicate ReadsBack(rows: seq<IntakeRow>, r: Result<seq<FoundIntake>, SqlError>) {
    match r
    case Ok(found) => |found| == |rows| && forall i :: 0 <= i < |rows| ==> Written(found[i]) == rows[i]
    case Err(e) =>
      exists k: nat :: k < |rows| && !IsStatusText(rows[k].status) && e == UnknownStatus(rows[k].status)
        && forall j :: 0 <= j < k ==> IsStatusText(rows[j].status)
  }

  // ----- the compiler -----

  /** The IN list's loop: one parameter a value. */
  method PushTexts(params: seq<Value>, values: seq<string>) returns (out: seq<Value>)
    ensures out == params + TextList(values)
  {
    out := params;
    for i := 0 to |values|
      invariant out + TextList(values[i..]) == params + TextList(values)
    {
      assert values[i..][1..] == values[i + 1..];
      out := out + [Text(values[i])];
    }
  }

  method PushStatuses(params: seq<Value>, statuses: seq<IntakeStatus>) returns (out: seq<Value>)
    ensures out == params + TextList(StatusTexts(statuses))
  {
    out := params;
    for i := 0 to |statuses|
      invariant out + TextList(StatusTexts(statuses[i..])) == params + TextList(StatusTexts(statuses))
    {
      assert statuses[i..][1..] == statuses[i + 1..];
      assert StatusTexts(statuses[i..])[1..] == StatusTexts(statuses[i + 1..]);
      out := out + [Text(StatusText(statuses[i]))];
    }
  }

  lemma {:induction false} StatusTextsLength(ss: seq<IntakeStatus>)
    ensures |StatusTexts(ss)| == |ss|
  {
    if ss != [] { StatusTextsLength(ss[1..]); }
  }

  /** One override JOIN per judged column. */
  method PushOverrideJoins(f: Filter, columns: seq<Field>, joins: seq<Join>, params: seq<Value>)
    returns (joins': seq<Join>, params': seq<Value>)
    ensures joins' == joins + Joins(OverrideJoins(f, columns))
    ensures params' == params + JoinArgs(OverrideJoins(f, columns))
  {
    joins', params' := joins, params;
    for i := 0 to |columns|
      invariant joins' + Joins(OverrideJoins(f, columns[i..])) == joins + Joins(OverrideJoins(f, columns))
      invariant params' + JoinArgs(OverrideJoins(f, columns[i..])) == params + JoinArgs(OverrideJoins(f, columns))
    {
      var c := columns[i];
      ghost var rest := OverrideJoins(f, columns[i..]);
      assert columns[i..][1..] == columns[i + 1..];
      assert rest[0] == OverrideJoin(f, c) && rest[1..] == OverrideJoins(f, columns[i + 1..]);
      joins' := joins' + [LeftJoin(OverridesTable, Ovr(c),
        And(OnAddress(Ovr(c)), Eq(Col(Ovr(c), FieldColumn), Lit(Name(c)))))];
      params' := params' + [Text(ScopeText(f.kind))];
    }
  }

  method StartJoins(f: Filter) returns (joins: seq<Join>, params: seq<Value>)
    ensures joins == Joins(NpaJoins(f)) && params == JoinArgs(NpaJoins(f))
  {
    joins, params := [], [];
    if NeedNpa(f) {
      joins := joins + [LeftJoin(AttrsTable, Npa, OnAddress(Npa))];
      params := params + [Text(ScopeText(f.kind))];
    }
  }

  method PushContributorJoin(f: Filter, joins: seq<Join>, params: seq<Value>)
    returns (joins': seq<Join>, params': seq<Value>)
    ensures joins' == joins + Joins(ContributorJoins(f)) && params' == params + JoinArgs(ContributorJoins(f))
  {
    joins', params' := joins, params;
    if f.contributorName.Some? {
      joins' := joins' + [LeftJoin(ContributorsTable, Nc, OnAddress(Nc))];
      params' := params' + [Text(ScopeText(f.kind))];
    }
  }

  method PushReviewJoin(f: Filter, joins: seq<Join>, params: seq<Value>)
    returns (joins': seq<Join>, params': seq<Value>)
    ensures joins' == joins + Joins(ReviewJoins(f)) && params' == params + JoinArgs(ReviewJoins(f))
  {
    joins', params' := joins, params;
    if f.reviewStatusIn != [] {
      joins' := joins' + [LeftJoin(ReviewsTable, Nr, OnAddress(Nr))];
      params' := params' + [Text(ScopeText(f.kind))];
    }
  }

  lemma JoinClauseParts(f: Filter)
    ensures Joins(JoinClauses(f)) == Joins(NpaJoins(f)) + Joins(OverrideJoins(f, OverriddenColumns(f)))
      + Joins(ContributorJoins(f)) + Joins(ReviewJoins(f))
    ensures JoinArgs(JoinClauses(f)) == JoinArgs(NpaJoins(f)) + JoinArgs(OverrideJoins(f, OverriddenColumns(f)))
      + JoinArgs(ContributorJoins(f)) + JoinArgs(ReviewJoins(f))
  {
    var a, b, c, v := NpaJoins(f), OverrideJoins(f, OverriddenColumns(f)), ContributorJoins(f), ReviewJoins(f);
    JoinClausesAppend(a, b);
    JoinClausesAppend(a + b, c);
    JoinClausesAppend(a + b + c, v);
  }

  method BuildJoins(f: Filter) returns (joins: seq<Join>, params: seq<Value>)
    ensures joins == Joins(JoinClauses(f)) && params == JoinArgs(JoinClauses(f))
  {
    joins, params := StartJoins(f);
    joins, params := PushOverrideJoins(f, OverriddenColumns(f), joins, params);
    joins, params := PushContributorJoin(f, joins, params);
    joins, params := PushReviewJoin(f, joins, params);
    JoinClauseParts(f);
  }

  /** What has been pushed once the first k predicates are done. */
  ghost predicate Pushed(f: Filter, k: nat, base: seq<Value>, parts: seq<Cond>, params: seq<Value>)
    requires k <= SEGMENTS
  {
    && parts == Conds(Concat(Segments(f)[..k]))
    && params == base + Args(Concat(Segments(f)[..k]))
  }

  lemma PushStep(f: Filter, k: nat, base: seq<Value>, parts: seq<Cond>, params: seq<Value>,
                 parts': seq<Cond>, params': seq<Value>)
    requires k < SEGMENTS && Pushed(f, k, base, parts, params)
    requires parts' == parts + Conds(Segment(f, k)) && params' == params + Args(Segment(f, k))
    ensures Pushed(f, k + 1, base, parts', params')
  {
    ConcatTake(Segments(f), k);
    ClausesAppend(Concat(Segments(f)[..k]), Segments(f)[k]);
    Associate(base, Args(Concat(Segments(f)[..k])), Args(Segment(f, k)));
  }

  lemma OneClause(c: Clause)
    ensures Conds([c]) == [c.cond] && Args([c]) == c.args
  {
    assert [c][1..] == [];
  }

  method PushText(e: Expr, needle: Option<string>, parts: seq<Cond>, params: seq<Value>)
    returns (parts': seq<Cond>, params': seq<Value>)
    ensures parts' == parts + Conds(TextClause(e, needle)) && params' == params + Args(TextClause(e, needle))
  {
    parts', params' := parts, params;
    if needle.Some? {
      parts' := parts' + [LikeEscape(e, Hole)];
      var escaped := Like.LikeEscape(needle.value);
      params' := params' + [Text("%" + escaped + "%")];
    }
  }

  method PushEq(e: Expr, wanted: Option<string>, parts: seq<Cond>, params: seq<Value>)
    returns (parts': seq<Cond>, params': seq<Value>)
    ensures parts' == parts + Conds(EqClause(e, wanted)) && params' == params + Args(EqClause(e, wanted))
  {
    parts', params' := parts, params;
    if wanted.Some? {
      parts' := parts' + [Eq(e, Hole)];
      params' := params' + [Text(wanted.value)];
    }
  }

  method PushIn(e: Expr, wanted: seq<string>, parts: seq<Cond>, params: seq<Value>)
    returns (parts': seq<Cond>, params': seq<Value>)
    ensures parts' == parts + Conds(InClause(e, wanted)) && params' == params + Args(InClause(e, wanted))
  {
    parts', params' := parts, params;
    if wanted != [] {
      parts' := parts' + [In(e, HoleList(|wanted|))];
      params' := PushTexts(params', wanted);
    }
  }

  method PushContributor(f: Filter, parts: seq<Cond>, params: seq<Value>)
    returns (parts': seq<Cond>, params': seq<Value>)
    ensures parts' == parts + Conds(ContributorClauses(f)) && params' == params + Args(ContributorClauses(f))
  {
    parts', params' := parts, params;
    if f.contributorName.Some? {
      ghost var a, b := EqClause(Col(Nc, NameColumn), f.contributorName), EqClause(Col(Nc, Role), f.contributorRole);
      parts', params' := PushEq(Col(Nc, NameColumn), f.contributorName, parts', params');
      parts', params' := PushEq(Col(Nc, Role), f.contributorRole, parts', params');
      ClausesAppend(a, b);
    }
  }

  method PushStatusIn(f: Filter, parts: seq<Cond>, params: seq<Value>)
    returns (parts': seq<Cond>, params': seq<Value>)
    ensures var clause := InClause(Col(I, Status), StatusTexts(f.statuses));
      parts' == parts + Conds(clause) && params' == params + Args(clause)
  {
    parts', params' := parts, params;
    StatusTextsLength(f.statuses);
    if f.statuses != [] {
      parts' := parts' + [In(Col(I, Status), HoleList(|f.statuses|))];
      params' := PushStatuses(params', f.statuses);
    }
  }

  method PushCategories(f: Filter, parts: seq<Cond>, params: seq<Value>)
    returns (parts': seq<Cond>, params': seq<Value>)
    ensures parts' == parts + Conds(CategoryClauses(f)) && params' == params + Args(CategoryClauses(f))
  {
    parts', params' := parts, params;
    if f.categories != [] {
      parts' := parts' + [Exists(CategoriesTable, NcCat,
        And(OnAddress(NcCat), In(Col(NcCat, Category), HoleList(|f.categories|))))];
      params' := params' + [Text(ScopeText(f.kind))];
      params' := PushTexts(params', f.categories);
      Associate(params, ScopeArg(f), TextList(f.categories));
      OneClause(CategoryClauses(f)[0]);
    }
  }

  // ----- one predicate after another -----

  method NextText(f: Filter, ghost k: nat, ghost base: seq<Value>, e: Expr, needle: Option<string>,
                  parts: seq<Cond>, params: seq<Value>) returns (parts': seq<Cond>, params': seq<Value>)
    requires k < SEGMENTS && Pushed(f, k, base, parts, params) && Segment(f, k) == TextClause(e, needle)
    ensures Pushed(f, k + 1, base, parts', params')
  {
    parts', params' := PushText(e, needle, parts, params);
    PushStep(f, k, base, parts, params, parts', params');
  }

  method NextEq(f: Filter, ghost k: nat, ghost base: seq<Value>, e: Expr, wanted: Option<string>,
                parts: seq<Cond>, params: seq<Value>) returns (parts': seq<Cond>, params': seq<Value>)
    requires k < SEGMENTS && Pushed(f, k, base, parts, params) && Segment(f, k) == EqClause(e, wanted)
    ensures Pushed(f, k + 1, base, parts', params')
  {
    parts', params' := PushEq(e, wanted, parts, params);
    PushStep(f, k, base, parts, params, parts', params');
  }

  method NextIn(f: Filter, ghost k: nat, ghost base: seq<Value>, e: Expr, wanted: seq<string>,
                parts: seq<Cond>, params: seq<Value>) returns (parts': seq<Cond>, params': seq<Value>)
    requires k < SEGMENTS && Pushed(f, k, base, parts, params) && Segment(f, k) == InClause(e, wanted)
    ensures Pushed(f, k + 1, base, parts', params')
  {
    parts', params' := PushIn(e, wanted, parts, params);
    PushStep(f, k, base, parts, params, parts', params');
  }

  method PushFirstThree(f: Filter, base: seq<Value>) returns (parts: seq<Cond>, params: seq<Value>)
    ensures Pushed(f, 3, base, parts, params)
  {
    NothingPushed(f, base);
    var p0, q0 := NextText(f, 0, base, AttrExpr(f, Title), f.titleSubstring, [], base);
    var p1, q1 := PushContributor(f, p0, q0);
    PushStep(f, 1, base, p0, q0, p1, q1);
    parts, params := PushStatusIn(f, p1, q1);
    PushStep(f, 2, base, p1, q1, parts, params);
  }

  lemma NothingPushed(f: Filter, base: seq<Value>)
    ensures Pushed(f, 0, base, [], base)
  {
  }

  method PushNextThree(f: Filter, ghost base: seq<Value>, p2: seq<Cond>, q2: seq<Value>)
    returns (parts: seq<Cond>, params: seq<Value>)
    requires Pushed(f, 3, base, p2, q2)
    ensures Pushed(f, 6, base, parts, params)
  {
    parts, params := NextEq(f, 3, base, Col(I, Format), f.format, p2, q2);
    parts, params := NextIn(f, 4, base, Col(Npa, Attr(Confidence)), f.confidenceIn, parts, params);
    parts, params := NextIn(f, 5, base, ReviewExpr, f.reviewStatusIn, parts, params);
  }

  method PushThreeMore(f: Filter, ghost base: seq<Value>, p5: seq<Cond>, q5: seq<Value>)
    returns (parts: seq<Cond>, params: seq<Value>)
    requires Pushed(f, 6, base, p5, q5)
    ensures Pushed(f, 9, base, parts, params)
  {
    parts, params := NextEq(f, 6, base, AttrExpr(f, Year), f.year, p5, q5);
    parts, params := NextText(f, 7, base, AttrExpr(f, ContainerTitle), f.venueSubstring, parts, params);
    parts, params := NextEq(f, 8, base, AttrExpr(f, Doi), f.doi, parts, params);
  }

  method PushLastTwo(f: Filter, ghost base: seq<Value>, p8: seq<Cond>, q8: seq<Value>)
    returns (parts: seq<Cond>, params: seq<Value>)
    requires Pushed(f, 9, base, p8, q8)
    ensures Pushed(f, SEGMENTS, base, parts, params)
  {
    var p9, q9 := NextIn(f, 9, base, AttrExpr(f, Language), f.language, p8, q8);
    parts, params := PushCategories(f, p9, q9);
    PushStep(f, 10, base, p9, q9, parts, params);
  }

  /** The fragments: every `?` and its parameter are pushed in the same order. */
  method BuildFilterFragments(f: Filter) returns (parts: seq<Cond>, joins: seq<Join>, params: seq<Value>)
    ensures joins == Joins(JoinClauses(f))
    ensures parts == Conds(WhereClauses(f))
    ensures params == Params(f)
  {
    joins, params := BuildJoins(f);
    ghost var base := params;
    parts, params := PushFirstThree(f, params);
    parts, params := PushNextThree(f, base, parts, params);
    parts, params := PushThreeMore(f, base, parts, params);
    parts, params := PushLastTwo(f, base, parts, params);
    assert Segments(f)[..SEGMENTS] == Segments(f);
  }

  // ----- the handle -----

  lemma TwoPushes(params: seq<Value>, a: Value, b: Value)
    ensures params + [a] + [b] == params + [a, b]
  {
  }

  class Catalog {
    var db: Db

    constructor (db: Db)
      ensures this.db == db
    {
      this.db := db;
    }

    /** One page of the intakes the filter selects, by ascending id. */
    method FindIntakes(f: Filter, limit: nat, offset: nat) returns (r: Result<seq<FoundIntake>, SqlError>)
      requires Keyed(db)
      ensures ReadsBack(Slice(Found(db, f), limit, offset), r)
    {
      if limit == 0 {
        return Ok([]);
      }
      var parts, joins, params := BuildFilterFragments(f);
      params := params + [Int(limit)];
      params := params + [Int(offset)];
      var rows := Query(db, f, limit, offset, SelectStmt(joins, parts, f.contributorName.Some?, Hole, Hole), params);
      r := ReadRows(rows);
    }

    /** Runs the prepared statement: it has all its parameters, and answers the slice of the documented result. */
    static method Query(db: Db, ghost f: Filter, ghost limit: nat, ghost offset: nat, q: SelectStmt, params: seq<Value>)
      returns (rows: seq<IntakeRow>)
      requires Keyed(db) && q == Select(f) && params == Params(f) + [Int(limit)] + [Int(offset)]
      ensures rows == Slice(Found(db, f), limit, offset)
    {
      TwoPushes(Params(f), Int(limit), Int(offset));
      SelectMeans(db, f, limit, offset);
      rows := RunSelect(db, q, params).value;
    }

    static method ReadRows(rows: seq<IntakeRow>) returns (r: Result<seq<FoundIntake>, SqlError>)
      ensures ReadsBack(rows, r)
    {
      var out: seq<FoundIntake> := [];
      for i := 0 to |rows|
        invariant |out| == i
        invariant forall j :: 0 <= j < i ==> Written(out[j]) == rows[j]
      {
        match Decode(rows[i])
        case Err(e) =>
          assert forall j :: 0 <= j < i ==> StatusText(out[j].status) == rows[j].status;
          return Err(e);
        case Ok(x) => out := out + [x];
      }
      return Ok(out);
    }

    /** How many intakes the filter selects, however many contributors each has. */
    method CountFindIntakes(f: Filter) returns (r: Result<nat, SqlError>)
      requires Keyed(db)
      ensures r == Ok(|Found(db, f)|)
    {
      var parts, joins, params := BuildFilterFragments(f);
      CountMeans(db, f);
      r := RunCount(db, CountStmt(joins, parts), params);
    }

    /** A page and the total, both of one snapshot. */
    method FindIntakesPage(f: Filter, limit: nat, offset: nat) returns (r: Result<(seq<FoundIntake>, nat), SqlError>)
      requires Keyed(db)
      ensures r.Ok? ==> ReadsBack(Slice(Found(db, f), limit, offset), Ok(r.value.0)) && r.value.1 == |Found(db, f)|
      ensures r.Err? ==> ReadsBack(Slice(Found(db, f), limit, offset), Err(r.error))
    {
      var total := CountFindIntakes(f);
      var page := FindIntakes(f, limit, offset);
      match page
      case Err(e) => r := Err(e);
      case Ok(rows) => r := Ok((rows, total.value));
    }

    /** The set base columns of a node, with some overrides applied on top. */
    method Merge(id: int, scope: string, overs: seq<NodeOverride>) returns (fields: Fields, ghost base: Fields)
      ensures forall f :: Get(base, f) == BaseValue(db, id, scope, f)
      ensures forall f :: Get(fields, f) == Overridden(base, overs, f)
    {
      fields := map[];
      match Lookup(db.attrs, AttrsKey, (id, scope)) {
        case Some(row) => fields := BaseFields(row);
        case None =>
      }
      base := fields;
      fields := ApplyOverrides(fields, overs);
    }

    /** The effective metadata of one node. */
    method EffectivePublicationAttrs(intakeId: int, kind: ItemKind) returns (r: EffectiveAttrs)
      requires Keyed(db)
      ensures r.intakeId == intakeId && r.scope == ScopeText(kind)
      ensures IsEffective(r.fields, db, intakeId, ScopeText(kind))
      ensures forall f: Filter, field ::
        f.kind == kind && f.layer == MatchLayer.Effective ==>
          JudgedValue(db, f, intakeId, field) == Get(r.fields, field)
    {
      var scope := ScopeText(kind);
      var fields, base := Merge(intakeId, scope, OverridesFor(db.overrides, intakeId, scope));
      forall f ensures Get(fields, f) == EffectiveValue(db, intakeId, scope, f) {
        MergeIsEffective(db, intakeId, scope, base, OverridesFor(db.overrides, intakeId, scope), f);
      }
      r := EffectiveAttrs(intakeId, scope, fields);
    }

    /** The override rows of each id that has any, grouped by id and ordered by field. */
    method OverridesForAddresses(ids: seq<int>, scope: string) returns (out: map<int, seq<NodeOverride>>)
      ensures forall id :: id in out <==> id in ids && OverridesFor(db.overrides, id, scope) != []
      ensures forall id :: id in out ==> multiset(out[id]) == multiset(OverridesFor(db.overrides, id, scope))
      ensures forall id, i, j :: id in out && 0 <= i < j < |out[id]| ==>
        StringLe(FieldName(out[id][i].field), FieldName(out[id][j].field))
    {
      out := map[];
      var rows := StableSort(db.overrides, ByIntakeAndField);
      for i := 0 to |rows|
        invariant Grouped(out, ids, rows[..i], scope)
      {
        assert rows[..i + 1] == rows[..i] + [rows[i]];
        OneMoreGrouped(out, ids, rows[..i], rows[i], scope);
        if rows[i].scope == scope && rows[i].intakeId in ids {
          var id := rows[i].intakeId;
          out := out[id := (if id in out then out[id] else []) + [rows[i]]];
        }
      }
      assert rows[..|rows|] == rows;
      GroupedInOrder(out, ids, db.overrides, scope);
    }

    /** The effective metadata of many nodes, merged in memory. */
    method EffectivePublicationAttrsForIntakes(ids: seq<int>, kind: ItemKind) returns (out: map<int, EffectiveAttrs>)
      requires Keyed(db)
      ensures out.Keys == set id | id in ids
      ensures forall id :: id in out ==> BatchEntry(db, ids, id, ScopeText(kind), out[id])
      ensures AllEffective(db, ScopeText(kind), out) <==> !LosesAnOverride(db, ids, ScopeText(kind))
    {
      out := map[];
      var scope := ScopeText(kind);
      if ids != [] {
        var pending := OverridesForAddresses(ids, scope);
        for i := 0 to |ids|
          invariant BatchOf(db, ids[..i], scope, out)
          invariant StillPending(db, ids, i, scope, pending)
        {
          var id := ids[i];
          var overs := if id in pending then pending[id] else [];
          OneLessPending(db, ids, i, scope, pending);
          pending := pending - {id};
          var fields, base := Merge(id, scope, overs);
          BatchStep(db, ids, i, scope, base, overs, fields);
          OneMoreEntry(db, ids, i, scope, out, EffectiveAttrs(id, scope, fields));
          out := out[id := EffectiveAttrs(id, scope, fields)];
        }
        assert ids[..|ids|] == ids;
      }
      BatchIsEffective(db, ids, scope, out);
    }

    /** Insert or replace the base row of a node: each value is read back under its name, and no other node changes. */
    method UpsertPublicationAttrs(id: int, kind: ItemKind, values: Fields, extrasJson: Option<string>)
      requires Keyed(db)
      modifies this
      ensures Keyed(db) && db == old(db).(attrs := db.attrs)
      ensures forall f :: BaseValue(db, id, ScopeText(kind), f) == if f.Other? then None else Get(values, f)
      ensures forall a: Address, f :: a != (id, ScopeText(kind)) ==>
        BaseValue(db, a.0, a.1, f) == BaseValue(old(db), a.0, a.1, f)
    {
      ghost var before := db;
      var row := RowOf(id, ScopeText(kind), values, extrasJson);
      PutAttrs(row);
      forall f ensures BaseValue(db, id, ScopeText(kind), f) == if f.Other? then None else Get(values, f) {
        ColumnsReadBack(id, ScopeText(kind), values, extrasJson, f);
      }
    }

    method PutAttrs(row: PublicationAttrs)
      requires Keyed(db)
      modifies this
      ensures Keyed(db) && db == old(db).(attrs := db.attrs)
      ensures forall a: Address :: (Lookup(db.attrs, AttrsKey, a)
        == if a == AttrsKey(row) then Some(row) else Lookup(old(db).attrs, AttrsKey, a))
    {
      ghost var before := db;
      WithRowStaysKeyed(db.attrs, AttrsKey, row);
      db := db.(attrs := WithRow(db.attrs, AttrsKey, row));
      forall a: Address ensures Lookup(db.attrs, AttrsKey, a)
        == if a == AttrsKey(row) then Some(row) else Lookup(before.attrs, AttrsKey, a)
      {
        WithRowLooksUp(before.attrs, AttrsKey, row, a);
      }
    }

    /**
     Overwrite the audit pair of a node and nothing else; a node without a base row
     gets one that has only the pair.
     */
    method UpdateAuditRollup(id: int, kind: ItemKind, confidence: string, verdict: string)
      requires Keyed(db)
      modifies this
      ensures Keyed(db) && db == old(db).(attrs := db.attrs)
      ensures BaseValue(db, id, ScopeText(kind), Confidence) == Some(confidence)
      ensures BaseValue(db, id, ScopeText(kind), AuditVerdict) == Some(verdict)
      ensures forall a: Address, f :: a != (id, ScopeText(kind)) || f !in {Confidence, AuditVerdict} ==>
        BaseValue(db, a.0, a.1, f) == BaseValue(old(db), a.0, a.1, f)
    {
      match Lookup(db.attrs, AttrsKey, (id, ScopeText(kind)))
      case Some(row) =>
        PutAttrs(row.(confidence := Some(confidence), auditVerdict := Some(verdict)));
      case None =>
        UpsertPublicationAttrs(id, kind, map[Confidence := confidence, AuditVerdict := verdict], None);
    }

    /** Insert or replace one override. */
    method SetOverride(o: NodeOverride)
      requires Keyed(db)
      modifies this
      ensures Keyed(db) && db == old(db).(overrides := WithRow(old(db).overrides, OverrideKey, o))
      ensures forall id, scope, f ::
        EffectiveValue(db, id, scope, f)
        == if (id, scope, f) == OverrideKey(o) then o.value else EffectiveValue(old(db), id, scope, f)
    {
      ghost var before := db;
      WithRowStaysKeyed(db.overrides, OverrideKey, o);
      db := db.(overrides := WithRow(db.overrides, OverrideKey, o));
      forall id, scope, f ensures EffectiveValue(db, id, scope, f) ==
        if (id, scope, f) == OverrideKey(o) then o.value else EffectiveValue(before, id, scope, f)
      {
        WithRowLooksUp(before.overrides, OverrideKey, o, (id, scope, f));
      }
    }

    /** Remove an override: the field falls back to its base value. */
    method ClearOverride(intakeId: int, kind: ItemKind, field: Field) returns (existed: bool)
      requires Keyed(db)
      modifies this
      ensures Keyed(db) && existed == Lookup(old(db).overrides, OverrideKey, (intakeId, ScopeText(kind), field)).Some?
      ensures db == old(db).(overrides := ClearRow(old(db).overrides, (intakeId, ScopeText(kind), field)))
      ensures EffectiveValue(db, intakeId, ScopeText(kind), field) ==
        BaseValue(old(db), intakeId, ScopeText(kind), field)
      ensures forall id, scope, f ::
        (id, scope, f) == (intakeId, ScopeText(kind), field)
        || EffectiveValue(db, id, scope, f) == EffectiveValue(old(db), id, scope, f)
    {
      ghost var before := db;
      var k := (intakeId, ScopeText(kind), field);
      existed := Lookup(db.overrides, OverrideKey, k).Some?;
      db := db.(overrides := ClearRow(db.overrides, k));
      forall id, scope, f ensures EffectiveValue(db, id, scope, f) ==
        if (id, scope, f) == k then BaseValue(before, id, scope, f) else EffectiveValue(before, id, scope, f)
      {
        ClearRowLooksUp(before.overrides, k, (id, scope, f));
      }
      ClearRowLooksUp(before.overrides, k, k);
    }
  }

  /** The map holds the overrides of each requested id that has any among these rows. */
  ghost predicate Grouped(out: map<int, seq<NodeOverride>>, ids: seq<int>, rows: seq<NodeOverride>, scope: string) {
    forall id {:trigger OverridesFor(rows, id, scope)} ::
      && (id in out <==> id in ids && OverridesFor(rows, id, scope) != [])
      && (id in out ==> out[id] == OverridesFor(rows, id, scope))
  }

  function WithOverride(out: map<int, seq<NodeOverride>>, ids: seq<int>, o: NodeOverride, scope: string)
    : map<int, seq<NodeOverride>>
  {
    if o.scope == scope && o.intakeId in ids
    then out[o.intakeId := (if o.intakeId in out then out[o.intakeId] else []) + [o]]
    else out
  }

  lemma OneMoreGrouped(out: map<int, seq<NodeOverride>>, ids: seq<int>, rows: seq<NodeOverride>, o: NodeOverride,
                       scope: string)
    requires Grouped(out, ids, rows, scope)
    ensures Grouped(WithOverride(out, ids, o, scope), ids, rows + [o], scope)
  {
    var more, all := WithOverride(out, ids, o, scope), rows + [o];
    forall id {:trigger OverridesFor(all, id, scope)}
      ensures id in more <==> id in ids && OverridesFor(all, id, scope) != []
      ensures id in more ==> more[id] == OverridesFor(all, id, scope)
    {
      OverridesForSnoc(rows, o, id, scope);
      assert OverridesFor(rows, id, scope) + [] == OverridesFor(rows, id, scope);
    }
  }

  lemma GroupedInOrder(out: map<int, seq<NodeOverride>>, ids: seq<int>, rows: seq<NodeOverride>, scope: string)
    requires Grouped(out, ids, StableSort(rows, ByIntakeAndField), scope)
    ensures forall id :: id in out <==> id in ids && OverridesFor(rows, id, scope) != []
    ensures forall id :: id in out ==> SameOverrides(out[id], OverridesFor(rows, id, scope))
  {
    forall id
      ensures SameOverrides(OverridesFor(StableSort(rows, ByIntakeAndField), id, scope), OverridesFor(rows, id, scope))
    {
      SortedOverrides(rows, id, scope);
    }
  }

  /** The same rows, now by field. */
  ghost predicate SameOverrides(overs: seq<NodeOverride>, rows: seq<NodeOverride>) {
    && multiset(overs) == multiset(rows)
    && (overs == [] <==> rows == [])
    && forall i, j :: 0 <= i < j < |overs| ==> StringLe(FieldName(overs[i].field), FieldName(overs[j].field))
  }

  lemma SortedOverrides(rows: seq<NodeOverride>, id: int, scope: string)
    ensures SameOverrides(OverridesFor(StableSort(rows, ByIntakeAndField), id, scope), OverridesFor(rows, id, scope))
  {
    var overs, unsorted := OverridesFor(StableSort(rows, ByIntakeAndField), id, scope), OverridesFor(rows, id, scope);
    forall o ensures multiset(overs)[o] == multiset(unsorted)[o] {
      OverridesCounted(StableSort(rows, ByIntakeAndField), id, scope, o);
      OverridesCounted(rows, id, scope, o);
    }
    assert multiset(overs) == multiset(unsorted);
    assert |multiset(overs)| == |overs| && |multiset(unsorted)| == |unsorted|;
    ByIntakeAndFieldOrders();
    SortSorts(rows, ByIntakeAndField);
    OverridesStaySorted(StableSort(rows, ByIntakeAndField), id, scope);
    SortedByField(overs, id);
  }

  lemma SortedByField(overs: seq<NodeOverride>, id: int)
    requires Sorted(overs, ByIntakeAndField) && forall o :: o in overs ==> o.intakeId == id
    ensures forall i, j :: 0 <= i < j < |overs| ==> StringLe(FieldName(overs[i].field), FieldName(overs[j].field))
  {
    forall i, j | 0 <= i < j < |overs| ensures StringLe(FieldName(overs[i].field), FieldName(overs[j].field)) {
      assert ByIntakeAndField(overs[i], overs[j]) && overs[i] in overs && overs[j] in overs;
    }
  }

  lemma {:induction false} OverridesForSnoc(rows: seq<NodeOverride>, last: NodeOverride, id: int, scope: string)
    ensures OverridesFor(rows + [last], id, scope)
         == OverridesFor(rows, id, scope) + (if last.intakeId == id && last.scope == scope then [last] else [])
  {
    if rows == [] {
      assert rows + [last] == [last];
    } else {
      SplitFirst(rows, [last]);
      OverridesForSnoc(rows[1..], last, id, scope);
      Associate([rows[0]], OverridesFor(rows[1..], id, scope),
        if last.intakeId == id && last.scope == scope then [last] else []);
    }
  }

  /** One entry of the batch map, for the part of the input the loop has seen. */
  ghost predicate BatchEntry(db: Db, ids: seq<int>, id: int, scope: string, entry: EffectiveAttrs) {
    && entry.intakeId == id && entry.scope == scope
    && forall f :: Get(entry.fields, f) == BatchValue(db, ids, id, scope, f)
  }

  /** The overrides not consumed yet: those of the ids the loop has still to meet. */
  ghost predicate StillPending(db: Db, ids: seq<int>, i: nat, scope: string, pending: map<int, seq<NodeOverride>>)
    requires i <= |ids|
  {
    && (forall id :: id in pending <==> id in ids && id !in ids[..i] && OverridesFor(db.overrides, id, scope) != [])
    && (forall id :: id in pending ==> multiset(pending[id]) == multiset(OverridesFor(db.overrides, id, scope)))
  }

  lemma OneLessPending(db: Db, ids: seq<int>, i: nat, scope: string, pending: map<int, seq<NodeOverride>>)
    requires i < |ids| && StillPending(db, ids, i, scope, pending)
    ensures StillPending(db, ids, i + 1, scope, pending - {ids[i]})
    ensures multiset(if ids[i] in pending then pending[ids[i]] else [])
         == multiset(if ids[i] in ids[..i] then [] else OverridesFor(db.overrides, ids[i], scope))
  {
    forall id ensures id in ids[..i + 1] <==> id in ids[..i] || id == ids[i] {
      assert ids[..i + 1] == ids[..i] + [ids[i]];
    }
    assert ids[i] in ids;
    if ids[i] !in pending && ids[i] !in ids[..i] {
      assert OverridesFor(db.overrides, ids[i], scope) == [];
    }
  }

  ghost predicate BatchOf(db: Db, ids: seq<int>, scope: string, out: map<int, EffectiveAttrs>) {
    out.Keys == (set id | id in ids) && forall id :: id in out ==> BatchEntry(db, ids, id, scope, out[id])
  }

  lemma OneMoreEntry(db: Db, ids: seq<int>, i: nat, scope: string, out: map<int, EffectiveAttrs>, entry: EffectiveAttrs)
    requires i < |ids| && BatchOf(db, ids[..i], scope, out) && BatchEntry(db, ids[..i + 1], ids[i], scope, entry)
    ensures BatchOf(db, ids[..i + 1], scope, out[ids[i] := entry])
  {
    assert ids[..i + 1] == ids[..i] + [ids[i]];
    forall other | other in out && other != ids[i] ensures BatchEntry(db, ids[..i + 1], other, scope, out[other]) {
      BatchOthers(db, ids, i, scope, other, out[other]);
    }
  }

  /** Every entry of the batch is what asking for its id alone would give. */
  ghost predicate AllEffective(db: Db, scope: string, out: map<int, EffectiveAttrs>) {
    forall id :: id in out ==> IsEffective(out[id].fields, db, id, scope)
  }

  lemma BatchIsEffective(db: Db, ids: seq<int>, scope: string, out: map<int, EffectiveAttrs>)
    requires Keyed(db) && out.Keys == set id | id in ids
    requires forall id :: id in out ==> BatchEntry(db, ids, id, scope, out[id])
    ensures AllEffective(db, scope, out) <==> !LosesAnOverride(db, ids, scope)
  {
    BatchEqualsSingle(db, ids, scope);
    if AllEffective(db, scope, out) {
      forall id, f | id in ids ensures BatchValue(db, ids, id, scope, f) == EffectiveValue(db, id, scope, f) {
        assert id in out.Keys && BatchEntry(db, ids, id, scope, out[id]) && IsEffective(out[id].fields, db, id, scope);
      }
    }
    if !LosesAnOverride(db, ids, scope) {
      forall id | id in out ensures IsEffective(out[id].fields, db, id, scope) {
        assert id in ids && BatchEntry(db, ids, id, scope, out[id]);
      }
    }
  }

  lemma BatchStep(db: Db, ids: seq<int>, i: nat, scope: string, base: Fields, overs: seq<NodeOverride>, fields: Fields)
    requires Keyed(db) && i < |ids|
    requires forall f :: Get(base, f) == BaseValue(db, ids[i], scope, f)
    requires forall f :: Get(fields, f) == Overridden(base, overs, f)
    requires multiset(overs) == multiset(if ids[i] in ids[..i] then [] else OverridesFor(db.overrides, ids[i], scope))
    ensures BatchEntry(db, ids[..i + 1], ids[i], scope, EffectiveAttrs(ids[i], scope, fields))
  {
    assert ids[..i + 1] == ids[..i] + [ids[i]];
    forall f ensures Get(fields, f) == BatchValue(db, ids[..i + 1], ids[i], scope, f) {
      if ids[i] !in ids[..i] {
        forall o ensures o in overs <==> o in OverridesFor(db.overrides, ids[i], scope) {
          assert o in overs <==> o in multiset(overs);
        }
        MergeIsEffective(db, ids[i], scope, base, overs, f);
      }
    }
  }

  lemma BatchOthers(db: Db, ids: seq<int>, i: nat, scope: string, other: int, entry: EffectiveAttrs)
    requires i < |ids| && other != ids[i] && BatchEntry(db, ids[..i], other, scope, entry)
    ensures BatchEntry(db, ids[..i + 1], other, scope, entry)
  {
    assert ids[..i + 1] == ids[..i] + [ids[i]];
    forall f ensures BatchValue(db, ids[..i + 1], other, scope, f) == BatchValue(db, ids[..i], other, scope, f) {
    }
  }
}
