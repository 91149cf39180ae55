/**
 Finding, counting and paging intakes: the queries run on the compiled filter
 return exactly the intakes the filter is documented to select.
 */
module Intake {
  import opened Prelude
  import opened Tables
  import opened Sql
  import opened SqlFacts
  import opened IntakeFilter
  import opened IntakeMeaning
  import Like

  // ----- what the statements select -----

  function BoundFrom(f: Filter): seq<Join> {
    ClausesBindable(f);
    BoundJoins(JoinClauses(f))
  }

  function BoundWhere(f: Filter): seq<Cond> {
    ClausesBindable(f);
    Bound(WhereClauses(f))
  }

  ghost predicate AtAddress(f: Filter, r: IntakeRow, c: NodeContributor) {
    c.intakeId == r.intakeId && c.scope == ScopeText(f.kind)
  }

  /** The contributor slot of a joined row: a contributor of the address, or a null row. */
  ghost predicate ContributorSlot(db: Db, f: Filter, r: IntakeRow, env: Env) {
    && Nc in env
    && match env[Nc]
       case NullRow => true
       case ContributorR(c) => c in db.contributors && AtAddress(f, r, c)
       case _ => false
  }

  function ContributorJoin(f: Filter): Join {
    LeftJoin(ContributorsTable, Nc, OnBound(f, Nc))
  }

  lemma ContributorJoinBound(f: Filter)
    requires f.contributorName.Some?
    ensures JoinsBindable(ContributorJoins(f)) && BoundJoins(ContributorJoins(f)) == [ContributorJoin(f)]
  {
    FillOnAddress(f, Nc);
  }

  /** The join condition accepts the contributors of the address. */
  lemma ContributorAccepted(db: Db, f: Filter, r: IntakeRow, left: Env, i: nat)
    requires I in left && left[I] == IntakeR(r) && i < |db.contributors|
    ensures Accepts(db, ContributorJoin(f), left, Scan(db, ContributorsTable)[i]) <==>
      AtAddress(f, r, db.contributors[i])
  {
    OnBoundHolds(db, f, Nc, left[Nc := Scan(db, ContributorsTable)[i]], r);
  }

  lemma ContributorMatches(db: Db, f: Filter, r: IntakeRow, left: Env)
    requires I in left && left[I] == IntakeR(r)
    ensures var found := Matching(db, ContributorJoin(f), left, Scan(db, ContributorsTable));
      && (forall e :: e in found ==> ContributorSlot(db, f, r, e) && e == left[Nc := e[Nc]])
      && (forall c :: c in db.contributors && AtAddress(f, r, c) ==> left[Nc := ContributorR(c)] in found)
  {
    var scan := Scan(db, ContributorsTable);
    var j := ContributorJoin(f);
    MatchingIsTheAccepted(db, j, left, scan);
    forall i | 0 <= i < |scan| ensures Accepts(db, j, left, scan[i]) <==> AtAddress(f, r, db.contributors[i]) {
      ContributorAccepted(db, f, r, left, i);
    }
    forall c | c in db.contributors && AtAddress(f, r, c)
      ensures left[Nc := ContributorR(c)] in Matching(db, j, left, scan)
    {
      var i :| 0 <= i < |db.contributors| && db.contributors[i] == c;
      assert Accepts(db, j, left, scan[i]);
    }
  }

  /** The contributor join fans out to the contributors of the address, or to one null row. */
  lemma ContributorJoined(db: Db, f: Filter, r: IntakeRow, left: Env)
    requires f.contributorName.Some? && I in left && left[I] == IntakeR(r)
    ensures JoinsBindable(ContributorJoins(f))
    ensures var out := JoinAll(db, BoundJoins(ContributorJoins(f)), [left]);
      && out != []
      && (forall e :: e in out ==> ContributorSlot(db, f, r, e) && e == left[Nc := e[Nc]])
      && (forall c :: c in db.contributors && AtAddress(f, r, c) ==> left[Nc := ContributorR(c)] in out)
  {
    ContributorJoinBound(f);
    ContributorMatches(db, f, r, left);
    JoinOneOnly(db, ContributorJoin(f), left);
  }

  lemma JoinOneOnly(db: Db, j: Join, left: Env)
    ensures JoinAll(db, [j], [left]) == JoinOne(db, j, left)
  {
    assert JoinAll(db, [j], [left]) == JoinAll(db, [], JoinEach(db, j, [left]));
    assert JoinEach(db, j, [left]) == JoinOne(db, j, left) + JoinEach(db, j, []);
  }

  /** The FROM clause in three parts: base and override rows, then contributors, then the review. */
  lemma FromInTurn(db: Db, f: Filter, r: IntakeRow)
    requires Keyed(db)
    ensures JoinsBindable(ContributorJoins(f)) && JoinsBindable(ReviewJoins(f))
    ensures JoinAll(db, BoundFrom(f), Single(r))
         == JoinAll(db, BoundJoins(ReviewJoins(f)), JoinAll(db, BoundJoins(ContributorJoins(f)), [Left(db, f, r)]))
  {
    var a, c, v := NpaJoins(f) + OverrideJoins(f, OverriddenColumns(f)), ContributorJoins(f), ReviewJoins(f);
    LeftJoined(db, f, r);
    OwnJoinsBindable(f);
    BoundJoinsAppend(a, c);
    BoundJoinsAppend(a + c, v);
    JoinAllThree(db, BoundJoins(a), BoundJoins(c), BoundJoins(v), Single(r));
  }

  lemma JoinAllThree(db: Db, a: seq<Join>, b: seq<Join>, c: seq<Join>, envs: seq<Env>)
    ensures JoinAll(db, a + b + c, envs) == JoinAll(db, c, JoinAll(db, b, JoinAll(db, a, envs)))
  {
    JoinAllInTurn(db, a, b, envs);
    JoinAllInTurn(db, a + b, c, envs);
  }

  lemma LeftIsOfTheIntake(db: Db, f: Filter, r: IntakeRow)
    ensures I in Left(db, f, r) && Left(db, f, r)[I] == IntakeR(r)
  {
    OverridesJoined(db, f, r, OverriddenColumns(f), WithNpa(db, f, r));
  }

  /** The rows one intake row is joined with: all depict it, and its contributors are all there. */
  ghost predicate JoinedRows(db: Db, f: Filter, r: IntakeRow, out: seq<Env>) {
    && (forall e :: e in out ==> Depicts(db, f, r, e))
    && (f.contributorName.None? ==> |out| == 1)
    && (f.contributorName.Some? ==>
          && (forall e :: e in out ==> ContributorSlot(db, f, r, e))
          && (forall c :: c in db.contributors && AtAddress(f, r, c) ==> HasSlot(out, ContributorR(c))))
  }

  ghost predicate HasSlot(out: seq<Env>, nc: Row) {
    exists e :: e in out && Nc in e && e[Nc] == nc
  }

  /** The rows before the review join are the left side, with a contributor slot if one is asked for. */
  ghost predicate MidRows(db: Db, f: Filter, r: IntakeRow, mid: seq<Env>) {
    && CarryIntake(mid, r)
    && (forall e :: e in mid ==> e == Left(db, f, r) || (Nc in e && e == Left(db, f, r)[Nc := e[Nc]]))
    && (f.contributorName.None? ==> |mid| == 1)
    && (f.contributorName.Some? ==>
          && (forall e :: e in mid ==> ContributorSlot(db, f, r, e))
          && (forall c :: c in db.contributors && AtAddress(f, r, c) ==> HasSlot(mid, ContributorR(c))))
  }

  lemma MidJoined(db: Db, f: Filter, r: IntakeRow)
    requires JoinsBindable(ContributorJoins(f))
    ensures MidRows(db, f, r, JoinAll(db, BoundJoins(ContributorJoins(f)), [Left(db, f, r)]))
  {
    var left := Left(db, f, r);
    LeftIsOfTheIntake(db, f, r);
    var mid := JoinAll(db, BoundJoins(ContributorJoins(f)), [left]);
    if f.contributorName.Some? {
      ContributorJoined(db, f, r, left);
      forall c | c in db.contributors && AtAddress(f, r, c) ensures HasSlot(mid, ContributorR(c)) {
        assert left[Nc := ContributorR(c)] in mid;
      }
    } else {
      assert mid == [left];
    }
  }

  lemma ReviewKeepsRows(db: Db, f: Filter, r: IntakeRow, mid: seq<Env>)
    requires Keyed(db) && MidRows(db, f, r, mid) && JoinsBindable(ReviewJoins(f))
    ensures JoinedRows(db, f, r, JoinAll(db, BoundJoins(ReviewJoins(f)), mid))
  {
    ReviewJoined(db, f, r, mid);
    var out := JoinAll(db, BoundJoins(ReviewJoins(f)), mid);
    forall e | e in out
      ensures Depicts(db, f, r, e) && (f.contributorName.Some? ==> ContributorSlot(db, f, r, e))
    {
      var k :| 0 <= k < |out| && out[k] == e;
      assert mid[k] in mid;
      LeftDepicts(db, f, r, mid[k]);
    }
    if f.contributorName.Some? {
      forall c | c in db.contributors && AtAddress(f, r, c) ensures HasSlot(out, ContributorR(c)) {
        assert HasSlot(mid, ContributorR(c));
        var m :| m in mid && Nc in m && m[Nc] == ContributorR(c);
        var k :| 0 <= k < |mid| && mid[k] == m;
        LeftDepicts(db, f, r, m);
        assert out[k] in out;
      }
    }
  }

  lemma Joined(db: Db, f: Filter, r: IntakeRow)
    requires Keyed(db)
    ensures JoinedRows(db, f, r, JoinAll(db, BoundFrom(f), Single(r)))
  {
    FromInTurn(db, f, r);
    MidJoined(db, f, r);
    ReviewKeepsRows(db, f, r, JoinAll(db, BoundJoins(ContributorJoins(f)), [Left(db, f, r)]));
  }

  lemma Survivor(db: Db, f: Filter, r: IntakeRow, out: seq<Env>, e: Env)
    requires JoinedRows(db, f, r, out) && e in out
    ensures AllHold(db, BoundWhere(f), e)
       <==> SelectsApart(db, f, r) && (f.contributorName.Some? ==> CreditedBy(f, e[Nc]))
    ensures AllHold(db, BoundWhere(f), e) ==> SelectsContributor(db, f, r.intakeId)
  {
    WhereMeans(db, f, r, e);
  }

  lemma SomeoneSurvives(db: Db, f: Filter, r: IntakeRow, out: seq<Env>)
    requires JoinedRows(db, f, r, out) && Selects(db, f, r)
    ensures exists e :: e in out && AllHold(db, BoundWhere(f), e)
  {
    if f.contributorName.Some? {
      var c :| c in db.contributors && c.intakeId == r.intakeId && c.scope == ScopeText(f.kind) && Credits(f, c);
      assert AtAddress(f, r, c);
      assert HasSlot(out, ContributorR(c));
      var e :| e in out && Nc in e && e[Nc] == ContributorR(c);
      Survivor(db, f, r, out, e);
    } else {
      assert out[0] in out;
      Survivor(db, f, r, out, out[0]);
    }
  }

  /** One intake row survives the statement exactly when the filter selects it. */
  lemma FanoutMeans(db: Db, f: Filter, r: IntakeRow)
    requires Keyed(db)
    ensures Fanout(db, BoundFrom(f), BoundWhere(f), r) > 0 <==> Selects(db, f, r)
    ensures f.contributorName.None? ==> Fanout(db, BoundFrom(f), BoundWhere(f), r) <= 1
  {
    var out := JoinAll(db, BoundFrom(f), Single(r));
    Joined(db, f, r);
    FilterMembers(db, BoundWhere(f), out);
    var kept := Sql.Filter(db, BoundWhere(f), out);
    if kept != [] {
      assert kept[0] in kept;
      Survivor(db, f, r, out, kept[0]);
    }
    if Selects(db, f, r) {
      SomeoneSurvives(db, f, r, out);
      var e :| e in out && AllHold(db, BoundWhere(f), e);
      assert e in kept;
    }
  }

  predicate OtherAliases(js: seq<JoinClause>) {
    forall k :: 0 <= k < |js| ==> js[k].join.alias != I
  }

  lemma OtherAliasesAppend(a: seq<JoinClause>, b: seq<JoinClause>)
    requires OtherAliases(a) && OtherAliases(b)
    ensures OtherAliases(a + b)
  {
  }

  lemma {:induction false} BoundJoinsSpareIntake(js: seq<JoinClause>)
    requires JoinsBindable(js) && OtherAliases(js)
    ensures SparesIntake(BoundJoins(js))
  {
    if js != [] {
      BoundJoinsSpareIntake(js[1..]);
    }
  }

  lemma {:induction false} OverrideJoinsSpareIntake(f: Filter, columns: seq<Field>)
    ensures OtherAliases(OverrideJoins(f, columns))
  {
    if columns != [] {
      OverrideJoinsSpareIntake(f, columns[1..]);
    }
  }

  lemma FromSparesIntake(f: Filter)
    ensures SparesIntake(BoundFrom(f))
  {
    ClausesBindable(f);
    var a, b, c, v := NpaJoins(f), OverrideJoins(f, OverriddenColumns(f)), ContributorJoins(f), ReviewJoins(f);
    OverrideJoinsSpareIntake(f, OverriddenColumns(f));
    OtherAliasesAppend(a, b);
    OtherAliasesAppend(a + b, c);
    OtherAliasesAppend(a + b + c, v);
    BoundJoinsSpareIntake(JoinClauses(f));
  }

  // ----- the documented result -----

  function Chosen(db: Db, f: Filter, rows: seq<IntakeRow>): (kept: seq<IntakeRow>)
    ensures forall x :: x in kept <==> x in rows && Selects(db, f, x)
  {
    if rows == [] then []
    else (if Selects(db, f, rows[0]) then [rows[0]] else []) + Chosen(db, f, rows[1..])
  }

  /** The intakes the filter selects, by ascending id. */
  function Found(db: Db, f: Filter): seq<IntakeRow> {
    OrderById(Chosen(db, f, db.intakes))
  }

  /** Whether the filter has a predicate on an attribute an override may replace. */
  predicate Asks(f: Filter, field: Field) {
    match field
    case Title => f.titleSubstring.Some?
    case Year => f.year.Some?
    case ContainerTitle => f.venueSubstring.Some?
    case Doi => f.doi.Some?
    case Language => f.language != []
    case _ => false
  }

  /** On the effective layer an explicit-NULL override keeps its intake out, whatever the base row says. */
  lemma ExplicitNullNeverMatches(db: Db, f: Filter, r: IntakeRow, i: nat)
    requires Keyed(db) && f.layer == Effective && i < |db.overrides|
    requires var o := db.overrides[i];
      o.intakeId == r.intakeId && o.scope == ScopeText(f.kind) && o.value == None && Asks(f, o.field)
    ensures r !in Found(db, f)
  {
    LookupIsTheRow(db.overrides, OverrideKey, i);
    FoundIsExactlyTheSelected(db, f);
  }

  lemma {:induction false} ChosenKeyed(db: Db, f: Filter, rows: seq<IntakeRow>)
    requires Unique(rows, IntakeKey)
    ensures Unique(Chosen(db, f, rows), IntakeKey)
  {
    if rows != [] {
      assert Unique(rows[1..], IntakeKey);
      ChosenKeyed(db, f, rows[1..]);
      var rest := Chosen(db, f, rows[1..]);
      forall j | 0 <= j < |rest| ensures rest[j].intakeId != rows[0].intakeId {
        assert rest[j] in rest;
        var i :| 0 <= i < |rows[1..]| && rows[1..][i] == rest[j];
        assert IntakeKey(rows[0]) != IntakeKey(rows[i + 1]);
      }
    }
  }

  /** Sound, complete, each intake once, ids strictly ascending. */
  lemma FoundIsExactlyTheSelected(db: Db, f: Filter)
    requires Keyed(db)
    ensures forall r :: r in Found(db, f) <==> r in db.intakes && Selects(db, f, r)
    ensures Ascending(Found(db, f))
  {
    ChosenKeyed(db, f, db.intakes);
    OrderedById(Chosen(db, f, db.intakes));
  }

  lemma {:induction false} KeptIsChosen(db: Db, f: Filter, rows: seq<IntakeRow>)
    requires Keyed(db)
    ensures Kept(db, BoundFrom(f), BoundWhere(f), rows) == Chosen(db, f, rows)
  {
    if rows != [] {
      FanoutMeans(db, f, rows[0]);
      KeptIsChosen(db, f, rows[1..]);
    }
  }

  // ----- the statements -----

  function Select(f: Filter): SelectStmt {
    SelectStmt(Joins(JoinClauses(f)), Conds(WhereClauses(f)), f.contributorName.Some?, Hole, Hole)
  }

  function Count(f: Filter): CountStmt {
    CountStmt(Joins(JoinClauses(f)), Conds(WhereClauses(f)))
  }

  /** The rows of the bound statement, grouped when a contributor is asked for, are the chosen intakes. */
  lemma StatementChooses(db: Db, f: Filter)
    requires Keyed(db)
    ensures var rows := Project(Rows(db, BoundFrom(f), BoundWhere(f)));
      && (if f.contributorName.Some? then GroupById(rows) else rows) == Chosen(db, f, db.intakes)
      && Ids(rows) == Ids(Chosen(db, f, db.intakes))
  {
    var js, ws := BoundFrom(f), BoundWhere(f);
    FromSparesIntake(f);
    StatementSpreads(db, js, ws, db.intakes);
    KeptIsChosen(db, f, db.intakes);
    KeptMembers(db, js, ws, db.intakes);
    SameMembersSameIds(Spread(db, js, ws, db.intakes), Kept(db, js, ws, db.intakes));
    if f.contributorName.Some? {
      GroupingKeeps(db, js, ws, db.intakes);
    } else {
      forall r | r in db.intakes ensures Fanout(db, js, ws, r) <= 1 {
        FanoutMeans(db, f, r);
      }
      WithoutFanoutKeeps(db, js, ws, db.intakes);
    }
  }

  /** The statements with their parameters in place. */
  lemma BoundSelect(db: Db, f: Filter, limit: nat, offset: nat)
    ensures RunSelect(db, Select(f), Params(f) + [Int(limit), Int(offset)])
         == Answer(db, BoundFrom(f), BoundWhere(f), f.contributorName.Some?, Int(limit), Int(offset))
  {
    PositionalBinding(f);
    RunSelectSplits(db, Select(f), Params(f), limit, offset);
  }

  lemma BoundCount(db: Db, f: Filter)
    ensures RunCount(db, Count(f), Params(f)) == Ok(|Ids(Project(Rows(db, BoundFrom(f), BoundWhere(f))))|)
  {
    PositionalBinding(f);
  }

  /**
   The compiled SELECT, run with the compiled parameters followed by LIMIT and
   OFFSET, returns that slice of the selected intakes, even though the
   contributor join repeats an intake once for every contributor.
   */
  lemma SelectMeans(db: Db, f: Filter, limit: nat, offset: nat)
    requires Keyed(db)
    ensures RunSelect(db, Select(f), Params(f) + [Int(limit), Int(offset)])
         == Ok(Slice(Found(db, f), limit, offset))
  {
    BoundSelect(db, f, limit, offset);
    StatementChooses(db, f);
  }

  /** The compiled COUNT, run with the same parameters, is the number of selected intakes. */
  lemma CountMeans(db: Db, f: Filter)
    requires Keyed(db)
    ensures RunCount(db, Count(f), Params(f)) == Ok(|Found(db, f)|)
  {
    BoundCount(db, f);
    StatementChooses(db, f);
    ChosenKeyed(db, f, db.intakes);
    CountOfIds(Chosen(db, f, db.intakes));
    OrderedById(Chosen(db, f, db.intakes));
  }

  // ----- paging -----

  /** The pages at offsets 0, limit, 2*limit, ... up to `pages` of them, one after the other. */
  function PagesOf<T>(rows: seq<T>, limit: nat, pages: nat): seq<T> {
    if pages == 0 then [] else PagesOf(rows, limit, pages - 1) + Slice(rows, limit, (pages - 1) * limit)
  }

  lemma {:induction false} PagesArePrefix<T>(rows: seq<T>, limit: nat, pages: nat)
    ensures PagesOf(rows, limit, pages) == rows[..Min(pages * limit, |rows|)]
  {
    if pages > 0 {
      PagesArePrefix(rows, limit, pages - 1);
      var o := (pages - 1) * limit;
      assert pages * limit == o + limit;
      assert 0 <= o by { Times(pages - 1, limit); }
    }
  }

  lemma Times(a: nat, b: nat)
    ensures a * b >= 0
  {
  }

  /** Enough pages give the whole result, without repeats or gaps, and the count is its length. */
  lemma PagingCoversTheResult(db: Db, f: Filter, limit: nat, pages: nat)
    requires Keyed(db) && pages * limit >= |Found(db, f)|
    ensures PagesOf(Found(db, f), limit, pages) == Found(db, f)
    ensures RunCount(db, Count(f), Params(f)) == Ok(|PagesOf(Found(db, f), limit, pages)|)
    ensures Ascending(PagesOf(Found(db, f), limit, pages))
  {
    PagesArePrefix(Found(db, f), limit, pages);
    CountMeans(db, f);
    FoundIsExactlyTheSelected(db, f);
  }
}
