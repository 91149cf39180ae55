/** The compiled filter means what the filter is documented to mean. */
module IntakeMeaning {
  import opened Prelude
  import opened Tables
  import opened Sql
  import opened SqlFacts
  import opened IntakeFilter
  import Like

  // ----- parameters -----

  lemma {:induction false} OverrideJoinsBindable(f: Filter, columns: seq<Field>)
    ensures JoinsBindable(OverrideJoins(f, columns))
  {
    if columns != [] {
      OverrideJoinsBindable(f, columns[1..]);
      assert OverrideJoins(f, columns)[0] == OverrideJoin(f, columns[0]);
    }
  }

  lemma InClauseBindable(e: Expr, wanted: seq<string>)
    requires ExprHoles(e) == 0
    ensures Bindable(InClause(e, wanted))
  {
    FillHoleList(wanted);
  }

  lemma CategoryClausesBindable(f: Filter)
    ensures Bindable(CategoryClauses(f))
  {
    FillHoleList(f.categories);
    if f.categories != [] {
      var list := In(Col(NcCat, Category), HoleList(|f.categories|));
      assert CondHoles(And(OnAddress(NcCat), list)) == 1 + CondHoles(list);
    }
  }

  lemma SegmentBindable(f: Filter, k: nat)
    ensures Bindable(Segment(f, k))
  {
    match k
    case 2 => InClauseBindable(Col(I, Status), StatusTexts(f.statuses));
    case 4 => InClauseBindable(Col(Npa, Attr(Confidence)), f.confidenceIn);
    case 5 => InClauseBindable(ReviewExpr, f.reviewStatusIn);
    case 9 => InClauseBindable(AttrExpr(f, Language), f.language);
    case 0 => case 1 => case 3 => case 6 => case 7 => case 8 =>
    case _ => CategoryClausesBindable(f);
  }

  lemma SegmentsBindable(f: Filter)
    ensures forall k :: 0 <= k < |Segments(f)| ==> Bindable(Segments(f)[k])
  {
    forall k | 0 <= k < SEGMENTS ensures Bindable(Segments(f)[k]) {
      SegmentBindable(f, k);
    }
  }

  lemma ClausesBindable(f: Filter)
    ensures Bindable(WhereClauses(f)) && JoinsBindable(JoinClauses(f))
  {
    SegmentsBindable(f);
    ConcatBindable(Segments(f));
    OverrideJoinsBindable(f, OverriddenColumns(f));
    OwnJoinsBindable(f);
    var a, b, c, v := NpaJoins(f), OverrideJoins(f, OverriddenColumns(f)), ContributorJoins(f), ReviewJoins(f);
    BindableAppend(a, b);
    BindableAppend(a + b, c);
    BindableAppend(a + b + c, v);
  }

  lemma OwnJoinsBindable(f: Filter)
    ensures JoinsBindable(NpaJoins(f)) && JoinsBindable(ContributorJoins(f)) && JoinsBindable(ReviewJoins(f))
  {
  }

  lemma BindableAppend(a: seq<JoinClause>, b: seq<JoinClause>)
    requires JoinsBindable(a) && JoinsBindable(b)
    ensures JoinsBindable(a + b)
  {
  }

  /**
   Positional binding: the parameter list has one entry for each `?`, and the
   statement SQLite runs is the one in which every clause carries its own values.
   */
  lemma PositionalBinding(f: Filter)
    ensures Bindable(WhereClauses(f)) && JoinsBindable(JoinClauses(f))
    ensures var js, cs, ps := Joins(JoinClauses(f)), Conds(WhereClauses(f)), Params(f);
      var n := JoinHoles(js);
      && |ps| == n + WhereHoles(cs)
      && FillJoins(js, ps[..n]) == BoundJoins(JoinClauses(f))
      && FillWhere(cs, ps[n..]) == Bound(WhereClauses(f))
  {
    ClausesBindable(f);
    FillJoinClauses(JoinClauses(f));
    FillClauses(WhereClauses(f));
    var n := JoinHoles(Joins(JoinClauses(f)));
    assert Params(f)[..n] == JoinArgs(JoinClauses(f)) && Params(f)[n..] == Args(WhereClauses(f));
  }

  // ----- WHERE -----

  lemma {:induction false} FillNothing(e: Expr)
    requires ExprHoles(e) == 0
    ensures FillExpr(e, []) == e
  {
    match e
    case CaseWhenNull(t, n, o) =>
      FillNothing(t); FillNothing(n); FillNothing(o);
    case Coalesce(a, b) =>
      FillNothing(a); FillNothing(b);
    case _ =>
  }

  /** The bound join of an address: the row of that address, found by intake id and scope. */
  function OnBound(f: Filter, a: Alias): Cond {
    And(Eq(Col(a, IntakeId), Col(I, IntakeId)), Eq(Col(a, Scope), Lit(Text(ScopeText(f.kind)))))
  }

  lemma FillOnAddress(f: Filter, a: Alias)
    ensures FillCond(OnAddress(a), ScopeArg(f)) == OnBound(f, a)
  {
    var ps := ScopeArg(f);
    assert ps[..0] == [] && ps[0..] == ps;
  }

  lemma OnBoundHolds(db: Db, f: Filter, a: Alias, env: Env, r: IntakeRow)
    requires a in env && I in env && env[I] == IntakeR(r)
    ensures EvalCond(db, OnBound(f, a), env) == Yes
       <==> Cell(env[a], IntakeId) == Int(r.intakeId) && Cell(env[a], Scope) == Text(ScopeText(f.kind))
  {
    assert EvalExpr(Col(I, IntakeId), env) == Int(r.intakeId);
    assert EvalExpr(Col(a, IntakeId), env) == Cell(env[a], IntakeId);
    assert EvalExpr(Col(a, Scope), env) == Cell(env[a], Scope);
  }

  lemma TextClauseHolds(db: Db, e: Expr, needle: Option<string>, env: Env, v: Option<string>)
    requires ExprHoles(e) == 0 && EvalExpr(e, env) == OptText(v)
    ensures Bindable(TextClause(e, needle))
    ensures AllHold(db, Bound(TextClause(e, needle)), env) <==> (needle.Some? ==> HoldsText(v, needle.value))
  {
    if needle.Some? {
      var c := TextClause(e, needle)[0];
      FillNothing(e);
      assert c.args[..0] == [] && c.args[0..] == c.args;
      assert FillCond(c.cond, c.args) == LikeEscape(e, Lit(c.args[0]));
      assert Bound(TextClause(e, needle)) == [LikeEscape(e, Lit(c.args[0]))];
      AllHoldOne(db, LikeEscape(e, Lit(c.args[0])), env);
      if v.Some? {
        Like.EscapingIsExact(needle.value, v.value);
      }
    }
  }

  lemma EqClauseHolds(db: Db, e: Expr, wanted: Option<string>, env: Env, v: Option<string>)
    requires ExprHoles(e) == 0 && EvalExpr(e, env) == OptText(v)
    ensures Bindable(EqClause(e, wanted))
    ensures AllHold(db, Bound(EqClause(e, wanted)), env) <==> (wanted.Some? ==> Holds(v, wanted.value))
  {
    if wanted.Some? {
      var c := EqClause(e, wanted)[0];
      FillNothing(e);
      assert c.args[..0] == [] && c.args[0..] == c.args;
      assert FillCond(c.cond, c.args) == Eq(e, Lit(c.args[0]));
      assert Bound(EqClause(e, wanted)) == [Eq(e, Lit(c.args[0]))];
      AllHoldOne(db, Eq(e, Lit(c.args[0])), env);
    }
  }

  /** An IN list of bound texts accepts a value that is one of them, and nothing else. */
  lemma InTexts(db: Db, e: Expr, es: seq<Expr>, wanted: seq<string>, env: Env, v: Option<string>)
    requires wanted != [] && |es| == |wanted|
    requires forall i :: 0 <= i < |es| ==> es[i] == Lit(Text(wanted[i]))
    requires EvalExpr(e, env) == OptText(v)
    ensures EvalCond(db, In(e, es), env) == Yes <==> HoldsOneOf(v, wanted)
  {
    if HoldsOneOf(v, wanted) {
      var i :| 0 <= i < |wanted| && wanted[i] == v.value;
      assert EvalExpr(es[i], env) == Text(v.value);
    }
  }

  lemma InClauseHolds(db: Db, e: Expr, wanted: seq<string>, env: Env, v: Option<string>)
    requires ExprHoles(e) == 0 && EvalExpr(e, env) == OptText(v)
    ensures Bindable(InClause(e, wanted))
    ensures AllHold(db, Bound(InClause(e, wanted)), env) <==> (wanted != [] ==> HoldsOneOf(v, wanted))
  {
    FillHoleList(wanted);
    if wanted != [] {
      var c := InClause(e, wanted)[0];
      FillNothing(e);
      assert c.args[..0] == [] && c.args[0..] == c.args;
      var es := FillList(HoleList(|wanted|), TextList(wanted));
      assert FillCond(c.cond, c.args) == In(e, es);
      assert Bound(InClause(e, wanted)) == [In(e, es)];
      AllHoldOne(db, In(e, es), env);
      InTexts(db, e, es, wanted, env, v);
    }
  }

  lemma {:induction false} StatusTextsAre(ss: seq<IntakeStatus>, t: string)
    ensures t in StatusTexts(ss) <==> exists s :: s in ss && t == StatusText(s)
    ensures StatusTexts(ss) == [] <==> ss == []
  {
    if ss != [] {
      StatusTextsAre(ss[1..], t);
      if s :| s in ss && t == StatusText(s) && s != ss[0] {
        assert s in ss[1..];
      }
    }
  }

  lemma FillCategoryClause(f: Filter, es: seq<Expr>)
    requires f.categories != []
    requires |TextList(f.categories)| == |f.categories| == ListHoles(HoleList(|f.categories|))
    requires es == FillList(HoleList(|f.categories|), TextList(f.categories))
    ensures Bindable(CategoryClauses(f))
    ensures Bound(CategoryClauses(f))
         == [Exists(CategoriesTable, NcCat, And(OnBound(f, NcCat), In(Col(NcCat, Category), es)))]
  {
    CategoryClausesBindable(f);
    var c := CategoryClauses(f)[0];
    var list := In(Col(NcCat, Category), HoleList(|f.categories|));
    var texts := TextList(f.categories);
    FillOnAddress(f, NcCat);
    assert c.args[..1] == ScopeArg(f) && c.args[1..] == texts;
    assert texts[..0] == [] && texts[0..] == texts;
    assert FillCond(list, texts) == In(Col(NcCat, Category), es);
    assert FillCond(And(OnAddress(NcCat), list), c.args) == And(OnBound(f, NcCat), In(Col(NcCat, Category), es));
    assert Bound([]) == [];
  }

  lemma CategoryClauseHolds(db: Db, f: Filter, env: Env, r: IntakeRow)
    requires I in env && env[I] == IntakeR(r)
    ensures Bindable(CategoryClauses(f))
    ensures AllHold(db, Bound(CategoryClauses(f)), env)
       <==> (f.categories != [] ==> exists t :: t in db.categories && Tags(f, r.intakeId, t))
  {
    if f.categories != [] {
      FillHoleList(f.categories);
      var es := FillList(HoleList(|f.categories|), TextList(f.categories));
      FillCategoryClause(f, es);
      AllHoldOne(db, Exists(CategoriesTable, NcCat, And(OnBound(f, NcCat), In(Col(NcCat, Category), es))), env);
      CategoryExists(db, f, env, r, es);
    }
  }

  lemma CategoryExists(db: Db, f: Filter, env: Env, r: IntakeRow, es: seq<Expr>)
    requires I in env && env[I] == IntakeR(r)
    requires f.categories != [] && |es| == |f.categories|
    requires forall i :: 0 <= i < |es| ==> es[i] == Lit(Text(f.categories[i]))
    ensures var inner := And(OnBound(f, NcCat), In(Col(NcCat, Category), es));
      EvalCond(db, Exists(CategoriesTable, NcCat, inner), env) == Yes
      <==> exists t :: t in db.categories && Tags(f, r.intakeId, t)
  {
    var inner := And(OnBound(f, NcCat), In(Col(NcCat, Category), es));
    var rows := Scan(db, CategoriesTable);
    forall i | 0 <= i < |rows|
      ensures EvalCond(db, inner, env[NcCat := rows[i]]) == Yes <==> Tags(f, r.intakeId, db.categories[i])
    {
      var e := env[NcCat := rows[i]];
      OnBoundHolds(db, f, NcCat, e, r);
      InTexts(db, Col(NcCat, Category), es, f.categories, e, Some(db.categories[i].category));
      assert EvalCond(db, inner, e) == Yes <==>
        EvalCond(db, OnBound(f, NcCat), e) == Yes && EvalCond(db, In(Col(NcCat, Category), es), e) == Yes;
    }
    if t :| t in db.categories && Tags(f, r.intakeId, t) {
      var i :| 0 <= i < |db.categories| && db.categories[i] == t;
      assert EvalCond(db, inner, env[NcCat := rows[i]]) == Yes;
    }
  }

  // ----- FROM: the rows one intake row is joined with -----

  function AttrsRow(db: Db, f: Filter, r: IntakeRow): Row {
    match Lookup(db.attrs, AttrsKey, (r.intakeId, ScopeText(f.kind)))
    case Some(a) => AttrsR(a)
    case None => NullRow
  }

  function OverrideRow(db: Db, f: Filter, r: IntakeRow, column: Field): Row {
    match Lookup(db.overrides, OverrideKey, (r.intakeId, ScopeText(f.kind), column))
    case Some(o) => OverrideR(o)
    case None => NullRow
  }

  function ReviewRow(db: Db, f: Filter, r: IntakeRow): Row {
    match Lookup(db.reviews, ReviewKey, (r.intakeId, ScopeText(f.kind)))
    case Some(v) => ReviewR(v)
    case None => NullRow
  }

  function WithNpa(db: Db, f: Filter, r: IntakeRow): Env {
    if NeedNpa(f) then map[I := IntakeR(r)][Npa := AttrsRow(db, f, r)] else map[I := IntakeR(r)]
  }

  function WithOverrides(db: Db, f: Filter, r: IntakeRow, columns: seq<Field>, env: Env): Env
    decreases |columns|
  {
    if columns == [] then env
    else WithOverrides(db, f, r, columns[1..], env[Ovr(columns[0]) := OverrideRow(db, f, r, columns[0])])
  }

  function WithReview(db: Db, f: Filter, r: IntakeRow, env: Env): Env {
    if f.reviewStatusIn != [] then env[Nr := ReviewRow(db, f, r)] else env
  }

  /** The attribute side of the joined row: base attributes and one override row a judged column. */
  function Left(db: Db, f: Filter, r: IntakeRow): Env {
    WithOverrides(db, f, r, OverriddenColumns(f), WithNpa(db, f, r))
  }

  lemma {:induction false} OverridesJoined(db: Db, f: Filter, r: IntakeRow, columns: seq<Field>, env: Env)
    ensures var e := WithOverrides(db, f, r, columns, env);
      && (forall c :: c in columns ==> Ovr(c) in e && e[Ovr(c)] == OverrideRow(db, f, r, c))
      && (forall a :: a in env && !a.Ovr? ==> a in e && e[a] == env[a])
      && (forall c :: Ovr(c) in env && env[Ovr(c)] == OverrideRow(db, f, r, c)
            ==> Ovr(c) in e && e[Ovr(c)] == OverrideRow(db, f, r, c))
    decreases |columns|
  {
    if columns != [] {
      OverridesJoined(db, f, r, columns[1..], env[Ovr(columns[0]) := OverrideRow(db, f, r, columns[0])]);
    }
  }

  lemma NpaJoined(db: Db, f: Filter, r: IntakeRow)
    requires Keyed(db)
    ensures JoinsBindable(NpaJoins(f))
    ensures JoinAll(db, BoundJoins(NpaJoins(f)), Single(r)) == [WithNpa(db, f, r)]
  {
    FillOnAddress(f, Npa);
    if NeedNpa(f) {
      var j := LeftJoin(AttrsTable, Npa, OnBound(f, Npa));
      assert BoundJoins(NpaJoins(f)) == [j];
      var env: Env := map[I := IntakeR(r)];
      forall x | x in db.attrs
        ensures Accepts(db, j, env, AttrsR(x)) <==> AttrsKey(x) == (r.intakeId, ScopeText(f.kind))
      {
        OnBoundHolds(db, f, Npa, env[Npa := AttrsR(x)], r);
      }
      JoinOnKey(db, j, env, db.attrs, AttrsKey, (r.intakeId, ScopeText(f.kind)), x => AttrsR(x));
      assert JoinEach(db, j, [env]) == JoinOne(db, j, env);
      assert JoinAll(db, [j], [env]) == JoinAll(db, [], JoinEach(db, j, [env]));
    }
  }

  function OnOverride(f: Filter, c: Field): Cond {
    And(OnBound(f, Ovr(c)), Eq(Col(Ovr(c), FieldColumn), Lit(Name(c))))
  }

  lemma FillOverrideJoin(f: Filter, c: Field)
    ensures FillCond(OverrideJoin(f, c).join.on, ScopeArg(f)) == OnOverride(f, c)
  {
    FillOnAddress(f, Ovr(c));
    assert ScopeArg(f)[..1] == ScopeArg(f) && ScopeArg(f)[1..] == [];
  }

  lemma OverrideAccepted(db: Db, f: Filter, r: IntakeRow, c: Field, env: Env, x: NodeOverride)
    requires I in env && env[I] == IntakeR(r)
    ensures EvalCond(db, OnOverride(f, c), env[Ovr(c) := OverrideR(x)]) == Yes
       <==> OverrideKey(x) == (r.intakeId, ScopeText(f.kind), c)
  {
    var e := env[Ovr(c) := OverrideR(x)];
    OnBoundHolds(db, f, Ovr(c), e, r);
    assert EvalCond(db, Eq(Col(Ovr(c), FieldColumn), Lit(Name(c))), e) == TriOf(x.field == c);
    assert EvalCond(db, OnOverride(f, c), e) == Yes <==>
      EvalCond(db, OnBound(f, Ovr(c)), e) == Yes && x.field == c;
  }

  lemma {:induction false} OverrideJoinsJoined(db: Db, f: Filter, r: IntakeRow, columns: seq<Field>, env: Env)
    requires Keyed(db)
    requires I in env && env[I] == IntakeR(r)
    ensures JoinsBindable(OverrideJoins(f, columns))
    ensures JoinAll(db, BoundJoins(OverrideJoins(f, columns)), [env])
         == [WithOverrides(db, f, r, columns, env)]
    decreases |columns|
  {
    OverrideJoinsBindable(f, columns);
    if columns != [] {
      var c := columns[0];
      var j := LeftJoin(OverridesTable, Ovr(c), OnOverride(f, c));
      FillOverrideJoin(f, c);
      var js := BoundJoins(OverrideJoins(f, columns));
      assert OverrideJoins(f, columns)[0] == OverrideJoin(f, c);
      assert js[0] == j;
      assert OverrideJoins(f, columns)[1..] == OverrideJoins(f, columns[1..]);
      assert js[1..] == BoundJoins(OverrideJoins(f, columns[1..]));
      forall x | x in db.overrides
        ensures Accepts(db, j, env, OverrideR(x)) <==> OverrideKey(x) == (r.intakeId, ScopeText(f.kind), c)
      {
        OverrideAccepted(db, f, r, c, env, x);
      }
      JoinOnKey(db, j, env, db.overrides, OverrideKey, (r.intakeId, ScopeText(f.kind), c), x => OverrideR(x));
      assert JoinEach(db, j, [env]) == JoinOne(db, j, env);
      OverrideJoinsJoined(db, f, r, columns[1..], env[Ovr(c) := OverrideRow(db, f, r, c)]);
    }
  }

  lemma LeftJoined(db: Db, f: Filter, r: IntakeRow)
    requires Keyed(db)
    ensures JoinsBindable(NpaJoins(f) + OverrideJoins(f, OverriddenColumns(f)))
    ensures JoinAll(db, BoundJoins(NpaJoins(f) + OverrideJoins(f, OverriddenColumns(f))), Single(r))
         == [Left(db, f, r)]
  {
    var columns := OverriddenColumns(f);
    NpaJoined(db, f, r);
    OverrideJoinsBindable(f, columns);
    JoinClausesAppend(NpaJoins(f), OverrideJoins(f, columns));
    JoinAllInTurn(db, BoundJoins(NpaJoins(f)), BoundJoins(OverrideJoins(f, columns)), Single(r));
    OverrideJoinsJoined(db, f, r, columns, WithNpa(db, f, r));
  }

  lemma {:induction false} ReviewJoined(db: Db, f: Filter, r: IntakeRow, envs: seq<Env>)
    requires Keyed(db) && CarryIntake(envs, r)
    ensures JoinsBindable(ReviewJoins(f))
    ensures var out := JoinAll(db, BoundJoins(ReviewJoins(f)), envs);
      |out| == |envs| && forall k :: 0 <= k < |envs| ==> out[k] == WithReview(db, f, r, envs[k])
  {
    FillOnAddress(f, Nr);
    if f.reviewStatusIn != [] {
      var j := LeftJoin(ReviewsTable, Nr, OnBound(f, Nr));
      assert BoundJoins(ReviewJoins(f)) == [j];
      assert JoinAll(db, [j], envs) == JoinAll(db, [], JoinEach(db, j, envs));
      ReviewJoinedEach(db, f, r, j, envs);
    }
  }

  lemma {:induction false} ReviewJoinedEach(db: Db, f: Filter, r: IntakeRow, j: Join, envs: seq<Env>)
    requires Keyed(db) && CarryIntake(envs, r)
    requires f.reviewStatusIn != [] && j == LeftJoin(ReviewsTable, Nr, OnBound(f, Nr))
    ensures var out := JoinEach(db, j, envs);
      |out| == |envs| && forall k :: 0 <= k < |envs| ==> out[k] == WithReview(db, f, r, envs[k])
  {
    if envs != [] {
      assert envs[0] in envs;
      ReviewJoinedOne(db, f, r, j, envs[0]);
      ReviewJoinedEach(db, f, r, j, envs[1..]);
    }
  }

  lemma ReviewJoinedOne(db: Db, f: Filter, r: IntakeRow, j: Join, env: Env)
    requires Keyed(db) && I in env && env[I] == IntakeR(r)
    requires f.reviewStatusIn != [] && j == LeftJoin(ReviewsTable, Nr, OnBound(f, Nr))
    ensures JoinOne(db, j, env) == [WithReview(db, f, r, env)]
  {
    forall x | x in db.reviews
      ensures Accepts(db, j, env, ReviewR(x)) <==> ReviewKey(x) == (r.intakeId, ScopeText(f.kind))
    {
      OnBoundHolds(db, f, Nr, env[Nr := ReviewR(x)], r);
    }
    JoinOnKey(db, j, env, db.reviews, ReviewKey, (r.intakeId, ScopeText(f.kind)), x => ReviewR(x));
  }

  // ----- what the joined row says -----

  /** The joined row carries the intake row, the base row, the override rows and the review row of its address. */
  ghost predicate Depicts(db: Db, f: Filter, r: IntakeRow, env: Env) {
    && I in env && env[I] == IntakeR(r)
    && (NeedNpa(f) ==> Npa in env && env[Npa] == AttrsRow(db, f, r))
    && (forall c :: c in OverriddenColumns(f) ==> Ovr(c) in env && env[Ovr(c)] == OverrideRow(db, f, r, c))
    && (f.reviewStatusIn != [] ==> Nr in env && env[Nr] == ReviewRow(db, f, r))
  }

  lemma LeftDepicts(db: Db, f: Filter, r: IntakeRow, env: Env)
    requires env == Left(db, f, r) || (Nc in env && env == Left(db, f, r)[Nc := env[Nc]])
    ensures Depicts(db, f, r, WithReview(db, f, r, env))
    ensures Nc in env ==> Nc in WithReview(db, f, r, env) && WithReview(db, f, r, env)[Nc] == env[Nc]
  {
    OverridesJoined(db, f, r, OverriddenColumns(f), WithNpa(db, f, r));
  }

  /**
   The CASE expression of the effective layer computes the effective value:
   override presence decides, and an explicit NULL is a value that is NULL.
   */
  lemma JudgedExpr(db: Db, f: Filter, r: IntakeRow, env: Env, c: Field)
    requires Depicts(db, f, r, env) && NeedNpa(f)
    requires f.layer == Effective ==> c in OverriddenColumns(f)
    ensures EvalExpr(AttrExpr(f, c), env) == OptText(JudgedValue(db, f, r.intakeId, c))
  {
    BaseCell(db, f, r, c);
    assert EvalExpr(Col(Npa, Attr(c)), env) == Cell(env[Npa], Attr(c));
    if f.layer == Effective {
      OverrideCells(db, f, r, c);
      var test, over := Col(Ovr(c), IntakeId), Col(Ovr(c), ValueColumn);
      assert EvalExpr(test, env) == Cell(env[Ovr(c)], IntakeId);
      assert EvalExpr(over, env) == Cell(env[Ovr(c)], ValueColumn);
    }
  }

  lemma BaseCell(db: Db, f: Filter, r: IntakeRow, c: Field)
    ensures Cell(AttrsRow(db, f, r), Attr(c)) == OptText(BaseValue(db, r.intakeId, ScopeText(f.kind), c))
  {
  }

  lemma OverrideCells(db: Db, f: Filter, r: IntakeRow, c: Field)
    ensures var row, scope := OverrideRow(db, f, r, c), ScopeText(f.kind);
      OptText(EffectiveValue(db, r.intakeId, scope, c))
      == if Cell(row, IntakeId).Null? then OptText(BaseValue(db, r.intakeId, scope, c)) else Cell(row, ValueColumn)
  {
  }

  lemma JudgedText(db: Db, f: Filter, r: IntakeRow, env: Env, c: Field, needle: Option<string>)
    requires Depicts(db, f, r, env)
    requires needle.Some? ==> NeedNpa(f) && (f.layer == Effective ==> c in OverriddenColumns(f))
    ensures Bindable(TextClause(AttrExpr(f, c), needle))
    ensures AllHold(db, Bound(TextClause(AttrExpr(f, c), needle)), env)
       <==> (needle.Some? ==> HoldsText(JudgedValue(db, f, r.intakeId, c), needle.value))
  {
    if needle.Some? {
      JudgedExpr(db, f, r, env, c);
      TextClauseHolds(db, AttrExpr(f, c), needle, env, JudgedValue(db, f, r.intakeId, c));
    }
  }

  lemma JudgedEq(db: Db, f: Filter, r: IntakeRow, env: Env, c: Field, wanted: Option<string>)
    requires Depicts(db, f, r, env)
    requires wanted.Some? ==> NeedNpa(f) && (f.layer == Effective ==> c in OverriddenColumns(f))
    ensures Bindable(EqClause(AttrExpr(f, c), wanted))
    ensures AllHold(db, Bound(EqClause(AttrExpr(f, c), wanted)), env)
       <==> (wanted.Some? ==> Holds(JudgedValue(db, f, r.intakeId, c), wanted.value))
  {
    if wanted.Some? {
      JudgedExpr(db, f, r, env, c);
      EqClauseHolds(db, AttrExpr(f, c), wanted, env, JudgedValue(db, f, r.intakeId, c));
    }
  }

  lemma JudgedIn(db: Db, f: Filter, r: IntakeRow, env: Env, c: Field, wanted: seq<string>)
    requires Depicts(db, f, r, env)
    requires wanted != [] ==> NeedNpa(f) && (f.layer == Effective ==> c in OverriddenColumns(f))
    ensures Bindable(InClause(AttrExpr(f, c), wanted))
    ensures AllHold(db, Bound(InClause(AttrExpr(f, c), wanted)), env)
       <==> (wanted != [] ==> HoldsOneOf(JudgedValue(db, f, r.intakeId, c), wanted))
  {
    if wanted != [] {
      JudgedExpr(db, f, r, env, c);
      InClauseHolds(db, AttrExpr(f, c), wanted, env, JudgedValue(db, f, r.intakeId, c));
    }
  }

  lemma ConfidenceHolds(db: Db, f: Filter, r: IntakeRow, env: Env)
    requires Depicts(db, f, r, env)
    ensures Bindable(InClause(Col(Npa, Attr(Confidence)), f.confidenceIn))
    ensures AllHold(db, Bound(InClause(Col(Npa, Attr(Confidence)), f.confidenceIn)), env)
       <==> (f.confidenceIn != [] ==>
               HoldsOneOf(BaseValue(db, r.intakeId, ScopeText(f.kind), Confidence), f.confidenceIn))
  {
    if f.confidenceIn != [] {
      InClauseHolds(db, Col(Npa, Attr(Confidence)), f.confidenceIn, env,
        BaseValue(db, r.intakeId, ScopeText(f.kind), Confidence));
    }
  }

  lemma ReviewHolds(db: Db, f: Filter, r: IntakeRow, env: Env)
    requires Depicts(db, f, r, env)
    ensures Bindable(InClause(ReviewExpr, f.reviewStatusIn))
    ensures AllHold(db, Bound(InClause(ReviewExpr, f.reviewStatusIn)), env)
       <==> (f.reviewStatusIn != [] ==> ReviewStatus(db, r.intakeId, ScopeText(f.kind)) in f.reviewStatusIn)
  {
    if f.reviewStatusIn != [] {
      assert EvalExpr(Col(Nr, Status), env) == Cell(env[Nr], Status);
      InClauseHolds(db, ReviewExpr, f.reviewStatusIn, env,
        Some(ReviewStatus(db, r.intakeId, ScopeText(f.kind))));
    }
  }

  lemma StatusHolds(db: Db, f: Filter, r: IntakeRow, env: Env)
    requires I in env && env[I] == IntakeR(r)
    ensures var wanted := StatusTexts(f.statuses);
      && Bindable(InClause(Col(I, Status), wanted))
      && (AllHold(db, Bound(InClause(Col(I, Status), wanted)), env)
         <==> (f.statuses != [] ==> exists s :: s in f.statuses && r.status == StatusText(s)))
  {
    StatusTextsAre(f.statuses, r.status);
    InClauseHolds(db, Col(I, Status), StatusTexts(f.statuses), env, Some(r.status));
  }

  predicate CreditedBy(f: Filter, nc: Row) {
    nc.ContributorR? && f.contributorName.Some? && Credits(f, nc.contributor)
  }

  lemma ContributorHolds(db: Db, f: Filter, env: Env)
    requires f.contributorName.Some? ==> Nc in env && (env[Nc].ContributorR? || env[Nc].NullRow?)
    ensures Bindable(ContributorClauses(f))
    ensures AllHold(db, Bound(ContributorClauses(f)), env)
       <==> (f.contributorName.Some? ==> CreditedBy(f, env[Nc]))
  {
    if f.contributorName.Some? {
      var name := match env[Nc] case ContributorR(c) => Some(c.name) case _ => None;
      var role := match env[Nc] case ContributorR(c) => Some(c.role) case _ => None;
      var a, b := EqClause(Col(Nc, NameColumn), f.contributorName), EqClause(Col(Nc, Role), f.contributorRole);
      EqClauseHolds(db, Col(Nc, NameColumn), f.contributorName, env, name);
      EqClauseHolds(db, Col(Nc, Role), f.contributorRole, env, role);
      ClausesAppend(a, b);
      AllHoldAppend(db, Bound(a), Bound(b), env);
    }
  }

  /** What the k-th pushed predicate is documented to say of a joined row. */
  ghost predicate Says(db: Db, f: Filter, r: IntakeRow, env: Env, k: nat)
    requires f.contributorName.Some? ==> Nc in env
  {
    match k
    case 0 => f.titleSubstring.Some? ==> HoldsText(JudgedValue(db, f, r.intakeId, Title), f.titleSubstring.value)
    case 1 => f.contributorName.Some? ==> CreditedBy(f, env[Nc])
    case 2 => f.statuses != [] ==> exists s :: s in f.statuses && r.status == StatusText(s)
    case 3 => f.format.Some? ==> Holds(r.format, f.format.value)
    case 4 => f.confidenceIn != [] ==>
        HoldsOneOf(BaseValue(db, r.intakeId, ScopeText(f.kind), Confidence), f.confidenceIn)
    case 5 => f.reviewStatusIn != [] ==> ReviewStatus(db, r.intakeId, ScopeText(f.kind)) in f.reviewStatusIn
    case 6 => f.year.Some? ==> Holds(JudgedValue(db, f, r.intakeId, Year), f.year.value)
    case 7 => f.venueSubstring.Some? ==>
        HoldsText(JudgedValue(db, f, r.intakeId, ContainerTitle), f.venueSubstring.value)
    case 8 => f.doi.Some? ==> Holds(JudgedValue(db, f, r.intakeId, Doi), f.doi.value)
    case 9 => f.language != [] ==> HoldsOneOf(JudgedValue(db, f, r.intakeId, Language), f.language)
    case _ => f.categories != [] ==> exists t :: t in db.categories && Tags(f, r.intakeId, t)
  }

  lemma SegmentSays(db: Db, f: Filter, r: IntakeRow, env: Env, k: nat)
    requires Depicts(db, f, r, env)
    requires f.contributorName.Some? ==> Nc in env && (env[Nc].ContributorR? || env[Nc].NullRow?)
    ensures Bindable(Segment(f, k))
    ensures AllHold(db, Bound(Segment(f, k)), env) <==> Says(db, f, r, env, k)
  {
    match k
    case 0 => JudgedText(db, f, r, env, Title, f.titleSubstring);
    case 1 => ContributorHolds(db, f, env);
    case 2 => StatusHolds(db, f, r, env);
    case 3 => EqClauseHolds(db, Col(I, Format), f.format, env, r.format);
    case 4 => ConfidenceHolds(db, f, r, env);
    case 5 => ReviewHolds(db, f, r, env);
    case 6 => JudgedEq(db, f, r, env, Year, f.year);
    case 7 => JudgedText(db, f, r, env, ContainerTitle, f.venueSubstring);
    case 8 => JudgedEq(db, f, r, env, Doi, f.doi);
    case 9 => JudgedIn(db, f, r, env, Language, f.language);
    case _ => CategoryClauseHolds(db, f, env, r);
  }

  lemma SayingIsSelecting(db: Db, f: Filter, r: IntakeRow, env: Env)
    requires f.contributorName.Some? ==> Nc in env
    ensures (forall k :: 0 <= k < SEGMENTS ==> Says(db, f, r, env, k))
       <==> SelectsApart(db, f, r) && (f.contributorName.Some? ==> CreditedBy(f, env[Nc]))
  {
    if forall k :: 0 <= k < SEGMENTS ==> Says(db, f, r, env, k) {
      assert Says(db, f, r, env, 0) && Says(db, f, r, env, 1) && Says(db, f, r, env, 2) && Says(db, f, r, env, 3)
        && Says(db, f, r, env, 4) && Says(db, f, r, env, 5) && Says(db, f, r, env, 6) && Says(db, f, r, env, 7)
        && Says(db, f, r, env, 8) && Says(db, f, r, env, 9) && Says(db, f, r, env, 10);
    }
  }

  /** On a joined row the bound WHERE clause is true exactly when the documented predicate is. */
  lemma WhereMeans(db: Db, f: Filter, r: IntakeRow, env: Env)
    requires Depicts(db, f, r, env)
    requires f.contributorName.Some? ==> Nc in env && (env[Nc].ContributorR? || env[Nc].NullRow?)
    ensures Bindable(WhereClauses(f))
    ensures AllHold(db, Bound(WhereClauses(f)), env)
       <==> SelectsApart(db, f, r) && (f.contributorName.Some? ==> CreditedBy(f, env[Nc]))
  {
    SegmentsBindable(f);
    ConcatHolds(db, Segments(f), env);
    forall k | 0 <= k < SEGMENTS
      ensures AllHold(db, Bound(Segments(f)[k]), env) <==> Says(db, f, r, env, k)
    {
      SegmentSays(db, f, r, env, k);
    }
    SayingIsSelecting(db, f, r, env);
  }
}
