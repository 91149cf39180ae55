/**
 The fragment of SQL the intake queries use: LEFT JOIN, a conjunctive WHERE
 under three-valued logic, GROUP BY a key, ORDER BY, LIMIT / OFFSET,
 COUNT(DISTINCT), and positional parameters.

 A statement is a syntax tree whose `?` are `Hole`s. Parameters are assigned
 to the holes in textual order, joins first, then WHERE, then LIMIT and
 OFFSET; a statement run with any other number of parameters is an error.
 */
module Sql {
  import opened Prelude
  import opened Tables
  import Like

  datatype Value = Null | Int(i: int) | Text(s: string) | Name(f: Field)

  datatype Table = AttrsTable | OverridesTable | ContributorsTable | ReviewsTable | CategoriesTable

  /** The aliases of the intake queries; `Ovr(c)` is the override row of column `c`. */
  datatype Alias = I | Npa | Ovr(column: Field) | Nc | Nr | NcCat

  datatype Column =
    | IntakeId | Scope | Status | Format | Attr(f: Field)
    | FieldColumn | ValueColumn | NameColumn | Role | Category

  datatype Row =
    | IntakeR(intake: IntakeRow) | AttrsR(attrs: PublicationAttrs) | OverrideR(over: NodeOverride)
    | ContributorR(contributor: NodeContributor) | ReviewR(review: NodeReview)
    | CategoryR(tag: NodeCategory) | NullRow

  type Env = map<Alias, Row>

  datatype Expr =
    | Col(alias: Alias, column: Column)
    | Lit(value: Value)
    | Hole
    | CaseWhenNull(test: Expr, whenNull: Expr, otherwise: Expr)
    | Coalesce(first: Expr, second: Expr)

  datatype Cond =
    | Eq(left: Expr, right: Expr)
    | LikeEscape(text: Expr, pattern: Expr)
    | In(item: Expr, list: seq<Expr>)
    | And(c0: Cond, c1: Cond)
    | Exists(table: Table, alias: Alias, cond: Cond)

  datatype Join = LeftJoin(table: Table, alias: Alias, on: Cond)

  datatype Tri = Yes | No | Unknown

  // ----- parameters -----

  function ExprHoles(e: Expr): nat {
    match e
    case Col(_, _) => 0
    case Lit(_) => 0
    case Hole => 1
    case CaseWhenNull(t, n, o) => ExprHoles(t) + ExprHoles(n) + ExprHoles(o)
    case Coalesce(a, b) => ExprHoles(a) + ExprHoles(b)
  }

  function ListHoles(es: seq<Expr>): nat {
    if es == [] then 0 else ExprHoles(es[0]) + ListHoles(es[1..])
  }

  function CondHoles(c: Cond): nat {
    match c
    case Eq(l, r) => ExprHoles(l) + ExprHoles(r)
    case LikeEscape(t, p) => ExprHoles(t) + ExprHoles(p)
    case In(e, es) => ExprHoles(e) + ListHoles(es)
    case And(a, b) => CondHoles(a) + CondHoles(b)
    case Exists(_, _, inner) => CondHoles(inner)
  }

  function WhereHoles(cs: seq<Cond>): nat {
    if cs == [] then 0 else CondHoles(cs[0]) + WhereHoles(cs[1..])
  }

  function JoinHoles(js: seq<Join>): nat {
    if js == [] then 0 else CondHoles(js[0].on) + JoinHoles(js[1..])
  }

  function FillExpr(e: Expr, ps: seq<Value>): Expr
    requires |ps| == ExprHoles(e)
  {
    match e
    case Col(_, _) => e
    case Lit(_) => e
    case Hole => Lit(ps[0])
    case CaseWhenNull(t, n, o) =>
      var i, j := ExprHoles(t), ExprHoles(t) + ExprHoles(n);
      CaseWhenNull(FillExpr(t, ps[..i]), FillExpr(n, ps[i..j]), FillExpr(o, ps[j..]))
    case Coalesce(a, b) =>
      var i := ExprHoles(a);
      Coalesce(FillExpr(a, ps[..i]), FillExpr(b, ps[i..]))
  }

  function FillList(es: seq<Expr>, ps: seq<Value>): seq<Expr>
    requires |ps| == ListHoles(es)
  {
    if es == [] then [] else
    var i := ExprHoles(es[0]);
    [FillExpr(es[0], ps[..i])] + FillList(es[1..], ps[i..])
  }

  function FillCond(c: Cond, ps: seq<Value>): Cond
    requires |ps| == CondHoles(c)
  {
    match c
    case Eq(l, r) => var i := ExprHoles(l); Eq(FillExpr(l, ps[..i]), FillExpr(r, ps[i..]))
    case LikeEscape(t, p) => var i := ExprHoles(t); LikeEscape(FillExpr(t, ps[..i]), FillExpr(p, ps[i..]))
    case In(e, es) => var i := ExprHoles(e); In(FillExpr(e, ps[..i]), FillList(es, ps[i..]))
    case And(a, b) => var i := CondHoles(a); And(FillCond(a, ps[..i]), FillCond(b, ps[i..]))
    case Exists(t, a, inner) => Exists(t, a, FillCond(inner, ps))
  }

  function FillWhere(cs: seq<Cond>, ps: seq<Value>): seq<Cond>
    requires |ps| == WhereHoles(cs)
  {
    if cs == [] then [] else
    var i := CondHoles(cs[0]);
    [FillCond(cs[0], ps[..i])] + FillWhere(cs[1..], ps[i..])
  }

  function FillJoins(js: seq<Join>, ps: seq<Value>): seq<Join>
    requires |ps| == JoinHoles(js)
  {
    if js == [] then [] else
    var i := CondHoles(js[0].on);
    [js[0].(on := FillCond(js[0].on, ps[..i]))] + FillJoins(js[1..], ps[i..])
  }

  // ----- evaluation -----

  function OptText(o: Option<string>): Value {
    match o
    case Some(s) => Text(s)
    case None => Null
  }

  /** A column of a row; every column of a null-extended row is NULL. */
  function Cell(r: Row, c: Column): Value {
    match r
    case IntakeR(x) => (match c
      case IntakeId => Int(x.intakeId) case Status => Text(x.status) case Format => OptText(x.format)
      case _ => Null)
    case AttrsR(x) => (match c
      case IntakeId => Int(x.intakeId) case Scope => Text(x.scope) case Attr(f) => OptText(BaseColumn(x, f))
      case _ => Null)
    case OverrideR(x) => (match c
      case IntakeId => Int(x.intakeId) case Scope => Text(x.scope) case FieldColumn => Name(x.field)
      case ValueColumn => OptText(x.value) case _ => Null)
    case ContributorR(x) => (match c
      case IntakeId => Int(x.intakeId) case Scope => Text(x.scope) case NameColumn => Text(x.name)
      case Role => Text(x.role) case _ => Null)
    case ReviewR(x) => (match c
      case IntakeId => Int(x.intakeId) case Scope => Text(x.scope) case Status => Text(x.status)
      case _ => Null)
    case CategoryR(x) => (match c
      case IntakeId => Int(x.intakeId) case Scope => Text(x.scope) case Category => Text(x.category)
      case _ => Null)
    case NullRow => Null
  }

  /** A column of an alias the statement does not join is never anything but NULL here. */
  function EvalExpr(e: Expr, env: Env): Value {
    match e
    case Col(a, c) => if a in env then Cell(env[a], c) else Null
    case Lit(v) => v
    case Hole => Null
    case CaseWhenNull(t, n, o) => if EvalExpr(t, env).Null? then EvalExpr(n, env) else EvalExpr(o, env)
    case Coalesce(a, b) => var v := EvalExpr(a, env); if v.Null? then EvalExpr(b, env) else v
  }

  function TriOf(b: bool): Tri { if b then Yes else No }

  function Scan(db: Db, t: Table): seq<Row> {
    match t
    case AttrsTable => seq(|db.attrs|, i requires 0 <= i < |db.attrs| => AttrsR(db.attrs[i]))
    case OverridesTable => seq(|db.overrides|, i requires 0 <= i < |db.overrides| => OverrideR(db.overrides[i]))
    case ContributorsTable =>
      seq(|db.contributors|, i requires 0 <= i < |db.contributors| => ContributorR(db.contributors[i]))
    case ReviewsTable => seq(|db.reviews|, i requires 0 <= i < |db.reviews| => ReviewR(db.reviews[i]))
    case CategoriesTable => seq(|db.categories|, i requires 0 <= i < |db.categories| => CategoryR(db.categories[i]))
  }

  function EvalCond(db: Db, c: Cond, env: Env): Tri
    decreases c
  {
    match c
    case Eq(l, r) =>
      var a, b := EvalExpr(l, env), EvalExpr(r, env);
      if a.Null? || b.Null? then Unknown else TriOf(a == b)
    case LikeEscape(t, p) =>
      var a, b := EvalExpr(t, env), EvalExpr(p, env);
      if a.Null? || b.Null? then Unknown else TriOf(a.Text? && b.Text? && Like.Matches(b.s, a.s))
    case In(e, es) =>
      var a := EvalExpr(e, env);
      if es == [] then No
      else if a.Null? then Unknown
      else if exists i :: 0 <= i < |es| && EvalExpr(es[i], env) == a then Yes
      else if exists i :: 0 <= i < |es| && EvalExpr(es[i], env) == Null then Unknown
      else No
    case And(x, y) =>
      var a, b := EvalCond(db, x, env), EvalCond(db, y, env);
      if a == No || b == No then No else if a == Yes && b == Yes then Yes else Unknown
    case Exists(t, a, inner) =>
      var rows := Scan(db, t);
      TriOf(exists i :: 0 <= i < |rows| && EvalCond(db, inner, env[a := rows[i]]) == Yes)
  }

  /** A comparison with NULL is neither true nor false, and so is a conjunction that hangs on one. */
  lemma NullIsUnknown(db: Db, env: Env, l: Expr, r: Expr, x: Cond)
    ensures EvalExpr(l, env) == Null || EvalExpr(r, env) == Null ==>
      EvalCond(db, Eq(l, r), env) == Unknown && EvalCond(db, LikeEscape(l, r), env) == Unknown
      && EvalCond(db, And(Eq(l, r), x), env) == if EvalCond(db, x, env) == No then No else Unknown
    ensures EvalCond(db, And(x, Eq(l, r)), env) == EvalCond(db, And(Eq(l, r), x), env)
  {
  }

  predicate AllHold(db: Db, where: seq<Cond>, env: Env) {
    forall k :: 0 <= k < |where| ==> EvalCond(db, where[k], env) == Yes
  }

  // ----- FROM intake i {joins} WHERE {where} -----

  function Matching(db: Db, j: Join, env: Env, rows: seq<Row>): seq<Env> {
    if rows == [] then [] else
    var e := env[j.alias := rows[0]];
    (if EvalCond(db, j.on, e) == Yes then [e] else []) + Matching(db, j, env, rows[1..])
  }

  function JoinOne(db: Db, j: Join, env: Env): seq<Env> {
    var found := Matching(db, j, env, Scan(db, j.table));
    if found == [] then [env[j.alias := NullRow]] else found
  }

  function JoinEach(db: Db, j: Join, envs: seq<Env>): seq<Env> {
    if envs == [] then [] else JoinOne(db, j, envs[0]) + JoinEach(db, j, envs[1..])
  }

  function JoinAll(db: Db, joins: seq<Join>, envs: seq<Env>): seq<Env>
    decreases |joins|
  {
    if joins == [] then envs else JoinAll(db, joins[1..], JoinEach(db, joins[0], envs))
  }

  function Filter(db: Db, where: seq<Cond>, envs: seq<Env>): seq<Env> {
    if envs == [] then []
    else (if AllHold(db, where, envs[0]) then [envs[0]] else []) + Filter(db, where, envs[1..])
  }

  function FromIntake(rows: seq<IntakeRow>): seq<Env> {
    seq(|rows|, k requires 0 <= k < |rows| => map[I := IntakeR(rows[k])])
  }

  /** The rows of the statement before grouping and ordering, with repeats. */
  function Rows(db: Db, joins: seq<Join>, where: seq<Cond>): seq<Env> {
    Filter(db, where, JoinAll(db, joins, FromIntake(db.intakes)))
  }

  // ----- SELECT i.* and COUNT(DISTINCT i.intake_id) -----

  /** `SELECT i.*`; every row of the statement carries an intake row under `i`. */
  function Project(envs: seq<Env>): seq<IntakeRow> {
    if envs == [] then []
    else (if I in envs[0] && envs[0][I].IntakeR? then [envs[0][I].intake] else []) + Project(envs[1..])
  }

  /** `GROUP BY i.intake_id`: one row a group; its columns depend on the id alone. */
  function GroupById(rows: seq<IntakeRow>): seq<IntakeRow>
    decreases |rows|
  {
    if rows == [] then []
    else [rows[0]] + GroupById(Without(rows[1..], rows[0].intakeId))
  }

  function Without(rows: seq<IntakeRow>, id: int): (rest: seq<IntakeRow>)
    ensures |rest| <= |rows|
  {
    if rows == [] then []
    else (if rows[0].intakeId == id then [] else [rows[0]]) + Without(rows[1..], id)
  }

  function InsertById(r: IntakeRow, rows: seq<IntakeRow>): seq<IntakeRow> {
    if rows == [] || r.intakeId <= rows[0].intakeId then [r] + rows
    else [rows[0]] + InsertById(r, rows[1..])
  }

  /** `ORDER BY i.intake_id`. */
  function OrderById(rows: seq<IntakeRow>): seq<IntakeRow> {
    if rows == [] then [] else InsertById(rows[0], OrderById(rows[1..]))
  }

  function Ids(rows: seq<IntakeRow>): set<int> {
    set k | 0 <= k < |rows| :: rows[k].intakeId
  }

  function Min(a: int, b: int): int { if a <= b then a else b }

  /** `LIMIT l OFFSET o` for non-negative l and o. */
  function Slice<T>(rows: seq<T>, limit: nat, offset: nat): seq<T> {
    rows[Min(offset, |rows|)..Min(offset + limit, |rows|)]
  }

  datatype SelectStmt = SelectStmt(joins: seq<Join>, where: seq<Cond>, grouped: bool, limit: Expr, offset: Expr)

  datatype CountStmt = CountStmt(joins: seq<Join>, where: seq<Cond>)

  datatype SqlError = ParameterCount | BadLimit | UnknownStatus(status: string)

  /** A statement with its parameters in place. */
  function Answer(db: Db, joins: seq<Join>, where: seq<Cond>, grouped: bool, limit: Value, offset: Value)
    : Result<seq<IntakeRow>, SqlError>
  {
    if !(limit.Int? && offset.Int? && limit.i >= 0 && offset.i >= 0) then Err(BadLimit) else
    var rows := Project(Rows(db, joins, where));
    Ok(Slice(OrderById(if grouped then GroupById(rows) else rows), limit.i, offset.i))
  }

  function RunSelect(db: Db, q: SelectStmt, ps: seq<Value>): Result<seq<IntakeRow>, SqlError> {
    var a := JoinHoles(q.joins);
    var b := a + WhereHoles(q.where);
    var c := b + ExprHoles(q.limit);
    if |ps| != c + ExprHoles(q.offset) then Err(ParameterCount) else
    Answer(db, FillJoins(q.joins, ps[..a]), FillWhere(q.where, ps[a..b]), q.grouped,
      EvalExpr(FillExpr(q.limit, ps[b..c]), map[]), EvalExpr(FillExpr(q.offset, ps[c..]), map[]))
  }

  function RunCount(db: Db, q: CountStmt, ps: seq<Value>): Result<nat, SqlError> {
    var a := JoinHoles(q.joins);
    if |ps| != a + WhereHoles(q.where) then Err(ParameterCount) else
    Ok(|Ids(Project(Rows(db, FillJoins(q.joins, ps[..a]), FillWhere(q.where, ps[a..]))))|)
  }
}
