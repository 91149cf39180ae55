/** Facts about the SQL fragment that hold for every statement. */
module SqlFacts {
  import opened Prelude
  import opened Tables
  import opened Sql

  // ----- clauses: a piece of statement text with the parameters pushed for it -----

  datatype Clause = Clause(cond: Cond, args: seq<Value>)

  datatype JoinClause = JoinClause(join: Join, args: seq<Value>)

  predicate Bindable(cs: seq<Clause>) {
    forall k :: 0 <= k < |cs| ==> |cs[k].args| == CondHoles(cs[k].cond)
  }

  predicate JoinsBindable(js: seq<JoinClause>) {
    forall k :: 0 <= k < |js| ==> |js[k].args| == CondHoles(js[k].join.on)
  }

  function Conds(cs: seq<Clause>): seq<Cond> {
    if cs == [] then [] else [cs[0].cond] + Conds(cs[1..])
  }

  function Args(cs: seq<Clause>): seq<Value> {
    if cs == [] then [] else cs[0].args + Args(cs[1..])
  }

  function Joins(js: seq<JoinClause>): seq<Join> {
    if js == [] then [] else [js[0].join] + Joins(js[1..])
  }

  function JoinArgs(js: seq<JoinClause>): seq<Value> {
    if js == [] then [] else js[0].args + JoinArgs(js[1..])
  }

  /** Each clause with its own parameters in place of its own holes. */
  function Bound(cs: seq<Clause>): seq<Cond>
    requires Bindable(cs)
  {
    if cs == [] then [] else [FillCond(cs[0].cond, cs[0].args)] + Bound(cs[1..])
  }

  function BoundJoins(js: seq<JoinClause>): seq<Join>
    requires JoinsBindable(js)
  {
    if js == [] then []
    else [js[0].join.(on := FillCond(js[0].join.on, js[0].args))] + BoundJoins(js[1..])
  }

  /** Positional binding gives every clause exactly the parameters pushed for it. */
  lemma {:induction false} FillClauses(cs: seq<Clause>)
    requires Bindable(cs)
    ensures WhereHoles(Conds(cs)) == |Args(cs)|
    ensures FillWhere(Conds(cs), Args(cs)) == Bound(cs)
  {
    if cs != [] {
      FillClauses(cs[1..]);
      var i := CondHoles(cs[0].cond);
      assert Args(cs)[..i] == cs[0].args && Args(cs)[i..] == Args(cs[1..]);
      assert Conds(cs)[1..] == Conds(cs[1..]);
    }
  }

  lemma {:induction false} FillJoinClauses(js: seq<JoinClause>)
    requires JoinsBindable(js)
    ensures JoinHoles(Joins(js)) == |JoinArgs(js)|
    ensures FillJoins(Joins(js), JoinArgs(js)) == BoundJoins(js)
  {
    if js != [] {
      FillJoinClauses(js[1..]);
      var i := CondHoles(js[0].join.on);
      assert JoinArgs(js)[..i] == js[0].args && JoinArgs(js)[i..] == JoinArgs(js[1..]);
      assert Joins(js)[1..] == Joins(js[1..]);
    }
  }

  lemma {:induction false} CondsAppend(a: seq<Clause>, b: seq<Clause>)
    ensures Conds(a + b) == Conds(a) + Conds(b)
  {
    if a == [] {
      assert a + b == b;
    } else {
      SplitFirst(a, b);
      CondsAppend(a[1..], b);
      Associate([a[0].cond], Conds(a[1..]), Conds(b));
    }
  }

  lemma {:induction false} ArgsAppend(a: seq<Clause>, b: seq<Clause>)
    ensures Args(a + b) == Args(a) + Args(b)
  {
    if a == [] {
      assert a + b == b;
    } else {
      SplitFirst(a, b);
      ArgsAppend(a[1..], b);
      Associate(a[0].args, Args(a[1..]), Args(b));
    }
  }

  lemma {:induction false} BoundAppend(a: seq<Clause>, b: seq<Clause>)
    requires Bindable(a) && Bindable(b)
    ensures Bindable(a + b) && Bound(a + b) == Bound(a) + Bound(b)
  {
    if a == [] {
      assert a + b == b;
    } else {
      SplitFirst(a, b);
      BoundAppend(a[1..], b);
      Associate([FillCond(a[0].cond, a[0].args)], Bound(a[1..]), Bound(b));
    }
  }

  lemma ClausesAppend(a: seq<Clause>, b: seq<Clause>)
    ensures Conds(a + b) == Conds(a) + Conds(b)
    ensures Args(a + b) == Args(a) + Args(b)
    ensures Bindable(a) && Bindable(b) ==> Bindable(a + b) && Bound(a + b) == Bound(a) + Bound(b)
  {
    CondsAppend(a, b);
    ArgsAppend(a, b);
    if Bindable(a) && Bindable(b) {
      BoundAppend(a, b);
    }
  }

  lemma {:induction false} JoinsAppend(a: seq<JoinClause>, b: seq<JoinClause>)
    ensures Joins(a + b) == Joins(a) + Joins(b)
  {
    if a == [] {
      assert a + b == b;
    } else {
      SplitFirst(a, b);
      JoinsAppend(a[1..], b);
      Associate([a[0].join], Joins(a[1..]), Joins(b));
    }
  }

  lemma {:induction false} JoinArgsAppend(a: seq<JoinClause>, b: seq<JoinClause>)
    ensures JoinArgs(a + b) == JoinArgs(a) + JoinArgs(b)
  {
    if a == [] {
      assert a + b == b;
    } else {
      SplitFirst(a, b);
      JoinArgsAppend(a[1..], b);
      Associate(a[0].args, JoinArgs(a[1..]), JoinArgs(b));
    }
  }

  lemma {:induction false} BoundJoinsAppend(a: seq<JoinClause>, b: seq<JoinClause>)
    requires JoinsBindable(a) && JoinsBindable(b)
    ensures JoinsBindable(a + b) && BoundJoins(a + b) == BoundJoins(a) + BoundJoins(b)
  {
    if a == [] {
      assert a + b == b;
    } else {
      SplitFirst(a, b);
      BoundJoinsAppend(a[1..], b);
      Associate([a[0].join.(on := FillCond(a[0].join.on, a[0].args))], BoundJoins(a[1..]), BoundJoins(b));
    }
  }

  lemma JoinClausesAppend(a: seq<JoinClause>, b: seq<JoinClause>)
    ensures Joins(a + b) == Joins(a) + Joins(b)
    ensures JoinArgs(a + b) == JoinArgs(a) + JoinArgs(b)
    ensures JoinsBindable(a) && JoinsBindable(b) ==>
              JoinsBindable(a + b) && BoundJoins(a + b) == BoundJoins(a) + BoundJoins(b)
  {
    JoinsAppend(a, b);
    JoinArgsAppend(a, b);
    if JoinsBindable(a) && JoinsBindable(b) {
      BoundJoinsAppend(a, b);
    }
  }

  function Concat(segs: seq<seq<Clause>>): seq<Clause> {
    if segs == [] then [] else segs[0] + Concat(segs[1..])
  }

  lemma {:induction false} ConcatTake(segs: seq<seq<Clause>>, k: nat)
    requires k < |segs|
    ensures Concat(segs[..k + 1]) == Concat(segs[..k]) + segs[k]
  {
    if k == 0 {
      assert segs[..1] == [segs[0]] && segs[..0] == [];
    } else {
      ConcatTake(segs[1..], k - 1);
      assert segs[..k + 1][1..] == segs[1..][..k] && segs[..k][1..] == segs[1..][..k - 1];
      assert segs[..k + 1][0] == segs[0] == segs[..k][0];
    }
  }

  lemma {:induction false} ConcatBindable(segs: seq<seq<Clause>>)
    requires forall k :: 0 <= k < |segs| ==> Bindable(segs[k])
    ensures Bindable(Concat(segs))
  {
    if segs != [] {
      ConcatBindable(segs[1..]);
      ClausesAppend(segs[0], Concat(segs[1..]));
    }
  }

  lemma EachHoldsInParts(db: Db, segs: seq<seq<Clause>>, env: Env)
    requires segs != [] && forall k :: 0 <= k < |segs| ==> Bindable(segs[k])
    ensures (forall k :: 0 <= k < |segs| ==> AllHold(db, Bound(segs[k]), env))
       <==> (AllHold(db, Bound(segs[0]), env)
             && forall k :: 0 <= k < |segs[1..]| ==> AllHold(db, Bound(segs[1..][k]), env))
  {
    var rest := segs[1..];
    if AllHold(db, Bound(segs[0]), env) && forall k :: 0 <= k < |rest| ==> AllHold(db, Bound(rest[k]), env) {
      forall k | 0 <= k < |segs| ensures AllHold(db, Bound(segs[k]), env) {
        if k > 0 { assert segs[k] == rest[k - 1]; }
      }
    }
  }

  /** A conjunction of segments holds when every segment does. */
  lemma {:induction false} ConcatHolds(db: Db, segs: seq<seq<Clause>>, env: Env)
    requires forall k :: 0 <= k < |segs| ==> Bindable(segs[k])
    ensures Bindable(Concat(segs))
    ensures AllHold(db, Bound(Concat(segs)), env)
       <==> forall k :: 0 <= k < |segs| ==> AllHold(db, Bound(segs[k]), env)
  {
    if segs != [] {
      ConcatHolds(db, segs[1..], env);
      ClausesAppend(segs[0], Concat(segs[1..]));
      AllHoldAppend(db, Bound(segs[0]), Bound(Concat(segs[1..])), env);
      EachHoldsInParts(db, segs, env);
    }
  }

  lemma AllHoldOne(db: Db, c: Cond, env: Env)
    ensures AllHold(db, [c], env) <==> EvalCond(db, c, env) == Yes
  {
    assert [c][0] == c;
  }

  function HoleList(n: nat): seq<Expr> {
    if n == 0 then [] else [Hole] + HoleList(n - 1)
  }

  function TextList(ss: seq<string>): seq<Value> {
    if ss == [] then [] else [Text(ss[0])] + TextList(ss[1..])
  }

  /** An IN list of placeholders holds exactly the texts bound to it. */
  lemma {:induction false} FillHoleList(ss: seq<string>)
    ensures |TextList(ss)| == |ss| == ListHoles(HoleList(|ss|))
    ensures var es := FillList(HoleList(|ss|), TextList(ss));
      |es| == |ss| && forall i :: 0 <= i < |ss| ==> es[i] == Lit(Text(ss[i]))
  {
    if ss != [] {
      FillHoleList(ss[1..]);
      assert HoleList(|ss|)[1..] == HoleList(|ss[1..]|);
      assert TextList(ss)[1..] == TextList(ss[1..]);
    }
  }

  // ----- joins -----

  lemma {:induction false} JoinEachAppend(db: Db, j: Join, a: seq<Env>, b: seq<Env>)
    ensures JoinEach(db, j, a + b) == JoinEach(db, j, a) + JoinEach(db, j, b)
  {
    if a == [] {
      assert a + b == b;
    } else {
      SplitFirst(a, b);
      JoinEachAppend(db, j, a[1..], b);
      Associate(JoinOne(db, j, a[0]), JoinEach(db, j, a[1..]), JoinEach(db, j, b));
    }
  }

  lemma {:induction false} JoinAllAppend(db: Db, joins: seq<Join>, a: seq<Env>, b: seq<Env>)
    ensures JoinAll(db, joins, a + b) == JoinAll(db, joins, a) + JoinAll(db, joins, b)
    decreases |joins|
  {
    if joins != [] {
      JoinEachAppend(db, joins[0], a, b);
      JoinAllAppend(db, joins[1..], JoinEach(db, joins[0], a), JoinEach(db, joins[0], b));
    }
  }

  lemma {:induction false} JoinAllInTurn(db: Db, js: seq<Join>, ks: seq<Join>, envs: seq<Env>)
    ensures JoinAll(db, js + ks, envs) == JoinAll(db, ks, JoinAll(db, js, envs))
    decreases |js|
  {
    if js == [] {
      assert js + ks == ks;
    } else {
      assert (js + ks)[1..] == js[1..] + ks && (js + ks)[0] == js[0];
      JoinAllInTurn(db, js[1..], ks, JoinEach(db, js[0], envs));
    }
  }

  lemma {:induction false} FilterAppend(db: Db, where: seq<Cond>, a: seq<Env>, b: seq<Env>)
    ensures Filter(db, where, a + b) == Filter(db, where, a) + Filter(db, where, b)
  {
    if a == [] {
      assert a + b == b;
    } else {
      SplitFirst(a, b);
      FilterAppend(db, where, a[1..], b);
      Associate(if AllHold(db, where, a[0]) then [a[0]] else [], Filter(db, where, a[1..]), Filter(db, where, b));
    }
  }

  lemma {:induction false} FilterMembers(db: Db, where: seq<Cond>, envs: seq<Env>)
    ensures forall e :: e in Filter(db, where, envs) <==> e in envs && AllHold(db, where, e)
    ensures |Filter(db, where, envs)| <= |envs|
  {
    if envs != [] {
      FilterMembers(db, where, envs[1..]);
    }
  }

  lemma {:induction false} ProjectAppend(a: seq<Env>, b: seq<Env>)
    ensures Project(a + b) == Project(a) + Project(b)
  {
    if a == [] {
      assert a + b == b;
    } else {
      SplitFirst(a, b);
      ProjectAppend(a[1..], b);
      Associate(if I in a[0] && a[0][I].IntakeR? then [a[0][I].intake] else [], Project(a[1..]), Project(b));
    }
  }

  lemma AllHoldAppend(db: Db, a: seq<Cond>, b: seq<Cond>, env: Env)
    ensures AllHold(db, a + b, env) <==> AllHold(db, a, env) && AllHold(db, b, env)
  {
    if AllHold(db, a + b, env) {
      forall k | 0 <= k < |a| ensures EvalCond(db, a[k], env) == Yes {
        assert (a + b)[k] == a[k];
      }
      forall k | 0 <= k < |b| ensures EvalCond(db, b[k], env) == Yes {
        assert (a + b)[|a| + k] == b[k];
      }
    }
  }

  /** The rows a join condition accepts for one row of the left side. */
  predicate Accepts(db: Db, j: Join, env: Env, r: Row) {
    EvalCond(db, j.on, env[j.alias := r]) == Yes
  }

  lemma {:induction false} MatchingIsTheAccepted(db: Db, j: Join, env: Env, rows: seq<Row>)
    ensures forall e :: e in Matching(db, j, env, rows)
              <==> exists i :: 0 <= i < |rows| && Accepts(db, j, env, rows[i]) && e == env[j.alias := rows[i]]
  {
    if rows != [] {
      MatchingIsTheAccepted(db, j, env, rows[1..]);
      var rest := Matching(db, j, env, rows[1..]);
      forall e
        ensures e in Matching(db, j, env, rows)
           <==> exists i :: 0 <= i < |rows| && Accepts(db, j, env, rows[i]) && e == env[j.alias := rows[i]]
      {
        if e in rest {
          var i :| 0 <= i < |rows| - 1 && Accepts(db, j, env, rows[1..][i]) && e == env[j.alias := rows[1..][i]];
          assert rows[i + 1] == rows[1..][i];
        }
        if i :| 0 < i < |rows| && Accepts(db, j, env, rows[i]) && e == env[j.alias := rows[i]] {
          assert rows[1..][i - 1] == rows[i];
          assert e in rest;
        }
      }
    }
  }

  lemma {:induction false} MatchingNone(db: Db, j: Join, env: Env, rows: seq<Row>)
    requires forall i :: 0 <= i < |rows| ==> !Accepts(db, j, env, rows[i])
    ensures Matching(db, j, env, rows) == []
  {
    if rows != [] {
      assert forall i :: 0 <= i < |rows[1..]| ==> rows[1..][i] == rows[i + 1];
      MatchingNone(db, j, env, rows[1..]);
    }
  }

  lemma {:induction false} MatchingOne(db: Db, j: Join, env: Env, rows: seq<Row>, k: nat)
    requires k < |rows|
    requires forall i :: 0 <= i < |rows| ==> (Accepts(db, j, env, rows[i]) <==> i == k)
    ensures Matching(db, j, env, rows) == [env[j.alias := rows[k]]]
  {
    assert forall i :: 0 <= i < |rows[1..]| ==> rows[1..][i] == rows[i + 1];
    if k == 0 {
      MatchingNone(db, j, env, rows[1..]);
    } else {
      assert !Accepts(db, j, env, rows[0]);
      MatchingOne(db, j, env, rows[1..], k - 1);
    }
  }

  /** A join on a key matches the addressed row or nothing: it never fans out. */
  lemma JoinOnKey<R, K>(
      db: Db, j: Join, env: Env, rows: seq<R>, key: R -> K, k: K, wrap: R -> Row)
    requires Unique(rows, key)
    requires |Scan(db, j.table)| == |rows|
    requires forall i :: 0 <= i < |rows| ==> Scan(db, j.table)[i] == wrap(rows[i])
    requires forall r :: r in rows ==> (Accepts(db, j, env, wrap(r)) <==> key(r) == k)
    ensures var found := Lookup(rows, key, k);
      JoinOne(db, j, env) == [env[j.alias := if found.Some? then wrap(found.value) else NullRow]]
  {
    var scan := Scan(db, j.table);
    match Lookup(rows, key, k)
    case None =>
      assert forall i :: 0 <= i < |scan| ==> rows[i] in rows;
      MatchingNone(db, j, env, scan);
    case Some(r) =>
      var n :| 0 <= n < |rows| && rows[n] == r;
      forall i | 0 <= i < |scan| ensures Accepts(db, j, env, scan[i]) <==> i == n {
        assert rows[i] in rows;
      }
      MatchingOne(db, j, env, scan, n);
  }

  // ----- ordering and grouping -----

  ghost predicate Ascending(rows: seq<IntakeRow>) {
    forall i, j :: 0 <= i < j < |rows| ==> rows[i].intakeId < rows[j].intakeId
  }

  lemma {:induction false} InsertInOrder(r: IntakeRow, rows: seq<IntakeRow>)
    requires Ascending(rows)
    requires forall x :: x in rows ==> x.intakeId != r.intakeId
    ensures Ascending(InsertById(r, rows))
    ensures forall x :: x in InsertById(r, rows) <==> x == r || x in rows
    ensures |InsertById(r, rows)| == |rows| + 1
  {
    if rows == [] || r.intakeId <= rows[0].intakeId {
      assert rows != [] ==> rows[0] in rows;
    } else {
      InsertInOrder(r, rows[1..]);
      var rest := InsertById(r, rows[1..]);
      forall j | 0 <= j < |rest| ensures rows[0].intakeId < rest[j].intakeId {
        assert rest[j] in rest;
      }
    }
  }

  /** Ordering rows with distinct ids keeps the rows and makes the ids strictly ascend. */
  lemma {:induction false} OrderedById(rows: seq<IntakeRow>)
    requires Unique(rows, IntakeKey)
    ensures Ascending(OrderById(rows))
    ensures forall x :: x in OrderById(rows) <==> x in rows
    ensures |OrderById(rows)| == |rows|
  {
    if rows != [] {
      assert Unique(rows[1..], IntakeKey);
      OrderedById(rows[1..]);
      forall x | x in OrderById(rows[1..]) ensures x.intakeId != rows[0].intakeId {
        var i :| 0 <= i < |rows[1..]| && rows[1..][i] == x;
        assert IntakeKey(rows[0]) != IntakeKey(rows[i + 1]);
      }
      InsertInOrder(rows[0], OrderById(rows[1..]));
    }
  }

  // ----- running a statement -----

  lemma LastTwo(ps: seq<Value>, a: nat, x: Value, y: Value)
    requires a <= |ps|
    ensures var all, b := ps + [x, y], |ps|;
      all[..a] == ps[..a] && all[a..b] == ps[a..] && all[b..b + 1] == [x] && all[b + 1..] == [y]
  {
  }

  lemma FilledHole(v: Value)
    ensures EvalExpr(FillExpr(Hole, [v]), map[]) == v
  {
  }

  /** LIMIT and OFFSET take the last two parameters; the rest go to the joins and the WHERE clause. */
  lemma RunSelectSplits(db: Db, q: SelectStmt, ps: seq<Value>, limit: nat, offset: nat)
    requires q.limit == Hole && q.offset == Hole
    requires |ps| == JoinHoles(q.joins) + WhereHoles(q.where)
    ensures var a := JoinHoles(q.joins);
      RunSelect(db, q, ps + [Int(limit), Int(offset)])
        == Answer(db, FillJoins(q.joins, ps[..a]), FillWhere(q.where, ps[a..]), q.grouped, Int(limit), Int(offset))
  {
    LastTwo(ps, JoinHoles(q.joins), Int(limit), Int(offset));
    FilledHole(Int(limit));
    FilledHole(Int(offset));
  }

  // ----- a statement, one intake row at a time -----

  function Repeat(r: IntakeRow, n: nat): seq<IntakeRow> {
    if n == 0 then [] else [r] + Repeat(r, n - 1)
  }

  function Single(r: IntakeRow): seq<Env> { [map[I := IntakeR(r)]] }

  /** How many rows of the statement one intake row gives rise to. */
  function Fanout(db: Db, joins: seq<Join>, where: seq<Cond>, r: IntakeRow): nat {
    |Filter(db, where, JoinAll(db, joins, Single(r)))|
  }

  function Spread(db: Db, joins: seq<Join>, where: seq<Cond>, rows: seq<IntakeRow>): seq<IntakeRow> {
    if rows == [] then []
    else Repeat(rows[0], Fanout(db, joins, where, rows[0])) + Spread(db, joins, where, rows[1..])
  }

  function Kept(db: Db, joins: seq<Join>, where: seq<Cond>, rows: seq<IntakeRow>): seq<IntakeRow> {
    if rows == [] then []
    else (if Fanout(db, joins, where, rows[0]) > 0 then [rows[0]] else []) + Kept(db, joins, where, rows[1..])
  }

  predicate SparesIntake(joins: seq<Join>) {
    forall k :: 0 <= k < |joins| ==> joins[k].alias != I
  }

  ghost predicate CarryIntake(envs: seq<Env>, r: IntakeRow) {
    forall e :: e in envs ==> I in e && e[I] == IntakeR(r)
  }

  lemma {:induction false} JoinEachCarries(db: Db, j: Join, envs: seq<Env>, r: IntakeRow)
    requires j.alias != I && CarryIntake(envs, r)
    ensures CarryIntake(JoinEach(db, j, envs), r)
  {
    if envs != [] {
      JoinEachCarries(db, j, envs[1..], r);
      MatchingIsTheAccepted(db, j, envs[0], Scan(db, j.table));
      assert envs[0] in envs;
    }
  }

  lemma {:induction false} JoinAllCarries(db: Db, joins: seq<Join>, envs: seq<Env>, r: IntakeRow)
    requires SparesIntake(joins) && CarryIntake(envs, r)
    ensures CarryIntake(JoinAll(db, joins, envs), r)
    decreases |joins|
  {
    if joins != [] {
      JoinEachCarries(db, joins[0], envs, r);
      JoinAllCarries(db, joins[1..], JoinEach(db, joins[0], envs), r);
    }
  }

  lemma {:induction false} ProjectOfOne(db: Db, where: seq<Cond>, envs: seq<Env>, r: IntakeRow)
    requires CarryIntake(envs, r)
    ensures Project(Filter(db, where, envs)) == Repeat(r, |Filter(db, where, envs)|)
  {
    if envs != [] {
      ProjectOfOne(db, where, envs[1..], r);
      var rest := Filter(db, where, envs[1..]);
      assert envs[0] in envs;
      if AllHold(db, where, envs[0]) {
        assert Filter(db, where, envs) == [envs[0]] + rest;
        assert ([envs[0]] + rest)[1..] == rest;
      } else {
        assert Filter(db, where, envs) == rest;
      }
    }
  }

  /** The rows of a statement are the intake rows, each repeated by its fan-out. */
  lemma {:induction false} StatementSpreads(db: Db, joins: seq<Join>, where: seq<Cond>, rows: seq<IntakeRow>)
    requires SparesIntake(joins)
    ensures Project(Filter(db, where, JoinAll(db, joins, FromIntake(rows)))) == Spread(db, joins, where, rows)
  {
    if rows == [] {
      JoinNothing(db, joins);
    } else {
      var one := Single(rows[0]);
      assert FromIntake(rows) == one + FromIntake(rows[1..]);
      JoinAllAppend(db, joins, one, FromIntake(rows[1..]));
      FilterAppend(db, where, JoinAll(db, joins, one), JoinAll(db, joins, FromIntake(rows[1..])));
      ProjectAppend(Filter(db, where, JoinAll(db, joins, one)),
        Filter(db, where, JoinAll(db, joins, FromIntake(rows[1..]))));
      JoinAllCarries(db, joins, one, rows[0]);
      ProjectOfOne(db, where, JoinAll(db, joins, one), rows[0]);
      StatementSpreads(db, joins, where, rows[1..]);
    }
  }

  lemma {:induction false} JoinNothing(db: Db, joins: seq<Join>)
    ensures JoinAll(db, joins, []) == []
    decreases |joins|
  {
    if joins != [] {
      JoinNothing(db, joins[1..]);
    }
  }

  lemma {:induction false} WithoutAbsent(rest: seq<IntakeRow>, id: int)
    requires forall x :: x in rest ==> x.intakeId != id
    ensures Without(rest, id) == rest
  {
    if rest != [] {
      assert rest[0] in rest;
      WithoutAbsent(rest[1..], id);
    }
  }

  lemma {:induction false} WithoutRepeats(r: IntakeRow, n: nat, rest: seq<IntakeRow>)
    requires forall x :: x in rest ==> x.intakeId != r.intakeId
    ensures Without(Repeat(r, n) + rest, r.intakeId) == rest
  {
    if n == 0 {
      assert Repeat(r, 0) + rest == rest;
      WithoutAbsent(rest, r.intakeId);
    } else {
      assert (Repeat(r, n) + rest)[1..] == Repeat(r, n - 1) + rest;
      WithoutRepeats(r, n - 1, rest);
    }
  }

  lemma {:induction false} SpreadMembers(db: Db, joins: seq<Join>, where: seq<Cond>, rows: seq<IntakeRow>)
    ensures forall x :: x in Spread(db, joins, where, rows) ==> x in rows
  {
    if rows != [] {
      SpreadMembers(db, joins, where, rows[1..]);
      RepeatMembers(rows[0], Fanout(db, joins, where, rows[0]));
    }
  }

  lemma {:induction false} RepeatMembers(r: IntakeRow, n: nat)
    ensures forall x :: x in Repeat(r, n) ==> x == r
  {
    if n > 0 { RepeatMembers(r, n - 1); }
  }

  /** The other intakes' rows do not carry the first one's id. */
  lemma SpreadIsApart(db: Db, joins: seq<Join>, where: seq<Cond>, rows: seq<IntakeRow>)
    requires Unique(rows, IntakeKey) && rows != []
    ensures forall x :: x in Spread(db, joins, where, rows[1..]) ==> x.intakeId != rows[0].intakeId
  {
    SpreadMembers(db, joins, where, rows[1..]);
    forall x | x in Spread(db, joins, where, rows[1..]) ensures x.intakeId != rows[0].intakeId {
      var i :| 0 <= i < |rows[1..]| && rows[1..][i] == x;
      assert IntakeKey(rows[0]) != IntakeKey(rows[i + 1]);
    }
  }

  lemma GroupOfRepeats(r: IntakeRow, n: nat, rest: seq<IntakeRow>)
    requires forall x :: x in rest ==> x.intakeId != r.intakeId
    ensures GroupById(Repeat(r, n) + rest) == (if n > 0 then [r] else []) + GroupById(rest)
  {
    if n > 0 {
      assert (Repeat(r, n) + rest)[1..] == Repeat(r, n - 1) + rest;
      WithoutRepeats(r, n - 1, rest);
    } else {
      assert Repeat(r, 0) + rest == rest;
    }
  }

  /** Grouping by id undoes the fan-out. */
  lemma {:induction false} GroupingKeeps(db: Db, joins: seq<Join>, where: seq<Cond>, rows: seq<IntakeRow>)
    requires Unique(rows, IntakeKey)
    ensures GroupById(Spread(db, joins, where, rows)) == Kept(db, joins, where, rows)
  {
    if rows != [] {
      assert Unique(rows[1..], IntakeKey);
      GroupingKeeps(db, joins, where, rows[1..]);
      SpreadIsApart(db, joins, where, rows);
      GroupOfRepeats(rows[0], Fanout(db, joins, where, rows[0]), Spread(db, joins, where, rows[1..]));
    }
  }

  lemma {:induction false} WithoutFanoutKeeps(db: Db, joins: seq<Join>, where: seq<Cond>, rows: seq<IntakeRow>)
    requires forall r :: r in rows ==> Fanout(db, joins, where, r) <= 1
    ensures Spread(db, joins, where, rows) == Kept(db, joins, where, rows)
  {
    if rows != [] {
      assert rows[0] in rows;
      WithoutFanoutKeeps(db, joins, where, rows[1..]);
      assert Repeat(rows[0], 1) == [rows[0]];
    }
  }

  lemma {:induction false} KeptMembers(db: Db, joins: seq<Join>, where: seq<Cond>, rows: seq<IntakeRow>)
    ensures forall x :: x in Kept(db, joins, where, rows) <==> x in rows && Fanout(db, joins, where, x) > 0
    ensures forall x :: x in Spread(db, joins, where, rows) <==> x in Kept(db, joins, where, rows)
    ensures Unique(rows, IntakeKey) ==> Unique(Kept(db, joins, where, rows), IntakeKey)
  {
    if rows != [] {
      var rest := Kept(db, joins, where, rows[1..]);
      KeptMembers(db, joins, where, rows[1..]);
      RepeatMembers(rows[0], Fanout(db, joins, where, rows[0]));
      assert Fanout(db, joins, where, rows[0]) > 0 ==> Repeat(rows[0], Fanout(db, joins, where, rows[0]))[0] == rows[0];
      if Unique(rows, IntakeKey) {
        assert Unique(rows[1..], IntakeKey);
        forall j | 0 <= j < |rest| ensures rest[j].intakeId != rows[0].intakeId {
          assert rest[j] in rest;
          var i :| 0 <= i < |rows[1..]| && rows[1..][i] == rest[j];
          assert IntakeKey(rows[0]) != IntakeKey(rows[i + 1]);
        }
      }
    }
  }

  lemma {:induction false} CountOfIds(rows: seq<IntakeRow>)
    requires Unique(rows, IntakeKey)
    ensures |Ids(rows)| == |rows|
  {
    if rows != [] {
      assert Unique(rows[1..], IntakeKey);
      CountOfIds(rows[1..]);
      assert Ids(rows) == {rows[0].intakeId} + Ids(rows[1..]) by {
        forall x | x in Ids(rows) ensures x in {rows[0].intakeId} + Ids(rows[1..]) {
          var k :| 0 <= k < |rows| && rows[k].intakeId == x;
          if k > 0 { assert rows[1..][k - 1] == rows[k]; }
        }
        forall x | x in Ids(rows[1..]) ensures x in Ids(rows) {
          var k :| 0 <= k < |rows[1..]| && rows[1..][k].intakeId == x;
          assert rows[k + 1].intakeId == x;
        }
      }
      forall k | 0 <= k < |rows[1..]| ensures rows[1..][k].intakeId != rows[0].intakeId {
        assert IntakeKey(rows[0]) != IntakeKey(rows[k + 1]);
      }
    }
  }

  lemma SameMembersSameIds(a: seq<IntakeRow>, b: seq<IntakeRow>)
    requires forall x :: x in a <==> x in b
    ensures Ids(a) == Ids(b)
  {
    forall i | i in Ids(a) ensures i in Ids(b) {
      var k :| 0 <= k < |a| && a[k].intakeId == i;
      assert a[k] in b;
    }
    forall i | i in Ids(b) ensures i in Ids(a) {
      var k :| 0 <= k < |b| && b[k].intakeId == i;
      assert b[k] in a;
    }
  }
}
