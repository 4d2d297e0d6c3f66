/** Whole statements: F expressions, UPDATE, and aggregates over a filtered table. */
module Statements {
  import opened Basics
  import opened SqlLanguage
  import opened QueryCompiler
  import Like

  // ---------------------------------------------------------------- F expressions

  datatype FExpr = F(name: string) | Lit(v: Value) | Combined(op: ArithOp, l: FExpr, r: FExpr)

  /** `as_sql`. */
  function AsSql(e: FExpr): Compiled {
    match e
    case F(name) => Compiled([Col(ColRef("", name))], [])
    case Lit(v) => Compiled([Mark], [v])
    case Combined(op, l, r) =>
      var lc, rc := AsSql(l), AsSql(r);
      Compiled([LParen] + (lc.sql + ([Arith(op)] + (rc.sql + [RParen]))), lc.params + rc.params)
  }

  type Row = map<string, Value>

  /** The columns of one row, for statements that never qualify a column. */
  function RowCells(row: Row): Cells {
    (ref: ColRef) => if ref.column in row then row[ref.column] else Null
  }

  function PlainRef(k: Key): ColRef { ColRef("", k.column) }

  function RowField(row: Row): Key -> Value { (k: Key) => RowCells(row)(PlainRef(k)) }

  /** What an expression is worth on a row. */
  function FValue(e: FExpr, row: Row, d: Dialect): Value {
    match e
    case F(name) => RowCells(row)(ColRef("", name))
    case Lit(v) => v
    case Combined(op, l, r) => d.arith(op, FValue(l, row, d), FValue(r, row, d))
  }

  function ScalarOf(e: FExpr): Scalar {
    match e
    case F(name) => SCol(ColRef("", name))
    case Lit(v) => SVal(v)
    case Combined(op, l, r) => SArith(op, ScalarOf(l), ScalarOf(r))
  }

  /** The emitted text is one scalar expression, wherever it stands, and its placeholders take its
      own literals in order. */
  lemma {:induction false} ExpressionReads(e: FExpr, ts: seq<Token>, i: nat, ps: seq<Value>, j: nat)
    requires Stands(AsSql(e), ts, i, ps, j)
    ensures ParseScalar(ts, i, ps, j) == Done(ScalarOf(e), i + |AsSql(e).sql|, j + |AsSql(e).params|)
  {
    hide ParseScalar;
    hide AsSql;
    hide Stands;
    hide Here;
    match e
    case F(name) => LeafReads(e, ts, i, ps, j);
    case Lit(v) => LeafReads(e, ts, i, ps, j);
    case Combined(op, l, r) =>
      var mid, midJ := i + 1 + |AsSql(l).sql|, j + |AsSql(l).params|;
      CombinedStands(op, l, r, ts, i, ps, j);
      ExpressionReads(l, ts, i + 1, ps, j);
      ExpressionReads(r, ts, mid + 1, ps, midJ);
      CombinedReads(op, l, r, ts, i, ps, j);
  }

  /** Both sides of a combined expression stand where they should. */
  lemma CombinedStands(op: ArithOp, l: FExpr, r: FExpr, ts: seq<Token>, i: nat, ps: seq<Value>, j: nat)
    requires Stands(AsSql(Combined(op, l, r)), ts, i, ps, j)
    ensures var mid := i + 1 + |AsSql(l).sql|;
      && Stands(AsSql(l), ts, i + 1, ps, j) && Stands(AsSql(r), ts, mid + 1, ps, j + |AsSql(l).params|)
      && At(ts, i, LParen) && At(ts, mid, Arith(op)) && At(ts, mid + 1 + |AsSql(r).sql|, RParen)
  {
    hide AsSql;
    hide Here;
    CombinedAsSql(op, l, r);
    ParenthesesStand(op, AsSql(l), AsSql(r), ts, i, ps, j);
  }

  /** And read together once both sides read. */
  lemma CombinedReads(op: ArithOp, l: FExpr, r: FExpr, ts: seq<Token>, i: nat, ps: seq<Value>, j: nat)
    requires Stands(AsSql(Combined(op, l, r)), ts, i, ps, j)
    requires var mid, midJ := i + 1 + |AsSql(l).sql|, j + |AsSql(l).params|;
      && ParseScalar(ts, i + 1, ps, j) == Done(ScalarOf(l), mid, midJ)
      && ParseScalar(ts, mid + 1, ps, midJ) == Done(ScalarOf(r), mid + 1 + |AsSql(r).sql|, midJ + |AsSql(r).params|)
    ensures var c := AsSql(Combined(op, l, r));
      ParseScalar(ts, i, ps, j) == Done(ScalarOf(Combined(op, l, r)), i + |c.sql|, j + |c.params|)
  {
    hide AsSql;
    hide Here;
    hide ParseScalar;
    CombinedAsSql(op, l, r);
    CombinedStands(op, l, r, ts, i, ps, j);
    var mid, midJ := i + 1 + |AsSql(l).sql|, j + |AsSql(l).params|;
    ParenthesesRead(op, ts, i, ps, j, Done(ScalarOf(l), mid, midJ),
      Done(ScalarOf(r), mid + 1 + |AsSql(r).sql|, midJ + |AsSql(r).params|));
  }

  lemma CombinedAsSql(op: ArithOp, l: FExpr, r: FExpr)
    ensures var lc, rc, c := AsSql(l), AsSql(r), AsSql(Combined(op, l, r));
      && c == Compiled([LParen] + (lc.sql + ([Arith(op)] + (rc.sql + [RParen]))), lc.params + rc.params)
      && |c.sql| == |lc.sql| + |rc.sql| + 3 && |c.params| == |lc.params| + |rc.params|
  {
  }

  lemma LeafReads(e: FExpr, ts: seq<Token>, i: nat, ps: seq<Value>, j: nat)
    requires !e.Combined? && Stands(AsSql(e), ts, i, ps, j)
    ensures ParseScalar(ts, i, ps, j) == Done(ScalarOf(e), i + |AsSql(e).sql|, j + |AsSql(e).params|)
  {
    match e
    case F(name) => LeafScalarReads(Col(ColRef("", name)), [], ts, i, ps, j);
    case Lit(v) => LeafScalarReads(Mark, [v], ts, i, ps, j);
  }

  lemma LeafScalarReads(t: Token, own: seq<Value>, ts: seq<Token>, i: nat, ps: seq<Value>, j: nat)
    requires Here(ts, i, [t]) && Here(ps, j, own) && ((t.Col? && own == []) || (t == Mark && |own| == 1))
    ensures ParseScalar(ts, i, ps, j) == Done(if t.Col? then SCol(t.ref) else SVal(own[0]), i + 1, j + |own|)
  {
    assert ts[i + 0] == [t][0];
    if t == Mark { assert ps[j + 0] == own[0]; }
  }

  /** `( l op r )` from the readings of its two sides. */
  lemma ParenthesesRead(op: ArithOp, ts: seq<Token>, i: nat, ps: seq<Value>, j: nat, l: Parsed<Scalar>,
                        r: Parsed<Scalar>)
    requires At(ts, i, LParen) && l.Done? && r.Done?
    requires ParseScalar(ts, i + 1, ps, j) == l && At(ts, l.i, Arith(op))
    requires ParseScalar(ts, l.i + 1, ps, l.j) == r && At(ts, r.i, RParen)
    ensures ParseScalar(ts, i, ps, j) == Done(SArith(op, l.tree, r.tree), r.i + 1, r.j)
  {
  }

  lemma ParenthesesStand(op: ArithOp, l: Compiled, r: Compiled, ts: seq<Token>, i: nat, ps: seq<Value>, j: nat)
    requires Stands(Compiled([LParen] + (l.sql + ([Arith(op)] + (r.sql + [RParen]))), l.params + r.params), ts, i, ps,
      j)
    ensures var k := i + 1 + |l.sql|;
      && ts[i] == LParen && Stands(l, ts, i + 1, ps, j) && ts[k] == Arith(op)
      && Stands(r, ts, k + 1, ps, j + |l.params|) && At(ts, k + 1 + |r.sql|, RParen)
  {
    HereSplits(ts, i, [LParen], l.sql + ([Arith(op)] + (r.sql + [RParen])));
    HereSplits(ts, i + 1, l.sql, [Arith(op)] + (r.sql + [RParen]));
    var mid := i + 1 + |l.sql|;
    HereSplits(ts, mid, [Arith(op)], r.sql + [RParen]);
    HereSplits(ts, mid + 1, r.sql, [RParen]);
    HereSplits(ps, j, l.params, r.params);
    assert ts[i + 0] == [LParen][0] && ts[mid + 0] == [Arith(op)][0] && ts[mid + 1 + |r.sql| + 0] == [RParen][0];
  }

  lemma {:induction false} ExpressionMeans(e: FExpr, row: Row, d: Dialect)
    ensures EvalScalar(ScalarOf(e), RowCells(row), d) == FValue(e, row, d)
  {
    if e.Combined? {
      ExpressionMeans(e.l, row, d);
      ExpressionMeans(e.r, row, d);
    }
  }

  // ---------------------------------------------------------------- UPDATE

  datatype Assigned = Plain(v: Value) | Expr(e: FExpr)

  datatype Assignment = Assignment(column: string, to: Assigned)

  function SetPart(a: Assignment): Compiled {
    var value := match a.to case Plain(v) => Compiled([Mark], [v]) case Expr(e) => AsSql(e);
    Compiled([Col(ColRef("", a.column)), Cmp(Eq)] + value.sql, value.params)
  }

  function SetParts(sets: seq<Assignment>): (parts: seq<Compiled>)
    ensures |parts| == |sets|
  {
    if sets == [] then [] else [SetPart(sets[0])] + SetParts(sets[1..])
  }

  /** `update`; `None` for the FieldError on an empty assignment list. */
  function UpdateSql(table: string, sets: seq<Assignment>, wheres: seq<Q>, d: Dialect): Option<Compiled> {
    if sets == [] then None else
    var w := WhereClause(wheres, PlainRef, d);
    Some(Compiled([UpdateKw, Name(table), SetKw] + (Join(SetParts(sets), Comma) + w.sql),
      Params(SetParts(sets)) + w.params))
  }

  datatype SetClause = SetClause(column: string, e: Scalar)

  datatype UpdateStmt = UpdateStmt(table: string, sets: seq<SetClause>, where: Option<Pred>)

  function ParseSets(ts: seq<Token>, i: nat, ps: seq<Value>, j: nat): (r: Parsed<seq<SetClause>>)
    ensures r.Done? ==> i < r.i <= |ts|
    decreases |ts| - i
  {
    if i >= |ts| || !ts[i].Col? || !At(ts, i + 1, Cmp(Eq)) then Fail else
    var e := ParseScalar(ts, i + 2, ps, j);
    if e.Fail? then Fail else
    var one := SetClause(ts[i].ref.column, e.tree);
    if !At(ts, e.i, Comma) then Done([one], e.i, e.j) else
    var more := ParseSets(ts, e.i + 1, ps, e.j);
    if more.Done? then Done([one] + more.tree, more.i, more.j) else Fail
  }

  /** A whole UPDATE: every token and every parameter must be used. */
  function ParseUpdate(ts: seq<Token>, ps: seq<Value>): Option<UpdateStmt> {
    if |ts| < 3 || ts[0] != UpdateKw || !ts[1].Name? || ts[2] != SetKw then None else
    var sets := ParseSets(ts, 3, ps, 0);
    if sets.Fail? then None else
    var w := ParseWhere(ts, sets.i, ps, sets.j);
    if w.Done? then Some(UpdateStmt(ts[1].name, sets.tree, w.tree)) else None
  }

  /** All right-hand sides see the row as it was. */
  function ApplySets(sets: seq<SetClause>, before: Row, row: Row, d: Dialect): Row {
    if sets == [] then row
    else ApplySets(sets[1..], before, row[sets[0].column := EvalScalar(sets[0].e, RowCells(before), d)], d)
  }

  function ExecuteUpdate(u: UpdateStmt, row: Row, d: Dialect): Row {
    if Keeps(u.where, RowCells(row), d) then ApplySets(u.sets, row, row, d) else row
  }

  function AssignedValue(a: Assigned, row: Row, d: Dialect): Value {
    match a case Plain(v) => v case Expr(e) => FValue(e, row, d)
  }

  /** What `update(...)` asks for on one row. */
  function Assign(sets: seq<Assignment>, before: Row, row: Row, d: Dialect): Row {
    if sets == [] then row
    else Assign(sets[1..], before, row[sets[0].column := AssignedValue(sets[0].to, before, d)], d)
  }

  ghost function UpdatedRow(sets: seq<Assignment>, wheres: seq<Q>, row: Row, d: Dialect): Row {
    if Passes(wheres, RowField(row), d) then Assign(sets, row, row, d) else row
  }

  function ClauseOf(a: Assignment): SetClause {
    SetClause(a.column, match a.to case Plain(v) => SVal(v) case Expr(e) => ScalarOf(e))
  }

  function ClausesOf(sets: seq<Assignment>): seq<SetClause> {
    if sets == [] then [] else [ClauseOf(sets[0])] + ClausesOf(sets[1..])
  }

  /** The first assignment is read, and what follows it decides whether more are. */
  lemma FirstSetReads(a: Assignment, ts: seq<Token>, i: nat, ps: seq<Value>, j: nat)
    requires Stands(SetPart(a), ts, i, ps, j)
    ensures var i', j' := i + |SetPart(a).sql|, j + |SetPart(a).params|;
      ParseSets(ts, i, ps, j) ==
      if !At(ts, i', Comma) then Done([ClauseOf(a)], i', j')
      else
        var more := ParseSets(ts, i' + 1, ps, j');
        if more.Done? then Done([ClauseOf(a)] + more.tree, more.i, more.j) else Fail
  {
    hide ParseSets;
    hide ParseScalar;
    hide AsSql;
    hide SetPart;
    hide ClauseOf;
    var e := match a.to case Plain(v) => FExpr.Lit(v) case Expr(e) => e;
    var head: seq<Token> := [Col(ColRef("", a.column)), Cmp(Eq)];
    SetPartIs(a, e);
    HereSplits(ts, i, head, AsSql(e).sql);
    assert ts[i + 0] == head[0] && ts[i + 1] == head[1];
    ExpressionReads(e, ts, i + 2, ps, j);
    SetThenMore(a.column, ts, i, ps, j);
  }

  /** A plain value is the expression of that value. */
  lemma SetPartIs(a: Assignment, e: FExpr)
    requires e == match a.to case Plain(v) => FExpr.Lit(v) case Expr(e) => e
    ensures SetPart(a) == Compiled([Col(ColRef("", a.column)), Cmp(Eq)] + AsSql(e).sql, AsSql(e).params)
    ensures ClauseOf(a) == SetClause(a.column, ScalarOf(e))
  {
  }

  lemma SetThenMore(column: string, ts: seq<Token>, i: nat, ps: seq<Value>, j: nat)
    requires i + 1 < |ts| && ts[i] == Col(ColRef("", column)) && ts[i + 1] == Cmp(Eq)
    requires ParseScalar(ts, i + 2, ps, j).Done?
    ensures var e := ParseScalar(ts, i + 2, ps, j); var clause := SetClause(column, e.tree);
      ParseSets(ts, i, ps, j) ==
      if !At(ts, e.i, Comma) then Done([clause], e.i, e.j)
      else
        var more := ParseSets(ts, e.i + 1, ps, e.j);
        if more.Done? then Done([clause] + more.tree, more.i, more.j) else Fail
  {
    hide ParseScalar;
  }

  lemma {:induction false} SetsRead(sets: seq<Assignment>, ts: seq<Token>, i: nat, ps: seq<Value>, j: nat)
    requires sets != [] && Stands(Joined(SetParts(sets), Comma), ts, i, ps, j)
    requires !At(ts, i + |Join(SetParts(sets), Comma)|, Comma)
    ensures var all := Joined(SetParts(sets), Comma);
      ParseSets(ts, i, ps, j) == Done(ClausesOf(sets), i + |all.sql|, j + |all.params|)
  {
    hide ParseSets;
    hide Here;
    hide SetPart;
    var parts := SetParts(sets);
    var next, nextJ := i + |parts[0].sql|, j + |parts[0].params|;
    JoinSplits(parts, Comma, ts, i, ps, j);
    hide AsSql;
    hide Stands;
    FirstSetReads(sets[0], ts, i, ps, j);
    if |sets| > 1 {
      assert parts[1..] == SetParts(sets[1..]);
      assert ClausesOf(sets) == [ClauseOf(sets[0])] + ClausesOf(sets[1..]);
      SetsRead(sets[1..], ts, next + 1, ps, nextJ);
    } else {
      assert ClausesOf(sets) == [ClauseOf(sets[0])];
    }
  }

  lemma {:induction false} SetsMean(sets: seq<Assignment>, before: Row, row: Row, d: Dialect)
    ensures ApplySets(ClausesOf(sets), before, row, d) == Assign(sets, before, row, d)
  {
    if sets != [] {
      if sets[0].to.Expr? { ExpressionMeans(sets[0].to.e, before, d); }
      SetsMean(sets[1..], before, row[sets[0].column := AssignedValue(sets[0].to, before, d)], d);
      assert ClausesOf(sets)[1..] == ClausesOf(sets[1..]);
    }
  }

  /** Standing at the end of a statement, `w` is read as `where` and takes all that is left. */
  ghost predicate EndsWith(w: Compiled, where: Option<Pred>) {
    && (w.sql == [] || w.sql[0] == WhereKw)
    && forall ts, i: nat, ps, j: nat :: Stands(w, ts, i, ps, j) && i + |w.sql| == |ts| && j + |w.params| == |ps| ==>
         ParseWhere(ts, i, ps, j) == Done(where, |ts|, |ps|)
  }

  lemma WhereEnds(wheres: seq<Q>, d: Dialect)
    ensures EndsWith(WhereClause(wheres, PlainRef, d), WhereTree(wheres, PlainRef, d))
  {
    var w := WhereClause(wheres, PlainRef, d);
    forall ts, i: nat, ps, j: nat | Stands(w, ts, i, ps, j) && i + |w.sql| == |ts| && j + |w.params| == |ps|
      ensures ParseWhere(ts, i, ps, j) == Done(WhereTree(wheres, PlainRef, d), |ts|, |ps|)
    {
      WhereReads(wheres, PlainRef, d, ts, i, ps, j);
    }
  }

  /** `all` then `w` stand from token `i` to the end of a statement. */
  ghost predicate ListThenEnd(all: Compiled, between: nat, w: Compiled, ts: seq<Token>, i: nat, ps: seq<Value>) {
    var k := i + |all.sql| + between;
    && Stands(all, ts, i, ps, 0) && Stands(w, ts, k, ps, |all.params|)
    && k + |w.sql| == |ts| && |all.params| + |w.params| == |ps|
  }

  lemma UpdateReads(table: string, sets: seq<Assignment>, w: Compiled, where: Option<Pred>, ts: seq<Token>,
                    ps: seq<Value>)
    requires sets != [] && EndsWith(w, where) && ListThenEnd(Joined(SetParts(sets), Comma), 0, w, ts, 3, ps)
    requires ts[0] == UpdateKw && ts[1] == Name(table) && ts[2] == SetKw
    ensures ParseUpdate(ts, ps) == Some(UpdateStmt(table, ClausesOf(sets), where))
  {
    hide ParseSets;
    hide ClausesOf;
    hide SetParts;
    hide Join;
    hide Here;
    SetsRead(sets, ts, 3, ps, 0);
  }

  lemma UpdateStands(table: string, all: Compiled, w: Compiled, c: Compiled)
    requires c == Compiled([UpdateKw, Name(table), SetKw] + (all.sql + w.sql), all.params + w.params)
    ensures ListThenEnd(all, 0, w, c.sql, 3, c.params)
    ensures c.sql[0] == UpdateKw && c.sql[1] == Name(table) && c.sql[2] == SetKw
  {
    var head: seq<Token> := [UpdateKw, Name(table), SetKw];
    assert c.sql[0] == head[0] && c.sql[1] == head[1] && c.sql[2] == head[2];
  }

  /** A compiled UPDATE, parsed with its parameters taken left to right across SET and WHERE, does
      to every row what the call asks for: all expressions on the old row, where all filters pass. */
  lemma UpdateMeansAssignments(table: string, sets: seq<Assignment>, wheres: seq<Q>, row: Row, d: Dialect)
    requires sets != [] && Like.KeepsSpecials(d.strLower)
    ensures var c := UpdateSql(table, sets, wheres, d).value;
      var u := ParseUpdate(c.sql, c.params);
      && u.Some? && u.value.table == table
      && ExecuteUpdate(u.value, row, d) == UpdatedRow(sets, wheres, row, d)
  {
    hide EndsWith;
    hide ListThenEnd;
    hide ParseUpdate;
    hide WhereClause;
    hide WhereTree;
    hide Passes;
    hide ApplySets;
    WhereEnds(wheres, d);
    var c, w := UpdateSql(table, sets, wheres, d).value, WhereClause(wheres, PlainRef, d);
    UpdateStands(table, Joined(SetParts(sets), Comma), w, c);
    UpdateReads(table, sets, w, WhereTree(wheres, PlainRef, d), c.sql, c.params);
    WhereMeans(wheres, row, d);
    SetsMean(sets, row, row, d);
  }

  lemma WhereMeans(wheres: seq<Q>, row: Row, d: Dialect)
    requires Like.KeepsSpecials(d.strLower)
    ensures Keeps(WhereTree(wheres, PlainRef, d), RowCells(row), d) <==> Passes(wheres, RowField(row), d)
  {
    var w := WhereClause(wheres, PlainRef, d);
    WhereReads(wheres, PlainRef, d, w.sql, 0, w.params, 0);
    WhereMeansFilters(wheres, PlainRef, RowCells(row), RowField(row), d);
  }

  // ---------------------------------------------------------------- aggregates

  /** An aggregate over `*` (None) or one column. */
  datatype Aggregate = Aggregate(name: string, column: Option<string>)

  /** `Aggregate.as_sql`. */
  function AggregateFrag(a: Aggregate): Compiled {
    Compiled([AggKw(a.name), LParen, if a.column.None? then Star else Col(ColRef("", a.column.value)), RParen], [])
  }

  function AggregateFrags(aggs: seq<Aggregate>): (parts: seq<Compiled>)
    ensures |parts| == |aggs|
  {
    if aggs == [] then [] else [AggregateFrag(aggs[0])] + AggregateFrags(aggs[1..])
  }

  /** `aggregate`: SELECT list, table, WHERE; fragment parameters come before the filters'. */
  function AggregateSql(table: string, frags: seq<Compiled>, wheres: seq<Q>, d: Dialect): Compiled {
    var w := WhereClause(wheres, PlainRef, d);
    Compiled([SelectKw] + (Join(frags, Comma) + ([FromKw, Name(table)] + w.sql)), Params(frags) + w.params)
  }

  datatype AggregateStmt = AggregateStmt(list: seq<Aggregate>, table: string, where: Option<Pred>)

  function ParseAggregates(ts: seq<Token>, i: nat): (r: Parsed<seq<Aggregate>>)
    ensures r.Done? ==> i < r.i <= |ts|
    decreases |ts| - i
  {
    if i + 4 > |ts| || !ts[i].AggKw? || ts[i + 1] != LParen || !(ts[i + 2].Star? || ts[i + 2].Col?) then Fail
    else if ts[i + 3] != RParen then Fail else
    var one := Aggregate(ts[i].name, if ts[i + 2].Star? then None else Some(ts[i + 2].ref.column));
    if !At(ts, i + 4, Comma) then Done([one], i + 4, 0) else
    var more := ParseAggregates(ts, i + 5);
    if more.Done? then Done([one] + more.tree, more.i, 0) else Fail
  }

  /** A whole aggregate query: every token and every parameter must be used. */
  function ParseAggregateStmt(ts: seq<Token>, ps: seq<Value>): Option<AggregateStmt> {
    if !At(ts, 0, SelectKw) then None else
    var list := ParseAggregates(ts, 1);
    if list.Fail? || !At(ts, list.i, FromKw) || list.i + 1 >= |ts| || !ts[list.i + 1].Name? then None else
    var w := ParseWhere(ts, list.i + 2, ps, 0);
    if w.Done? then Some(AggregateStmt(list.tree, ts[list.i + 1].name, w.tree)) else None
  }

  lemma FirstAggregateReads(a: Aggregate, ts: seq<Token>, i: nat)
    requires Here(ts, i, AggregateFrag(a).sql)
    ensures ParseAggregates(ts, i) ==
      if !At(ts, i + 4, Comma) then Done([a], i + 4, 0)
      else
        var more := ParseAggregates(ts, i + 5);
        if more.Done? then Done([a] + more.tree, more.i, 0) else Fail
  {
    var f := AggregateFrag(a).sql;
    assert ts[i + 0] == f[0] && ts[i + 1] == f[1] && ts[i + 2] == f[2] && ts[i + 3] == f[3];
  }

  lemma {:induction false} AggregatesRead(aggs: seq<Aggregate>, ts: seq<Token>, i: nat, ps: seq<Value>)
    requires aggs != [] && Stands(Joined(AggregateFrags(aggs), Comma), ts, i, ps, 0)
    requires !At(ts, i + |Join(AggregateFrags(aggs), Comma)|, Comma)
    ensures ParseAggregates(ts, i) == Done(aggs, i + |Join(AggregateFrags(aggs), Comma)|, 0)
    ensures Params(AggregateFrags(aggs)) == []
  {
    hide ParseAggregates;
    hide Here;
    var parts := AggregateFrags(aggs);
    JoinSplits(parts, Comma, ts, i, ps, 0);
    FirstAggregateReads(aggs[0], ts, i);
    assert aggs == [aggs[0]] + aggs[1..];
    if |aggs| > 1 {
      AggregatesRead(aggs[1..], ts, i + 5, ps);
    } else {
      assert [aggs[0]] == aggs;
    }
  }

  lemma AggregateReads(table: string, aggs: seq<Aggregate>, w: Compiled, where: Option<Pred>, ts: seq<Token>,
                       ps: seq<Value>)
    requires aggs != [] && EndsWith(w, where) && ListThenEnd(Joined(AggregateFrags(aggs), Comma), 2, w, ts, 1, ps)
    requires ts[0] == SelectKw
    requires var k := 1 + |Join(AggregateFrags(aggs), Comma)|; ts[k] == FromKw && ts[k + 1] == Name(table)
    ensures ParseAggregateStmt(ts, ps) == Some(AggregateStmt(aggs, table, where))
  {
    AggregatesRead(aggs, ts, 1, ps);
  }

  lemma AggregateStands(table: string, all: Compiled, w: Compiled, c: Compiled)
    requires c == Compiled([SelectKw] + (all.sql + ([FromKw, Name(table)] + w.sql)), all.params + w.params)
    ensures ListThenEnd(all, 2, w, c.sql, 1, c.params)
    ensures var k := 1 + |all.sql|; c.sql[0] == SelectKw && c.sql[k] == FromKw && c.sql[k + 1] == Name(table)
  {
    var from: seq<Token> := [FromKw, Name(table)];
    assert c.sql[0] == [SelectKw][0];
    var k := 1 + |all.sql|;
    HereSplits(c.sql, k, from, w.sql);
    assert c.sql[k + 0] == from[0] && c.sql[k + 1] == from[1];
  }

  /** A compiled aggregate asks for the given functions, of the given table, over exactly the rows
      that pass the filters. */
  lemma AggregateMeansFilteredRows(table: string, aggs: seq<Aggregate>, wheres: seq<Q>, row: Row, d: Dialect)
    requires aggs != [] && Like.KeepsSpecials(d.strLower)
    ensures var c := AggregateSql(table, AggregateFrags(aggs), wheres, d);
      var read := ParseAggregateStmt(c.sql, c.params);
      && read.Some? && read.value.list == aggs && read.value.table == table
      && (Keeps(read.value.where, RowCells(row), d) <==> Passes(wheres, RowField(row), d))
  {
    WhereEnds(wheres, d);
    var c, w := AggregateSql(table, AggregateFrags(aggs), wheres, d), WhereClause(wheres, PlainRef, d);
    AggregateStands(table, Joined(AggregateFrags(aggs), Comma), w, c);
    AggregateReads(table, aggs, w, WhereTree(wheres, PlainRef, d), c.sql, c.params);
    WhereMeans(wheres, row, d);
  }
}
