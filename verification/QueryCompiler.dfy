/** Q trees and F expressions to SQL text with positional parameters, and what that text means. */
module QueryCompiler {
  import opened Basics
  import opened SqlLanguage
  import Like

  // ---------------------------------------------------------------- Q trees

  /** A column reached by following foreign keys from the queried model. */
  datatype Key = Key(path: seq<string>, column: string)

  datatype Lookup =
    | Exact(v: Value)
    | IExact(v: Value)
    | Ordered(op: CompareOp, v: Value)
    | In(vs: seq<Value>)
    | IsNull(wanted: bool)
    | Range(lo: Value, hi: Value)
    | LikeLookup(shape: Like.Shape, ci: bool, text: string)

  datatype Connector = AND | OR

  datatype Q = Q(connector: Connector, negated: bool, children: seq<Child>)

  datatype Child = Sub(q: Q) | Leaf(key: Key, lookup: Lookup)

  // ---------------------------------------------------------------- what a tree means

  /** `x IN (...)` in three-valued logic, without running through the list. */
  ghost function Member(cell: Value, vs: seq<Value>): Truth {
    if vs == [] then False3
    else if !cell.Null? && cell in vs then True3
    else if cell.Null? || Null in vs then Unknown3
    else False3
  }

  ghost function Meaning(lookup: Lookup, cell: Value, d: Dialect): Truth {
    match lookup
    case Exact(v) => if v.Null? then Sure(cell.Null?) else Compare(Eq, cell, v)
    case IExact(v) => Compare(Eq, Lower(cell, d), Lower(v, d))
    case Ordered(op, v) => Compare(op, cell, v)
    case In(vs) => Member(cell, vs)
    case IsNull(wanted) => Sure(cell.Null? == wanted)
    case Range(lo, hi) => And3(Compare(Gte, cell, lo), Compare(Lte, cell, hi))
    case LikeLookup(shape, ci, text) =>
      if cell.Null? then Unknown3
      else if ci then Sure(Like.Occurs(shape, Like.Lowered(text, d.strLower), TextOf(Lower(cell, d), d)))
      else Sure(Like.Occurs(shape, text, TextOf(cell, d)))
  }

  /** `None` for a tree without any condition. */
  ghost function Denote(q: Q, field: Key -> Value, d: Dialect): Option<Truth>
    decreases q
  {
    var ts := DenoteChildren(q.children, field, d);
    if ts == [] then None else
    var all := Combine(q.connector, ts);
    Some(if q.negated then Not3(all) else all)
  }

  ghost function DenoteChildren(cs: seq<Child>, field: Key -> Value, d: Dialect): seq<Truth>
    decreases cs
  {
    if cs == [] then [] else
    var rest := DenoteChildren(cs[1..], field, d);
    var c := cs[0];
    match c
    case Sub(q) => assert q < c; (match Denote(q, field, d) case None => rest case Some(t) => [t] + rest)
    case Leaf(key, lookup) => [Meaning(lookup, field(key), d)] + rest
  }

  function Combine(c: Connector, ts: seq<Truth>): Truth
    requires ts != []
  {
    if |ts| == 1 then ts[0]
    else if c.AND? then And3(ts[0], Combine(c, ts[1..]))
    else Or3(ts[0], Combine(c, ts[1..]))
  }

  /** A row passes a list of filters when every non-empty one is true. */
  ghost predicate Passes(wheres: seq<Q>, field: Key -> Value, d: Dialect) {
    forall i :: 0 <= i < |wheres| ==> Denote(wheres[i], field, d) in {None, Some(True3)}
  }

  // ---------------------------------------------------------------- compilation

  datatype Compiled = Compiled(sql: seq<Token>, params: seq<Value>)

  /** `sep.join(parts)`. */
  function Join(parts: seq<Compiled>, sep: Token): seq<Token> {
    if parts == [] then [] else if |parts| == 1 then parts[0].sql else parts[0].sql + ([sep] + Join(parts[1..], sep))
  }

  /** `placeholders(n)`. */
  function Placeholders(n: nat): seq<Token> {
    if n == 0 then [] else if n == 1 then [Mark] else [Mark, Comma] + Placeholders(n - 1)
  }

  /** `_operator_sql` and `_like`. */
  function OperatorSql(col: ColRef, lookup: Lookup, d: Dialect): Compiled {
    match lookup
    case Exact(v) =>
      if v.Null? then Compiled([Col(col), IsKw, NullKw], []) else Compiled([Col(col), Cmp(Eq), Mark], [v])
    case IExact(v) =>
      Compiled([LowerKw, LParen, Col(col), RParen, Cmp(Eq), LowerKw, LParen, Mark, RParen], [v])
    case Ordered(op, v) => Compiled([Col(col), Cmp(op), Mark], [v])
    case In(vs) =>
      if vs == [] then Compiled([Lit(1), Cmp(Eq), Lit(0)], [])
      else Compiled([Col(col), InKw, LParen] + (Placeholders(|vs|) + [RParen]), vs)
    case IsNull(wanted) =>
      if wanted then Compiled([Col(col), IsKw, NullKw], []) else Compiled([Col(col), IsKw, NotKw, NullKw], [])
    case Range(lo, hi) => Compiled([Col(col), BetweenKw, Mark, AndKw, Mark], [lo, hi])
    case LikeLookup(shape, ci, text) =>
      var param := [Text(Like.LikeParam(shape, text, ci, d.strLower))];
      if ci then Compiled([LowerKw, LParen, Col(col), RParen, LikeKw, Mark, EscapeKw(Like.ESCAPE)], param)
      else Compiled([Col(col), LikeKw, Mark, EscapeKw(Like.ESCAPE)], param)
  }

  function Kw(c: Connector): Token { if c.AND? then AndKw else OrKw }

  function Params(parts: seq<Compiled>): seq<Value> {
    if parts == [] then [] else parts[0].params + Params(parts[1..])
  }

  function Wrap(c: Compiled): Compiled { Compiled([LParen] + (c.sql + [RParen]), c.params) }

  /** `compile_q`; `refs` is how a key is written in SQL (see `RelationJoins`). */
  function CompileQ(q: Q, refs: Key -> ColRef, d: Dialect): Compiled
    decreases q
  {
    Assemble(q, CompileChildren(q.children, refs, d))
  }

  /** The end of `compile_q`: join the parts, negate the whole. */
  function Assemble(q: Q, parts: seq<Compiled>): Compiled {
    if parts == [] then Compiled([], []) else
    var joined := Join(parts, Kw(q.connector));
    Compiled(if q.negated then [NotKw, LParen] + (joined + [RParen]) else joined, Params(parts))
  }

  function CompileChildren(cs: seq<Child>, refs: Key -> ColRef, d: Dialect): seq<Compiled>
    decreases cs
  {
    if cs == [] then [] else
    var rest := CompileChildren(cs[1..], refs, d);
    var c := cs[0];
    match c
    case Sub(q) => assert q < c; var sub := CompileQ(q, refs, d); if sub.sql == [] then rest else [Wrap(sub)] + rest
    case Leaf(key, lookup) => [OperatorSql(refs(key), lookup, d)] + rest
  }

  /** `_where_clause`, without the leading keyword when nothing is left to filter on. */
  function WhereClause(wheres: seq<Q>, refs: Key -> ColRef, d: Dialect): Compiled {
    var parts := WhereParts(wheres, refs, d);
    if parts == [] then Compiled([], []) else Compiled([WhereKw] + Join(parts, AndKw), Params(parts))
  }

  function WhereParts(wheres: seq<Q>, refs: Key -> ColRef, d: Dialect): seq<Compiled> {
    if wheres == [] then [] else
    var c := CompileQ(wheres[0], refs, d);
    (if c.sql == [] then [] else [Wrap(c)]) + WhereParts(wheres[1..], refs, d)
  }

  // ---------------------------------------------------------------- the tree that is read back

  function OperatorTree(col: ColRef, lookup: Lookup, d: Dialect): Pred {
    match lookup
    case Exact(v) => if v.Null? then PIsNull(OCol(col), false) else PCompare(Eq, OCol(col), OVal(v))
    case IExact(v) => PCompare(Eq, OLower(OCol(col)), OLower(OVal(v)))
    case Ordered(op, v) => PCompare(op, OCol(col), OVal(v))
    case In(vs) => if vs == [] then PCompare(Eq, OVal(Num(1)), OVal(Num(0))) else PIn(OCol(col), vs)
    case IsNull(wanted) => PIsNull(OCol(col), !wanted)
    case Range(lo, hi) => PBetween(OCol(col), OVal(lo), OVal(hi))
    case LikeLookup(shape, ci, text) =>
      PLike(if ci then OLower(OCol(col)) else OCol(col), OVal(Text(Like.LikeParam(shape, text, ci, d.strLower))))
  }

  function Tree(q: Q, refs: Key -> ColRef, d: Dialect): Option<Pred>
    decreases q
  {
    var ts := Trees(q.children, refs, d);
    if ts == [] then None else
    var all := Chain(q.connector, ts);
    Some(if q.negated then PNot(all) else all)
  }

  function Trees(cs: seq<Child>, refs: Key -> ColRef, d: Dialect): seq<Pred>
    decreases cs
  {
    if cs == [] then [] else
    var rest := Trees(cs[1..], refs, d);
    var c := cs[0];
    match c
    case Sub(q) => assert q < c; (match Tree(q, refs, d) case None => rest case Some(t) => [t] + rest)
    case Leaf(key, lookup) => [OperatorTree(refs(key), lookup, d)] + rest
  }

  function Chain(c: Connector, ts: seq<Pred>): Pred
    requires ts != []
  {
    if |ts| == 1 then ts[0]
    else if c.AND? then PAnd(ts[0], Chain(c, ts[1..]))
    else POr(ts[0], Chain(c, ts[1..]))
  }

  // ---------------------------------------------------------------- reading one part

  /** `part` stands in `whole` from position `i` on. */
  ghost predicate Here<T>(whole: seq<T>, i: nat, part: seq<T>) {
    i + |part| <= |whole| && forall k :: 0 <= k < |part| ==> whole[i + k] == part[k]
  }

  lemma HereSplits<T>(whole: seq<T>, i: nat, a: seq<T>, b: seq<T>)
    requires Here(whole, i, a + b)
    ensures Here(whole, i, a) && Here(whole, i + |a|, b)
  {
    forall k | 0 <= k < |a| ensures whole[i + k] == a[k] { assert (a + b)[k] == a[k]; }
    forall k | 0 <= k < |b| ensures whole[i + |a| + k] == b[k] { assert (a + b)[|a| + k] == b[k]; }
  }

  /** The text and the parameters of `c` stand at token `i` and parameter `j`. */
  ghost predicate Stands(c: Compiled, ts: seq<Token>, i: nat, ps: seq<Value>, j: nat) {
    Here(ts, i, c.sql) && Here(ps, j, c.params)
  }

  /** Wherever `part` stands, a NOT-level condition read there is `tree` and takes exactly it. */
  ghost predicate Reads(part: Compiled, tree: Pred) {
    forall ts, i: nat, ps, j: nat :: Stands(part, ts, i, ps, j) ==>
      ParseNot(ts, i, ps, j) == Done(tree, i + |part.sql|, j + |part.params|)
  }

  lemma {:induction false} MarksRead(vs: seq<Value>, ts: seq<Token>, i: nat, ps: seq<Value>, j: nat)
    requires vs != [] && Here(ts, i, Placeholders(|vs|)) && At(ts, i + |Placeholders(|vs|)|, RParen) && Here(ps, j, vs)
    ensures ParseMarks(ts, i, ps, j) == Done(vs, i + |Placeholders(|vs|)| + 1, j + |vs|)
  {
    var marks := Placeholders(|vs|);
    assert marks[0] == Mark && vs[0] == ps[j];
    if |vs| == 1 {
      assert [vs[0]] == vs;
    } else {
      HereSplits(ts, i, [Mark, Comma], Placeholders(|vs| - 1));
      assert ts[i + 1] == [Mark, Comma][1];
      assert vs == [vs[0]] + vs[1..];
      HereSplits(ps, j, [vs[0]], vs[1..]);
      MarksRead(vs[1..], ts, i + 2, ps, j + 1);
    }
  }

  lemma InReads(col: ColRef, vs: seq<Value>, ts: seq<Token>, i: nat, ps: seq<Value>, j: nat)
    requires vs != [] && Here(ts, i, [Col(col), InKw, LParen] + (Placeholders(|vs|) + [RParen])) && Here(ps, j, vs)
    ensures ParsePredicate(ts, i, ps, j) == Done(PIn(OCol(col), vs), i + 4 + |Placeholders(|vs|)|, j + |vs|)
  {
    hide Placeholders;
    hide ParseMarks;
    var head, marks := [Col(col), InKw, LParen], Placeholders(|vs|);
    HereSplits(ts, i, head, marks + [RParen]);
    HereSplits(ts, i + 3, marks, [RParen]);
    assert ts[i + 0] == head[0] && ts[i + 1] == head[1] && ts[i + 2] == head[2];
    assert ts[i + 3 + |marks| + 0] == [RParen][0];
    MarksRead(vs, ts, i + 3, ps, j);
  }

  /** `LOWER(col)` or `LOWER(?)` as one operand. */
  lemma LowerReads(inner: Token, ts: seq<Token>, i: nat, ps: seq<Value>, j: nat)
    requires Here(ts, i, [LowerKw, LParen, inner, RParen]) && (inner.Col? || (inner == Mark && j < |ps|))
    ensures ParseOperand(ts, i, ps, j) ==
      if inner.Col? then Done(OLower(OCol(inner.ref)), i + 4, j) else Done(OLower(OVal(ps[j])), i + 4, j + 1)
  {
    var f := [LowerKw, LParen, inner, RParen];
    assert ts[i + 0] == f[0] && ts[i + 1] == f[1] && ts[i + 2] == f[2] && ts[i + 3] == f[3];
    assert ParseOperand(ts, i + 2, ps, j) ==
      if inner.Col? then Done(OCol(inner.ref), i + 3, j) else Done(OVal(ps[j]), i + 3, j + 1);
  }

  lemma IExactReads(col: ColRef, v: Value, ts: seq<Token>, i: nat, ps: seq<Value>, j: nat)
    requires Here(ts, i, [LowerKw, LParen, Col(col), RParen] + ([Cmp(Eq)] + [LowerKw, LParen, Mark, RParen])) &&
      Here(ps, j, [v])
    ensures ParsePredicate(ts, i, ps, j) == Done(PCompare(Eq, OLower(OCol(col)), OLower(OVal(v))), i + 9, j + 1)
  {
    var right := [LowerKw, LParen, Mark, RParen];
    HereSplits(ts, i, [LowerKw, LParen, Col(col), RParen], [Cmp(Eq)] + right);
    HereSplits(ts, i + 4, [Cmp(Eq)], right);
    assert ts[i + 4 + 0] == [Cmp(Eq)][0] && ps[j + 0] == [v][0];
    LowerReads(Col(col), ts, i, ps, j);
    LowerReads(Mark, ts, i + 5, ps, j);
  }

  lemma RangeReads(col: ColRef, lo: Value, hi: Value, ts: seq<Token>, i: nat, ps: seq<Value>, j: nat)
    requires Here(ts, i, [Col(col), BetweenKw, Mark, AndKw, Mark]) && Here(ps, j, [lo, hi])
    ensures ParsePredicate(ts, i, ps, j) == Done(PBetween(OCol(col), OVal(lo), OVal(hi)), i + 5, j + 2)
  {
    var f := [Col(col), BetweenKw, Mark, AndKw, Mark];
    assert ts[i + 0] == f[0] && ts[i + 1] == f[1] && ts[i + 2] == f[2] && ts[i + 3] == f[3] && ts[i + 4] == f[4];
    assert ps[j + 0] == [lo, hi][0] && ps[j + 1] == [lo, hi][1];
  }

  lemma LikeReads(col: ColRef, ci: bool, param: Value, ts: seq<Token>, i: nat, ps: seq<Value>, j: nat)
    requires Here(ts, i, (if ci then [LowerKw, LParen, Col(col), RParen] else [Col(col)]) +
                         [LikeKw, Mark, EscapeKw(Like.ESCAPE)])
    requires Here(ps, j, [param])
    ensures ParsePredicate(ts, i, ps, j) ==
      Done(PLike(if ci then OLower(OCol(col)) else OCol(col), OVal(param)), if ci then i + 7 else i + 4, j + 1)
  {
    var left := if ci then [LowerKw, LParen, Col(col), RParen] else [Col(col)];
    var right := [LikeKw, Mark, EscapeKw(Like.ESCAPE)];
    HereSplits(ts, i, left, right);
    var k := i + |left|;
    assert ts[k + 0] == right[0] && ts[k + 1] == right[1] && ts[k + 2] == right[2] && ps[j + 0] == [param][0];
    if ci { LowerReads(Col(col), ts, i, ps, j); } else { assert ts[i + 0] == left[0]; }
  }

  lemma ShortReads(col: ColRef, lookup: Lookup, d: Dialect, ts: seq<Token>, i: nat, ps: seq<Value>, j: nat)
    requires lookup.Exact? || lookup.Ordered? || lookup.IsNull? || lookup == In([])
    requires Stands(OperatorSql(col, lookup, d), ts, i, ps, j)
    ensures var c := OperatorSql(col, lookup, d);
      ParsePredicate(ts, i, ps, j) == Done(OperatorTree(col, lookup, d), i + |c.sql|, j + |c.params|)
  {
    hide Placeholders;
    hide ParseMarks;
    var c := OperatorSql(col, lookup, d);
    assert ts[i + 0] == c.sql[0] && ts[i + 1] == c.sql[1] && ts[i + 2] == c.sql[2];
    assert |c.params| > 0 ==> ps[j + 0] == c.params[0];
    assert |c.sql| > 3 ==> ts[i + 3] == c.sql[3];
  }

  /** An operator fragment does not begin like a negation or a parenthesis. */
  lemma OperatorStarts(col: ColRef, lookup: Lookup, d: Dialect, ts: seq<Token>, i: nat, ps: seq<Value>, j: nat)
    requires Stands(OperatorSql(col, lookup, d), ts, i, ps, j)
    ensures ParseNot(ts, i, ps, j) == ParsePredicate(ts, i, ps, j)
  {
    hide ParsePredicate;
    hide Placeholders;
    assert ts[i + 0] == OperatorSql(col, lookup, d).sql[0];
  }

  /** Every operator fragment is one predicate; a range takes its own AND with it. */
  lemma OperatorReads(col: ColRef, lookup: Lookup, d: Dialect)
    ensures Reads(OperatorSql(col, lookup, d), OperatorTree(col, lookup, d))
  {
    hide ParseNot;
    hide ParsePredicate;
    hide Placeholders;
    var c := OperatorSql(col, lookup, d);
    forall ts, i: nat, ps, j: nat | Stands(c, ts, i, ps, j)
      ensures ParseNot(ts, i, ps, j) == Done(OperatorTree(col, lookup, d), i + |c.sql|, j + |c.params|)
    {
      OperatorStarts(col, lookup, d, ts, i, ps, j);
      match lookup
      case In(vs) =>
        if vs != [] { InReads(col, vs, ts, i, ps, j); } else { ShortReads(col, lookup, d, ts, i, ps, j); }
      case Range(lo, hi) => RangeReads(col, lo, hi, ts, i, ps, j);
      case IExact(v) =>
        assert c.sql == [LowerKw, LParen, Col(col), RParen] + ([Cmp(Eq)] + [LowerKw, LParen, Mark, RParen]);
        IExactReads(col, v, ts, i, ps, j);
      case LikeLookup(shape, ci, text) =>
        assert c.sql == (if ci then [LowerKw, LParen, Col(col), RParen] else [Col(col)]) +
                        [LikeKw, Mark, EscapeKw(Like.ESCAPE)];
        LikeReads(col, ci, c.params[0], ts, i, ps, j);
      case _ => ShortReads(col, lookup, d, ts, i, ps, j);
    }
  }

  // ---------------------------------------------------------------- reading a whole condition

  /** A condition ends at the end of the statement or at a closing parenthesis. */
  predicate Ends(ts: seq<Token>, i: nat) { i >= |ts| || ts[i] == RParen }

  ghost predicate CondReads(c: Compiled, tree: Pred) {
    forall ts, i: nat, ps, j: nat :: Stands(c, ts, i, ps, j) && Ends(ts, i + |c.sql|) ==>
      ParseOr(ts, i, ps, j) == Done(tree, i + |c.sql|, j + |c.params|)
  }

  ghost predicate AllRead(parts: seq<Compiled>, trees: seq<Pred>) {
    && |parts| == |trees|
    && forall k :: 0 <= k < |parts| ==> parts[k].sql != [] && Reads(parts[k], trees[k])
  }

  function Joined(parts: seq<Compiled>, sep: Token): Compiled { Compiled(Join(parts, sep), Params(parts)) }

  /** A joined list is its first part, and, after a separator, the rest. */
  lemma JoinSplits(parts: seq<Compiled>, sep: Token, ts: seq<Token>, i: nat, ps: seq<Value>, j: nat)
    requires parts != [] && Stands(Joined(parts, sep), ts, i, ps, j)
    ensures Stands(parts[0], ts, i, ps, j)
    ensures |parts| == 1 ==> |Join(parts, sep)| == |parts[0].sql| && |Params(parts)| == |parts[0].params|
    ensures |parts| > 1 ==>
      var i', j' := i + |parts[0].sql| + 1, j + |parts[0].params|;
      && At(ts, i' - 1, sep) && Stands(Joined(parts[1..], sep), ts, i', ps, j')
      && i + |Join(parts, sep)| == i' + |Join(parts[1..], sep)| && j + |Params(parts)| == j' + |Params(parts[1..])|
  {
    HereSplits(ps, j, parts[0].params, Params(parts[1..]));
    if |parts| > 1 {
      HereSplits(ts, i, parts[0].sql, [sep] + Join(parts[1..], sep));
      HereSplits(ts, i + |parts[0].sql|, [sep], Join(parts[1..], sep));
      assert ts[i + |parts[0].sql| + 0] == [sep][0];
    }
  }

  lemma HeadReads(parts: seq<Compiled>, trees: seq<Pred>, ts: seq<Token>, i: nat, ps: seq<Value>, j: nat)
    requires parts != [] && AllRead(parts, trees) && Stands(parts[0], ts, i, ps, j)
    ensures ParseNot(ts, i, ps, j) == Done(trees[0], i + |parts[0].sql|, j + |parts[0].params|)
    ensures |trees| == |parts| && AllRead(parts[1..], trees[1..])
  {
    assert Reads(parts[0], trees[0]);
  }

  lemma {:induction false} AndChainReads(parts: seq<Compiled>, trees: seq<Pred>, ts: seq<Token>, i: nat,
                                         ps: seq<Value>, j: nat)
    requires parts != [] && AllRead(parts, trees) && Stands(Joined(parts, AndKw), ts, i, ps, j)
    requires !At(ts, i + |Join(parts, AndKw)|, AndKw)
    ensures ParseAnd(ts, i, ps, j) == Done(Chain(AND, trees), i + |Join(parts, AndKw)|, j + |Params(parts)|)
  {
    hide Reads;
    hide AllRead;
    hide Stands;
    hide Join;
    hide Params;
    hide ParseNot;
    JoinSplits(parts, AndKw, ts, i, ps, j);
    HeadReads(parts, trees, ts, i, ps, j);
    if |parts| > 1 {
      AndChainReads(parts[1..], trees[1..], ts, i + |parts[0].sql| + 1, ps, j + |parts[0].params|);
    }
  }

  lemma {:induction false} OrChainReads(parts: seq<Compiled>, trees: seq<Pred>, ts: seq<Token>, i: nat, ps: seq<Value>,
                                        j: nat)
    requires parts != [] && AllRead(parts, trees) && Stands(Joined(parts, OrKw), ts, i, ps, j)
    requires Ends(ts, i + |Join(parts, OrKw)|)
    ensures ParseOr(ts, i, ps, j) == Done(Chain(OR, trees), i + |Join(parts, OrKw)|, j + |Params(parts)|)
  {
    hide Reads;
    hide AllRead;
    hide Stands;
    hide Join;
    hide Params;
    hide ParseNot;
    JoinSplits(parts, OrKw, ts, i, ps, j);
    HeadReads(parts, trees, ts, i, ps, j);
    if |parts| > 1 {
      OrChainReads(parts[1..], trees[1..], ts, i + |parts[0].sql| + 1, ps, j + |parts[0].params|);
    }
  }

  lemma ChainReads(c: Connector, parts: seq<Compiled>, trees: seq<Pred>)
    requires parts != [] && AllRead(parts, trees)
    ensures CondReads(Joined(parts, Kw(c)), Chain(c, trees))
  {
    var all := Joined(parts, Kw(c));
    forall ts, i: nat, ps, j: nat | Stands(all, ts, i, ps, j) && Ends(ts, i + |all.sql|)
      ensures ParseOr(ts, i, ps, j) == Done(Chain(c, trees), i + |all.sql|, j + |all.params|)
    {
      match c
      case AND => AndChainReads(parts, trees, ts, i, ps, j);
      case OR => OrChainReads(parts, trees, ts, i, ps, j);
    }
  }

  lemma WrapReads(c: Compiled, tree: Pred)
    requires CondReads(c, tree)
    ensures Reads(Wrap(c), tree)
  {
    var w := Wrap(c);
    forall ts, i: nat, ps, j: nat | Stands(w, ts, i, ps, j)
      ensures ParseNot(ts, i, ps, j) == Done(tree, i + |w.sql|, j + |w.params|)
    {
      HereSplits(ts, i, [LParen], c.sql + [RParen]);
      HereSplits(ts, i + 1, c.sql, [RParen]);
      assert ts[i + 0] == [LParen][0] && ts[i + 1 + |c.sql| + 0] == [RParen][0];
      assert Stands(c, ts, i + 1, ps, j);
    }
  }

  function Negated(c: Compiled): Compiled { Compiled([NotKw, LParen] + (c.sql + [RParen]), c.params) }

  lemma NotReads(c: Compiled, tree: Pred)
    requires CondReads(c, tree)
    ensures CondReads(Negated(c), PNot(tree))
  {
    WrapReads(c, tree);
    hide CondReads;
    hide ParseOr;
    var n := Negated(c);
    forall ts, i: nat, ps, j: nat | Stands(n, ts, i, ps, j) && Ends(ts, i + |n.sql|)
      ensures ParseOr(ts, i, ps, j) == Done(PNot(tree), i + |n.sql|, j + |n.params|)
    {
      assert n.sql == [NotKw] + Wrap(c).sql;
      HereSplits(ts, i, [NotKw], Wrap(c).sql);
      assert ts[i + 0] == [NotKw][0];
      assert Stands(Wrap(c), ts, i + 1, ps, j);
      assert ParseNot(ts, i, ps, j) == Done(PNot(tree), i + |n.sql|, j + |n.params|);
      EndsAfterNot(ts, i, ps, j);
    }
    CondReadsIs(n, PNot(tree));
  }

  lemma CondReadsIs(c: Compiled, tree: Pred)
    requires forall ts, i: nat, ps, j: nat :: Stands(c, ts, i, ps, j) && Ends(ts, i + |c.sql|) ==>
      ParseOr(ts, i, ps, j) == Done(tree, i + |c.sql|, j + |c.params|)
    ensures CondReads(c, tree)
  {
  }

  lemma EndsAfterNot(ts: seq<Token>, i: nat, ps: seq<Value>, j: nat)
    requires var r := ParseNot(ts, i, ps, j); r.Done? && Ends(ts, r.i)
    ensures ParseOr(ts, i, ps, j) == ParseNot(ts, i, ps, j)
  {
    hide ParseNot;
  }

  /** The emitted text of any tree, read by precedence, is one condition with the tree's structure,
      and its placeholders take exactly its parameters in order. */
  lemma {:induction false} CompiledQReads(q: Q, refs: Key -> ColRef, d: Dialect)
    ensures var c, t := CompileQ(q, refs, d), Tree(q, refs, d);
      if t.None? then c == Compiled([], []) else c.sql != [] && CondReads(c, t.value)
    decreases q
  {
    ChildrenRead(q.children, refs, d);
    var parts, trees := CompileChildren(q.children, refs, d), Trees(q.children, refs, d);
    if trees != [] {
      ChainReads(q.connector, parts, trees);
      if q.negated { NotReads(Joined(parts, Kw(q.connector)), Chain(q.connector, trees)); }
    }
  }

  lemma {:induction false} ChildrenRead(cs: seq<Child>, refs: Key -> ColRef, d: Dialect)
    ensures AllRead(CompileChildren(cs, refs, d), Trees(cs, refs, d))
    decreases cs
  {
    hide Reads;
    hide CondReads;
    hide AllRead;
    hide OperatorSql;
    hide OperatorTree;
    if cs == [] {
      NoneRead();
    } else {
      ChildrenRead(cs[1..], refs, d);
      var c, parts, trees := cs[0], CompileChildren(cs[1..], refs, d), Trees(cs[1..], refs, d);
      match c
      case Sub(q) =>
        assert q < c;
        CompiledQReads(q, refs, d);
        var sub, t := CompileQ(q, refs, d), Tree(q, refs, d);
        if t.Some? {
          WrapReads(sub, t.value);
          OneMoreRead(Wrap(sub), t.value, parts, trees);
        }
      case Leaf(key, lookup) =>
        OperatorReads(refs(key), lookup, d);
        OperatorIsText(refs(key), lookup, d);
        OneMoreRead(OperatorSql(refs(key), lookup, d), OperatorTree(refs(key), lookup, d), parts, trees);
    }
  }

  lemma NoneRead()
    ensures AllRead([], [])
  {
  }

  lemma OneMoreRead(part: Compiled, tree: Pred, parts: seq<Compiled>, trees: seq<Pred>)
    requires part.sql != [] && Reads(part, tree) && AllRead(parts, trees)
    ensures AllRead([part] + parts, [tree] + trees)
  {
    hide Reads;
  }

  lemma OperatorIsText(col: ColRef, lookup: Lookup, d: Dialect)
    ensures OperatorSql(col, lookup, d).sql != []
  {
  }

  // ---------------------------------------------------------------- meaning

  lemma {:induction false} EvalInIsMember(cell: Value, vs: seq<Value>)
    ensures EvalIn(cell, vs) == Member(cell, vs)
  {
    if vs != [] {
      EvalInIsMember(cell, vs[1..]);
      assert forall x :: x in vs <==> x == vs[0] || x in vs[1..];
    }
  }

  lemma OperatorMeans(col: ColRef, lookup: Lookup, cells: Cells, d: Dialect)
    requires Like.KeepsSpecials(d.strLower)
    ensures Eval(OperatorTree(col, lookup, d), cells, d) == Meaning(lookup, cells(col), d)
  {
    match lookup
    case In(vs) => EvalInIsMember(cells(col), vs);
    case LikeLookup(shape, ci, text) =>
      var v := cells(col);
      assert EvalOperand(OLower(OCol(col)), cells, d) == Lower(v, d);
      if !v.Null? {
        Like.LikeParamMeansOccurs(shape, text, if ci then TextOf(Lower(v, d), d) else TextOf(v, d), ci, d.strLower);
      }
    case Exact(v) =>
    case IExact(v) =>
      assert EvalOperand(OLower(OCol(col)), cells, d) == Lower(cells(col), d);
      assert EvalOperand(OLower(OVal(v)), cells, d) == Lower(v, d);
    case Ordered(op, v) =>
    case IsNull(wanted) =>
    case Range(lo, hi) =>
  }

  lemma {:induction false} ChainMeans(c: Connector, ps: seq<Pred>, ts: seq<Truth>, cells: Cells, d: Dialect)
    requires |ps| == |ts| > 0 && forall i :: 0 <= i < |ps| ==> Eval(ps[i], cells, d) == ts[i]
    ensures Eval(Chain(c, ps), cells, d) == Combine(c, ts)
  {
    if |ps| > 1 { ChainMeans(c, ps[1..], ts[1..], cells, d); }
  }

  function Keys(q: Q): set<Key>
    decreases q
  {
    KeysOf(q.children)
  }

  function KeysOf(cs: seq<Child>): set<Key>
    decreases cs
  {
    if cs == [] then {} else
    var c := cs[0];
    (match c case Sub(q) => assert q < c; Keys(q) case Leaf(key, _) => {key}) + KeysOf(cs[1..])
  }

  /** In SQL's cells, each key reads as the model's field. */
  ghost predicate Shows(keys: set<Key>, cells: Cells, refs: Key -> ColRef, field: Key -> Value) {
    forall k :: k in keys ==> cells(refs(k)) == field(k)
  }

  lemma {:induction false} TreeMeans(q: Q, refs: Key -> ColRef, cells: Cells, field: Key -> Value, d: Dialect)
    requires Like.KeepsSpecials(d.strLower) && Shows(Keys(q), cells, refs, field)
    ensures var t, m := Tree(q, refs, d), Denote(q, field, d);
      t.None? == m.None? && (t.Some? ==> Eval(t.value, cells, d) == m.value)
    decreases q
  {
    TreesMean(q.children, refs, cells, field, d);
    var ps, ts := Trees(q.children, refs, d), DenoteChildren(q.children, field, d);
    if ps != [] { ChainMeans(q.connector, ps, ts, cells, d); }
  }

  lemma {:induction false} TreesMean(cs: seq<Child>, refs: Key -> ColRef, cells: Cells, field: Key -> Value, d: Dialect)
    requires Like.KeepsSpecials(d.strLower) && Shows(KeysOf(cs), cells, refs, field)
    ensures var ps, ts := Trees(cs, refs, d), DenoteChildren(cs, field, d);
      |ps| == |ts| && forall i :: 0 <= i < |ps| ==> Eval(ps[i], cells, d) == ts[i]
    decreases cs
  {
    if cs != [] {
      TreesMean(cs[1..], refs, cells, field, d);
      var c := cs[0];
      match c
      case Sub(q) => assert q < c; TreeMeans(q, refs, cells, field, d);
      case Leaf(key, lookup) => OperatorMeans(refs(key), lookup, cells, d);
    }
  }

  /** Main result for conditions: reading the text back and evaluating it in three-valued logic,
      with parameters taken left to right, gives the meaning of the tree. */
  lemma CompiledQMeansQ(q: Q, refs: Key -> ColRef, cells: Cells, field: Key -> Value, d: Dialect)
    requires Like.KeepsSpecials(d.strLower) && Shows(Keys(q), cells, refs, field)
    ensures var c, m := CompileQ(q, refs, d), Denote(q, field, d);
      if m.None? then c == Compiled([], [])
      else var read := ParseOr(c.sql, 0, c.params, 0);
        read.Done? && read.i == |c.sql| && read.j == |c.params| && Eval(read.tree, cells, d) == m.value
  {
    CompiledQReads(q, refs, d);
    TreeMeans(q, refs, cells, field, d);
    var c := CompileQ(q, refs, d);
    assert Stands(c, c.sql, 0, c.params, 0);
  }

  // ---------------------------------------------------------------- WHERE

  /** An optional WHERE up to the end of a statement, taking every parameter that is left. */
  function ParseWhere(ts: seq<Token>, i: nat, ps: seq<Value>, j: nat): Parsed<Option<Pred>> {
    if i == |ts| then (if j == |ps| then Done(None, i, j) else Fail)
    else if At(ts, i, WhereKw) then
      var c := ParseOr(ts, i + 1, ps, j);
      if c.Done? && c.i == |ts| && c.j == |ps| then Done(Some(c.tree), c.i, c.j) else Fail
    else Fail
  }

  /** SQL keeps a row when the condition is true: neither false nor unknown. */
  predicate Keeps(where: Option<Pred>, cells: Cells, d: Dialect) {
    where.None? || Eval(where.value, cells, d).True3?
  }

  ghost function WhereTrees(wheres: seq<Q>, refs: Key -> ColRef, d: Dialect): seq<Pred> {
    if wheres == [] then [] else
    var t := Tree(wheres[0], refs, d);
    (if t.Some? then [t.value] else []) + WhereTrees(wheres[1..], refs, d)
  }

  lemma {:induction false} WherePartsRead(wheres: seq<Q>, refs: Key -> ColRef, d: Dialect)
    ensures AllRead(WhereParts(wheres, refs, d), WhereTrees(wheres, refs, d))
  {
    hide Reads;
    hide CondReads;
    hide AllRead;
    hide CompileQ;
    hide Tree;
    if wheres == [] {
      NoneRead();
    } else {
      WherePartsRead(wheres[1..], refs, d);
      CompiledQReads(wheres[0], refs, d);
      var c, t := CompileQ(wheres[0], refs, d), Tree(wheres[0], refs, d);
      var parts, trees := WhereParts(wheres[1..], refs, d), WhereTrees(wheres[1..], refs, d);
      if t.Some? {
        WrapReads(c, t.value);
        OneMoreRead(Wrap(c), t.value, parts, trees);
      } else {
        assert [] + parts == parts && [] + trees == trees;
      }
    }
  }

  ghost function WhereTree(wheres: seq<Q>, refs: Key -> ColRef, d: Dialect): Option<Pred> {
    var ts := WhereTrees(wheres, refs, d);
    if ts == [] then None else Some(Chain(AND, ts))
  }

  lemma WhereReads(wheres: seq<Q>, refs: Key -> ColRef, d: Dialect, ts: seq<Token>, i: nat, ps: seq<Value>, j: nat)
    requires var c := WhereClause(wheres, refs, d);
      Stands(c, ts, i, ps, j) && i + |c.sql| == |ts| && j + |c.params| == |ps|
    ensures ParseWhere(ts, i, ps, j) == Done(WhereTree(wheres, refs, d), |ts|, |ps|)
  {
    WherePartsRead(wheres, refs, d);
    var c, trees := WhereClause(wheres, refs, d), WhereTrees(wheres, refs, d);
    if trees != [] {
      var parts := WhereParts(wheres, refs, d);
      ChainReads(AND, parts, trees);
      HereSplits(ts, i, [WhereKw], Join(parts, AndKw));
      assert ts[i + 0] == [WhereKw][0];
      assert Stands(Joined(parts, AndKw), ts, i + 1, ps, j);
    }
  }

  lemma {:induction false} ConjunctionTrue(ps: seq<Pred>, cells: Cells, d: Dialect)
    requires ps != []
    ensures Eval(Chain(AND, ps), cells, d).True3? <==> forall p :: p in ps ==> Eval(p, cells, d).True3?
  {
    if |ps| > 1 {
      ConjunctionTrue(ps[1..], cells, d);
      assert Eval(Chain(AND, ps), cells, d) == And3(Eval(ps[0], cells, d), Eval(Chain(AND, ps[1..]), cells, d));
      assert forall p :: p in ps <==> p == ps[0] || p in ps[1..];
    } else {
      assert Chain(AND, ps) == ps[0];
      assert forall p :: p in ps <==> p == ps[0];
    }
  }

  lemma {:induction false} WhereTreesMean(wheres: seq<Q>, refs: Key -> ColRef, cells: Cells, field: Key -> Value,
                                          d: Dialect)
    requires Like.KeepsSpecials(d.strLower)
    requires forall i :: 0 <= i < |wheres| ==> Shows(Keys(wheres[i]), cells, refs, field)
    ensures Passes(wheres, field, d) <==> forall p :: p in WhereTrees(wheres, refs, d) ==> Eval(p, cells, d).True3?
  {
    if wheres != [] {
      TreeMeans(wheres[0], refs, cells, field, d);
      WhereTreesMean(wheres[1..], refs, cells, field, d);
      var t, rest := Tree(wheres[0], refs, d), WhereTrees(wheres[1..], refs, d);
      assert forall p :: p in WhereTrees(wheres, refs, d) <==> (t.Some? && p == t.value) || p in rest;
      assert Passes(wheres, field, d) <==>
        Denote(wheres[0], field, d) in {None, Some(True3)} && Passes(wheres[1..], field, d) by
      {
        assert forall i :: 0 <= i < |wheres| - 1 ==> wheres[1..][i] == wheres[i + 1];
        assert forall i :: 0 < i < |wheres| ==> wheres[i] == wheres[1..][i - 1];
      }
    }
  }

  /** The WHERE clause of a statement keeps exactly the rows that pass every filter. */
  lemma WhereMeansFilters(wheres: seq<Q>, refs: Key -> ColRef, cells: Cells, field: Key -> Value, d: Dialect)
    requires Like.KeepsSpecials(d.strLower)
    requires forall i :: 0 <= i < |wheres| ==> Shows(Keys(wheres[i]), cells, refs, field)
    ensures var c := WhereClause(wheres, refs, d); var read := ParseWhere(c.sql, 0, c.params, 0);
      read.Done? && (Keeps(read.tree, cells, d) <==> Passes(wheres, field, d))
  {
    var c := WhereClause(wheres, refs, d);
    WhereReads(wheres, refs, d, c.sql, 0, c.params, 0);
    WhereTreesMean(wheres, refs, cells, field, d);
    var ts := WhereTrees(wheres, refs, d);
    if ts != [] { ConjunctionTrue(ts, cells, d); }
  }
}
