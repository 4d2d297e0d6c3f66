/** The part of SQL the compiler emits: tokens, a parser with SQL's operator precedence that takes
    positional parameters from left to right, and three-valued evaluation
    (ISO/IEC 9075:1992, section 8.12). Nothing here looks at the compiler. */
module SqlLanguage {
  import Like

  // ---------------------------------------------------------------- values and truth

  datatype Value = Null | Num(n: int) | Text(s: string)

  datatype Truth = True3 | False3 | Unknown3

  function And3(a: Truth, b: Truth): Truth {
    if a.False3? || b.False3? then False3 else if a.True3? && b.True3? then True3 else Unknown3
  }

  function Or3(a: Truth, b: Truth): Truth {
    if a.True3? || b.True3? then True3 else if a.False3? && b.False3? then False3 else Unknown3
  }

  function Not3(a: Truth): Truth {
    match a case True3 => False3 case False3 => True3 case Unknown3 => Unknown3
  }

  function Sure(b: bool): Truth { if b then True3 else False3 }

  datatype CompareOp = Eq | Gt | Gte | Lt | Lte

  datatype ArithOp = Plus | Minus | Times | Divide

  /** What the database itself decides: character lowering, a number's text, arithmetic. `strLower` is
      the lowering of `str.lower`, which need not be the database's. */
  datatype Dialect = Dialect(lower: char -> char, strLower: char -> char, show: int -> string,
                             arith: (ArithOp, Value, Value) -> Value)

  predicate TextLess(a: string, b: string) {
    b != "" && (a == "" || a[0] < b[0] || (a[0] == b[0] && TextLess(a[1..], b[1..])))
  }

  predicate Less(a: Value, b: Value) {
    match (a, b)
    case (Num(x), Num(y)) => x < y
    case (Text(x), Text(y)) => TextLess(x, y)
    case (Num(_), Text(_)) => true
    case _ => false
  }

  function Compare(op: CompareOp, a: Value, b: Value): Truth {
    if a.Null? || b.Null? then Unknown3 else
    match op
    case Eq => Sure(a == b)
    case Gt => Sure(Less(b, a))
    case Gte => Sure(Less(b, a) || a == b)
    case Lt => Sure(Less(a, b))
    case Lte => Sure(Less(a, b) || a == b)
  }

  function Lower(v: Value, d: Dialect): Value {
    if v.Text? then Text(Like.Lowered(v.s, d.lower)) else v
  }

  function TextOf(v: Value, d: Dialect): string
    requires !v.Null?
  {
    if v.Text? then v.s else d.show(v.n)
  }

  // ---------------------------------------------------------------- tokens

  /** `qualifier` is a table or alias name; empty for an unqualified column. */
  datatype ColRef = ColRef(qualifier: string, column: string)

  datatype Token =
    | LParen | RParen | Comma | Mark | Col(ref: ColRef) | Lit(n: int)
    | NotKw | AndKw | OrKw | IsKw | NullKw | InKw | BetweenKw | LikeKw | EscapeKw(c: char) | LowerKw
    | Cmp(op: CompareOp) | Arith(aop: ArithOp)
    | UpdateKw | SetKw | WhereKw | SelectKw | FromKw | Name(name: string) | AggKw(name: string) | Star

  // ---------------------------------------------------------------- syntax trees

  datatype Operand = OCol(ref: ColRef) | OVal(v: Value) | OLower(e: Operand)

  datatype Pred =
    | PCompare(op: CompareOp, a: Operand, b: Operand)
    | PIsNull(a: Operand, negated: bool)
    | PIn(a: Operand, vs: seq<Value>)
    | PBetween(a: Operand, lo: Operand, hi: Operand)
    | PLike(a: Operand, pattern: Operand)
    | PNot(p: Pred)
    | PAnd(l: Pred, r: Pred)
    | POr(l: Pred, r: Pred)

  datatype Scalar = SCol(ref: ColRef) | SVal(v: Value) | SArith(op: ArithOp, l: Scalar, r: Scalar)

  /** A parser's result: the tree, and how far it read: the next token and the next parameter. */
  datatype Parsed<+T> = Fail | Done(tree: T, i: nat, j: nat)

  predicate At(ts: seq<Token>, i: nat, t: Token) { i < |ts| && ts[i] == t }

  // ---------------------------------------------------------------- parser

  function ParseOperand(ts: seq<Token>, i: nat, ps: seq<Value>, j: nat): (r: Parsed<Operand>)
    ensures r.Done? ==> i < r.i <= |ts|
    decreases |ts| - i
  {
    if i >= |ts| then Fail else
    match ts[i]
    case Col(ref) => Done(OCol(ref), i + 1, j)
    case Lit(n) => Done(OVal(Num(n)), i + 1, j)
    case Mark => if j < |ps| then Done(OVal(ps[j]), i + 1, j + 1) else Fail
    case LowerKw =>
      if !At(ts, i + 1, LParen) then Fail else
      var e := ParseOperand(ts, i + 2, ps, j);
      if e.Done? && At(ts, e.i, RParen) then Done(OLower(e.tree), e.i + 1, e.j) else Fail
    case _ => Fail
  }

  /** The rest of `( ?, ?, ... )` after its opening parenthesis: one or more parameters. */
  function ParseMarks(ts: seq<Token>, i: nat, ps: seq<Value>, j: nat): (r: Parsed<seq<Value>>)
    ensures r.Done? ==> i < r.i <= |ts|
    decreases |ts| - i
  {
    if !At(ts, i, Mark) || j >= |ps| then Fail
    else if At(ts, i + 1, RParen) then Done([ps[j]], i + 2, j + 1)
    else if At(ts, i + 1, Comma) then
      var more := ParseMarks(ts, i + 2, ps, j + 1);
      if more.Done? then Done([ps[j]] + more.tree, more.i, more.j) else Fail
    else Fail
  }

  function ParsePredicate(ts: seq<Token>, i: nat, ps: seq<Value>, j: nat): (r: Parsed<Pred>)
    ensures r.Done? ==> i < r.i <= |ts|
  {
    var a := ParseOperand(ts, i, ps, j);
    if a.Fail? || a.i == |ts| then Fail else
    match ts[a.i]
    case Cmp(op) =>
      var b := ParseOperand(ts, a.i + 1, ps, a.j);
      if b.Done? then Done(PCompare(op, a.tree, b.tree), b.i, b.j) else Fail
    case IsKw =>
      if At(ts, a.i + 1, NullKw) then Done(PIsNull(a.tree, false), a.i + 2, a.j)
      else if At(ts, a.i + 1, NotKw) && At(ts, a.i + 2, NullKw) then Done(PIsNull(a.tree, true), a.i + 3, a.j)
      else Fail
    case InKw =>
      if !At(ts, a.i + 1, LParen) then Fail else
      var vs := ParseMarks(ts, a.i + 2, ps, a.j);
      if vs.Done? then Done(PIn(a.tree, vs.tree), vs.i, vs.j) else Fail
    case BetweenKw =>
      var lo := ParseOperand(ts, a.i + 1, ps, a.j);
      if lo.Fail? || !At(ts, lo.i, AndKw) then Fail else
      var hi := ParseOperand(ts, lo.i + 1, ps, lo.j);
      if hi.Done? then Done(PBetween(a.tree, lo.tree, hi.tree), hi.i, hi.j) else Fail
    case LikeKw =>
      var p := ParseOperand(ts, a.i + 1, ps, a.j);
      if p.Done? && At(ts, p.i, EscapeKw(Like.ESCAPE)) then Done(PLike(a.tree, p.tree), p.i + 1, p.j) else Fail
    case _ => Fail
  }

  /** Lowest precedence: OR, then AND, then NOT, then a predicate or a parenthesised condition. */
  function ParseOr(ts: seq<Token>, i: nat, ps: seq<Value>, j: nat): (r: Parsed<Pred>)
    ensures r.Done? ==> i < r.i <= |ts|
    decreases |ts| - i, 3
  {
    var l := ParseAnd(ts, i, ps, j);
    if l.Fail? || !At(ts, l.i, OrKw) then l else
    var r := ParseOr(ts, l.i + 1, ps, l.j);
    if r.Done? then Done(POr(l.tree, r.tree), r.i, r.j) else Fail
  }

  function ParseAnd(ts: seq<Token>, i: nat, ps: seq<Value>, j: nat): (r: Parsed<Pred>)
    ensures r.Done? ==> i < r.i <= |ts|
    decreases |ts| - i, 2
  {
    var l := ParseNot(ts, i, ps, j);
    if l.Fail? || !At(ts, l.i, AndKw) then l else
    var r := ParseAnd(ts, l.i + 1, ps, l.j);
    if r.Done? then Done(PAnd(l.tree, r.tree), r.i, r.j) else Fail
  }

  function ParseNot(ts: seq<Token>, i: nat, ps: seq<Value>, j: nat): (r: Parsed<Pred>)
    ensures r.Done? ==> i < r.i <= |ts|
    decreases |ts| - i, 1
  {
    if At(ts, i, NotKw) then
      var p := ParseNot(ts, i + 1, ps, j);
      if p.Done? then Done(PNot(p.tree), p.i, p.j) else Fail
    else if At(ts, i, LParen) then
      var p := ParseOr(ts, i + 1, ps, j);
      if p.Done? && At(ts, p.i, RParen) then Done(p.tree, p.i + 1, p.j) else Fail
    else ParsePredicate(ts, i, ps, j)
  }

  /** A scalar expression as SET takes it; every operation is in parentheses. */
  function ParseScalar(ts: seq<Token>, i: nat, ps: seq<Value>, j: nat): (r: Parsed<Scalar>)
    ensures r.Done? ==> i < r.i <= |ts|
    decreases |ts| - i
  {
    if i >= |ts| then Fail else
    match ts[i]
    case Col(ref) => Done(SCol(ref), i + 1, j)
    case Mark => if j < |ps| then Done(SVal(ps[j]), i + 1, j + 1) else Fail
    case LParen =>
      var l := ParseScalar(ts, i + 1, ps, j);
      if l.Fail? || l.i == |ts| || !ts[l.i].Arith? then Fail else
      var r := ParseScalar(ts, l.i + 1, ps, l.j);
      if r.Done? && At(ts, r.i, RParen) then Done(SArith(ts[l.i].aop, l.tree, r.tree), r.i + 1, r.j) else Fail
    case _ => Fail
  }

  // ---------------------------------------------------------------- evaluation

  /** The value a query sees in each column. */
  type Cells = ColRef -> Value

  function EvalOperand(e: Operand, cells: Cells, d: Dialect): Value {
    match e
    case OCol(ref) => cells(ref)
    case OVal(v) => v
    case OLower(inner) => Lower(EvalOperand(inner, cells, d), d)
  }

  function EvalIn(a: Value, vs: seq<Value>): Truth {
    if vs == [] then False3 else Or3(Compare(Eq, a, vs[0]), EvalIn(a, vs[1..]))
  }

  function Eval(p: Pred, cells: Cells, d: Dialect): Truth {
    match p
    case PCompare(op, a, b) => Compare(op, EvalOperand(a, cells, d), EvalOperand(b, cells, d))
    case PIsNull(a, negated) => Sure(EvalOperand(a, cells, d).Null? != negated)
    case PIn(a, vs) => EvalIn(EvalOperand(a, cells, d), vs)
    case PBetween(a, lo, hi) =>
      var v := EvalOperand(a, cells, d);
      And3(Compare(Lte, EvalOperand(lo, cells, d), v), Compare(Lte, v, EvalOperand(hi, cells, d)))
    case PLike(a, pattern) =>
      var v, p := EvalOperand(a, cells, d), EvalOperand(pattern, cells, d);
      if v.Null? || p.Null? then Unknown3 else Sure(Like.Matches(TextOf(p, d), TextOf(v, d)))
    case PNot(q) => Not3(Eval(q, cells, d))
    case PAnd(l, r) => And3(Eval(l, cells, d), Eval(r, cells, d))
    case POr(l, r) => Or3(Eval(l, cells, d), Eval(r, cells, d))
  }

  function EvalScalar(e: Scalar, cells: Cells, d: Dialect): Value {
    match e
    case SCol(ref) => cells(ref)
    case SVal(v) => v
    case SArith(op, l, r) => d.arith(op, EvalScalar(l, cells, d), EvalScalar(r, cells, d))
  }
}
