/** Cypher expressions and projections, and the two syntactic tests the compiler runs on them. */
module CypherAst {
  import opened Options

  datatype Lit = IntLit(int) | FloatLit(bits: int) | StrLit(string) | BoolLit(bool) | NullLit

  datatype BinOp = Add | Sub | Mul | Div | Mod | Pow | Eq | Ne | Lt | Le | Gt | Ge | And | Or | Xor
    | In | StartsWith | EndsWith | Contains | Regex | Concat

  datatype ListPredKind = AnyOf | AllOf | NoneOf | SingleOf

  datatype MapProjItem = Field(name: string) | AllFields | Entry(key: string, value: Expr)

  datatype Expr =
    | Lit(lit: Lit)
    | Param(name: string)
    | Var(name: string)
    | Prop(base: Expr, key: string)
    | Binary(op: BinOp, left: Expr, right: Expr)
    | Not(arg: Expr)
    | Neg(arg: Expr)
    | IsNull(arg: Expr, negated: bool)
    | Func(name: string, args: seq<Expr>, distinct: bool)
    | List(elems: seq<Expr>)
    | Map(entries: seq<(string, Expr)>)
    | Case(operand: Option<Expr>, whens: seq<(Expr, Expr)>, otherwise: Option<Expr>)
    | ListComp(bound: string, source: Expr, filter: Option<Expr>, project: Option<Expr>)
    | ListPred(kind: ListPredKind, bound: string, source: Expr, test: Expr)
    | MapProjection(of: string, items: seq<MapProjItem>)
    | Star

  datatype ReturnItem = ReturnItem(expr: Expr, name: string)

  datatype Projection = Projection(items: seq<ReturnItem>, distinct: bool, order: seq<Expr>)

  function Lower(s: string): (r: string)
    ensures |r| == |s|
  {
    seq(|s|, i requires 0 <= i < |s| => if 'A' <= s[i] <= 'Z' then s[i] - 'A' + 'a' else s[i])
  }

  /** The names `Expr::is_aggregate` knows. */
  predicate AggregateName(name: string)
  {
    Lower(name) in {"count", "sum", "avg", "min", "max", "collect", "stdev", "percentile"}
  }

  /** `Expr::is_aggregate`.  It does not look under properties, comprehensions, list predicates or map projections. */
  predicate IsAggregate(e: Expr)
  {
    match e
    case Func(name, args, _) => AggregateName(name) || exists i :: 0 <= i < |args| && IsAggregate(args[i])
    case Binary(_, a, b) => IsAggregate(a) || IsAggregate(b)
    case Not(a) => IsAggregate(a)
    case Neg(a) => IsAggregate(a)
    case IsNull(a, _) => IsAggregate(a)
    case List(xs) => exists i :: 0 <= i < |xs| && IsAggregate(xs[i])
    case Map(kv) => exists i :: 0 <= i < |kv| && IsAggregate(kv[i].1)
    case Case(operand, whens, otherwise) =>
      || (operand.Some? && IsAggregate(operand.value))
      || (exists i :: 0 <= i < |whens| && (IsAggregate(whens[i].0) || IsAggregate(whens[i].1)))
      || (otherwise.Some? && IsAggregate(otherwise.value))
    case _ => false
  }

  /** `blind_expr`. */
  predicate BlindExpr(e: Expr)
  {
    match e
    case Func(name, args, distinct) =>
      && (if Lower(name) in {"min", "max"} then true
          else if Lower(name) in {"count", "collect"} then distinct && !(args != [] && args[0].Star?)
          else !IsAggregate(e))
      && forall i :: 0 <= i < |args| ==> BlindExpr(args[i])
    case Binary(_, a, b) => BlindExpr(a) && BlindExpr(b)
    case Not(a) => BlindExpr(a)
    case Neg(a) => BlindExpr(a)
    case IsNull(a, _) => BlindExpr(a)
    case List(xs) => forall i :: 0 <= i < |xs| ==> BlindExpr(xs[i])
    case Map(kv) => forall i :: 0 <= i < |kv| ==> BlindExpr(kv[i].1)
    case _ => !IsAggregate(e)
  }

  /** The RETURN half of `multiplicity_blind`: what it accepts once no WITH is present. */
  predicate MultiplicityBlind(p: Projection)
  {
    || p.distinct
    || (&& ((exists i :: 0 <= i < |p.items| && IsAggregate(p.items[i].expr))
            || (exists i :: 0 <= i < |p.order| && IsAggregate(p.order[i])))
        && (forall i :: 0 <= i < |p.items| ==> BlindExpr(p.items[i].expr))
        && (forall i :: 0 <= i < |p.order| ==> BlindExpr(p.order[i])))
  }

  // ---------------------------------------------------------------- shape of an expression

  /** The head of an expression, its subexpressions taken out. */
  datatype Op =
    | OpLit(lit: Lit) | OpParam(param: string) | OpVar(name: string) | OpStar
    | OpProp(key: string) | OpBinary(op: BinOp) | OpNot | OpNeg | OpIsNull(negated: bool)
    | OpFunc(fn: string) | OpList | OpMap(keys: seq<string>)
    | OpCase(hasOperand: bool, whens: nat, hasElse: bool)
    | OpComp(hasFilter: bool, hasProject: bool) | OpPred(kind: ListPredKind)
    | OpMapProjection(shape: seq<Option<string>>)

  function Optional(e: Option<Expr>): seq<Expr>
  {
    if e.Some? then [e.value] else []
  }

  function EntryValues(kv: seq<(string, Expr)>): (r: seq<Expr>)
    ensures |r| == |kv| && forall i :: 0 <= i < |kv| ==> r[i] == kv[i].1
  {
    seq(|kv|, i requires 0 <= i < |kv| => kv[i].1)
  }

  function WhenParts(whens: seq<(Expr, Expr)>): (r: seq<Expr>)
    ensures |r| == 2 * |whens|
    ensures forall i :: 0 <= i < |whens| ==> r[i] == whens[i].0 && r[|whens| + i] == whens[i].1
  {
    seq(|whens|, i requires 0 <= i < |whens| => whens[i].0) + seq(|whens|, i requires 0 <= i < |whens| => whens[i].1)
  }

  function ItemValues(items: seq<MapProjItem>): (r: seq<Expr>)
    ensures forall x :: x in r <==> exists i :: 0 <= i < |items| && items[i].Entry? && items[i].value == x
  {
    if items == [] then []
    else
      assert items == [items[0]] + items[1..];
      (if items[0].Entry? then [items[0].value] else []) + ItemValues(items[1..])
  }

  /** The subexpressions evaluated in the same scope. */
  function Kids(e: Expr): (kids: seq<Expr>)
    ensures forall i :: 0 <= i < |kids| ==> kids[i] < e
  {
    match e
    case Prop(b, _) => [b]
    case Binary(_, a, b) => [a, b]
    case Not(a) => [a]
    case Neg(a) => [a]
    case IsNull(a, _) => [a]
    case Func(_, args, _) => args
    case List(xs) => xs
    case Map(kv) => EntryValues(kv)
    case Case(operand, whens, otherwise) => Optional(operand) + WhenParts(whens) + Optional(otherwise)
    case ListComp(_, source, _, _) => [source]
    case ListPred(_, _, source, _) => [source]
    case MapProjection(_, items) =>
      var values := ItemValues(items);
      assert forall i :: 0 <= i < |values| ==> values[i] in values;
      assert forall j :: 0 <= j < |items| && items[j].Entry? ==> items[j].value < items[j] < e;
      values
    case _ => []
  }

  /** The subexpressions evaluated once per list element, with the element bound. */
  function Scoped(e: Expr): (inner: seq<Expr>)
    ensures forall i :: 0 <= i < |inner| ==> inner[i] < e
  {
    match e
    case ListComp(_, _, filter, project) => Optional(filter) + Optional(project)
    case ListPred(_, _, _, test) => [test]
    case _ => []
  }

  function Head(e: Expr): Op
  {
    match e
    case Lit(l) => OpLit(l)
    case Param(p) => OpParam(p)
    case Var(v) => OpVar(v)
    case Star => OpStar
    case Prop(_, k) => OpProp(k)
    case Binary(op, _, _) => OpBinary(op)
    case Not(_) => OpNot
    case Neg(_) => OpNeg
    case IsNull(_, n) => OpIsNull(n)
    case Func(name, _, _) => OpFunc(name)
    case List(_) => OpList
    case Map(kv) => OpMap(seq(|kv|, i requires 0 <= i < |kv| => kv[i].0))
    case Case(o, w, l) => OpCase(o.Some?, |w|, l.Some?)
    case ListComp(_, _, f, p) => OpComp(f.Some?, p.Some?)
    case ListPred(k, _, _, _) => OpPred(k)
    case MapProjection(_, items) =>
      OpMapProjection(seq(|items|, i requires 0 <= i < |items| =>
        match items[i] case Field(n) => Some(n) case AllFields => None case Entry(k, _) => Some(k)))
  }
}
