/**
 What a projection answers over a bag of rows.

 Values and operators are interpreted freely, so a fact proved here holds for
 whatever SQL the compiler emits for them.  What is fixed is how a call to an
 aggregate sees its group: all the values of its argument, or only which values
 occur.
 */
module CypherSemantics {
  import opened Sequences
  import opened CypherAst

  datatype Value =
    | Null
    | Error
    | Atom(n: int)
    | Term(op: Op, parts: seq<Value>)
    | Collected(fn: string, parts: seq<Value>)

  type Bindings = map<string, Value>

  /** The meaning of literals, parameters, operators and aggregates. */
  datatype Interp = Interp(
    apply: (Op, seq<Value>) -> Value,
    elems: Value -> seq<Value>,
    ofBag: (string, seq<Value>) -> Value,
    ofSet: (string, set<Value>) -> Value)

  function Lookup(row: Bindings, v: string): Value
  {
    if v in row then row[v] else Error
  }

  /** Calls that `func` compiles to an SQL aggregate. */
  predicate IsCall(e: Expr)
  {
    e.Func? && Lower(e.name) in {"count", "sum", "avg", "min", "max", "collect", "stdev"}
  }

  /** An SQL aggregate occurs in the expression, at any depth. */
  ghost predicate HasCall(e: Expr)
  {
    || IsCall(e)
    || (exists i :: 0 <= i < |Kids(e)| && HasCall(Kids(e)[i]))
    || (exists i :: 0 <= i < |Scoped(e)| && HasCall(Scoped(e)[i]))
  }

  // ---------------------------------------------------------------- one row

  ghost function EvalRow(I: Interp, e: Expr, row: Bindings): Value
  {
    if e.Var? then Lookup(row, e.name)
    else if IsCall(e) then Error
    else
      var kids := seq(|Kids(e)|, i requires 0 <= i < |Kids(e)| => EvalRow(I, Kids(e)[i], row));
      var own := if e.MapProjection? then [Lookup(row, e.of)] else [];
      var inner := if Binds(e) then
        var list := I.elems(kids[0]);
        seq(|list|, j requires 0 <= j < |list| =>
          Term(OpList, seq(|Scoped(e)|, i requires 0 <= i < |Scoped(e)| => EvalRow(I, Scoped(e)[i], row[e.bound := list[j]]))))
      else [];
      I.apply(Head(e), own + kids + inner)
  }

  /** The expression binds a variable to each element of a list. */
  predicate Binds(e: Expr)
  {
    e.ListComp? || e.ListPred?
  }

  // ---------------------------------------------------------------- a group of rows

  ghost function RowValues(I: Interp, e: Expr, rows: seq<Bindings>): (vs: seq<Value>)
    ensures |vs| == |rows| && forall i :: 0 <= i < |rows| ==> vs[i] == EvalRow(I, e, rows[i])
  {
    seq(|rows|, i requires 0 <= i < |rows| => EvalRow(I, e, rows[i]))
  }

  /** A column outside every aggregate has a value only where the group agrees on it. */
  ghost function Common(vs: seq<Value>): Value
  {
    if vs == [] then Null
    else if forall v :: v in vs ==> v == vs[0] then vs[0]
    else Error
  }

  ghost function SetOf(vs: seq<Value>): set<Value>
  {
    set v | v in vs
  }

  /** An aggregate call, as `func` writes it: `count()` and `count(*)` count rows whatever DISTINCT
      says, `stdev` drops DISTINCT, and `min`/`max` depend only on which values occur. */
  ghost function CallValue(I: Interp, e: Expr, rows: seq<Bindings>): Value
    requires IsCall(e)
  {
    var fn := Lower(e.name);
    if fn == "count" && (e.args == [] || e.args[0].Star?) then I.ofBag("count(*)", seq(|rows|, _ => Null))
    else if e.args == [] then Error
    else
      var vs := RowValues(I, e.args[0], rows);
      if fn in {"min", "max"} || (e.distinct && fn != "stdev") then I.ofSet(fn, SetOf(vs)) else I.ofBag(fn, vs)
  }

  ghost function BindAll(rows: seq<Bindings>, v: string, x: Value): (r: seq<Bindings>)
    ensures |r| == |rows| && forall i :: 0 <= i < |rows| ==> r[i] == rows[i][v := x]
  {
    seq(|rows|, i requires 0 <= i < |rows| => rows[i][v := x])
  }

  ghost function Own(e: Expr, rows: seq<Bindings>): seq<Value>
  {
    if e.MapProjection? then [Common(seq(|rows|, i requires 0 <= i < |rows| => Lookup(rows[i], e.of)))] else []
  }

  ghost function GroupKids(I: Interp, e: Expr, rows: seq<Bindings>): (vs: seq<Value>)
    ensures |vs| == |Kids(e)| && forall i :: 0 <= i < |vs| ==> vs[i] == EvalGroup(I, Kids(e)[i], rows)
    decreases e, 0
  {
    seq(|Kids(e)|, i requires 0 <= i < |Kids(e)| => EvalGroup(I, Kids(e)[i], rows))
  }

  /** The scoped parts of a comprehension, for one list element. */
  ghost function GroupScoped(I: Interp, e: Expr, rows: seq<Bindings>): (vs: seq<Value>)
    ensures |vs| == |Scoped(e)| && forall i :: 0 <= i < |vs| ==> vs[i] == EvalGroup(I, Scoped(e)[i], rows)
    decreases e, 0
  {
    seq(|Scoped(e)|, i requires 0 <= i < |Scoped(e)| => EvalGroup(I, Scoped(e)[i], rows))
  }

  ghost function GroupInner(I: Interp, e: Expr, rows: seq<Bindings>, list: seq<Value>): (vs: seq<Value>)
    requires Binds(e)
    ensures |vs| == |list|
    ensures forall j :: 0 <= j < |list| ==> vs[j] == Term(OpList, GroupScoped(I, e, BindAll(rows, e.bound, list[j])))
    decreases e, 1
  {
    seq(|list|, j requires 0 <= j < |list| => Term(OpList, GroupScoped(I, e, BindAll(rows, e.bound, list[j]))))
  }

  /** An output expression over one group. */
  ghost function EvalGroup(I: Interp, e: Expr, rows: seq<Bindings>): Value
    decreases e, 2
  {
    if !HasCall(e) then Common(RowValues(I, e, rows))
    else if IsCall(e) then CallValue(I, e, rows)
    else
      var kids := GroupKids(I, e, rows);
      var inner := if Binds(e) then GroupInner(I, e, rows, I.elems(kids[0])) else [];
      I.apply(Head(e), Own(e, rows) + kids + inner)
  }

  // ---------------------------------------------------------------- what duplicates cannot move

  /** The call's value does not depend on how often a row occurs. */
  predicate BlindCall(e: Expr)
    requires IsCall(e)
  {
    var fn := Lower(e.name);
    if fn == "count" && (e.args == [] || e.args[0].Star?) then false
    else e.args == [] || fn in {"min", "max"} || (e.distinct && fn != "stdev")
  }

  /** Every aggregate that reads the group is blind to duplicates. */
  ghost predicate Insensitive(e: Expr)
  {
    if !HasCall(e) then true
    else if IsCall(e) then BlindCall(e)
    else
      && (forall i :: 0 <= i < |Kids(e)| ==> Insensitive(Kids(e)[i]))
      && (forall i :: 0 <= i < |Scoped(e)| ==> Insensitive(Scoped(e)[i]))
  }

  lemma CommonBySet(a: seq<Value>, b: seq<Value>)
    requires SameSet(a, b)
    ensures Common(a) == Common(b)
  {
    assert |a| > 0 ==> a[0] in a;
    assert |b| > 0 ==> b[0] in b;
  }

  lemma ValuesBySet(I: Interp, e: Expr, a: seq<Bindings>, b: seq<Bindings>)
    requires SameSet(a, b)
    ensures SameSet(RowValues(I, e, a), RowValues(I, e, b))
  {
    forall v | v in RowValues(I, e, a) ensures v in RowValues(I, e, b) {
      ValueMoves(I, e, a, b, v);
    }
    forall v | v in RowValues(I, e, b) ensures v in RowValues(I, e, a) {
      ValueMoves(I, e, b, a, v);
    }
  }

  lemma ValueMoves(I: Interp, e: Expr, a: seq<Bindings>, b: seq<Bindings>, v: Value)
    requires (forall x :: x in a ==> x in b) && v in RowValues(I, e, a)
    ensures v in RowValues(I, e, b)
  {
    var i :| 0 <= i < |a| && RowValues(I, e, a)[i] == v;
    assert a[i] in a;
    var j :| 0 <= j < |b| && b[j] == a[i];
    assert RowValues(I, e, b)[j] == v;
  }

  lemma OwnBySet(e: Expr, a: seq<Bindings>, b: seq<Bindings>)
    requires SameSet(a, b)
    ensures Own(e, a) == Own(e, b)
  {
    if e.MapProjection? {
      var va := seq(|a|, i requires 0 <= i < |a| => Lookup(a[i], e.of));
      var vb := seq(|b|, i requires 0 <= i < |b| => Lookup(b[i], e.of));
      forall v | v in va ensures v in vb {
        var i :| 0 <= i < |a| && va[i] == v;
        assert a[i] in a;
        var j :| 0 <= j < |b| && b[j] == a[i];
        assert vb[j] == v;
      }
      forall v | v in vb ensures v in va {
        var i :| 0 <= i < |b| && vb[i] == v;
        assert b[i] in b;
        var j :| 0 <= j < |a| && a[j] == b[i];
        assert va[j] == v;
      }
      CommonBySet(va, vb);
    }
  }

  lemma BindAllBySet(a: seq<Bindings>, b: seq<Bindings>, v: string, x: Value)
    requires SameSet(a, b)
    ensures SameSet(BindAll(a, v, x), BindAll(b, v, x))
  {
    forall r | r in BindAll(a, v, x) ensures r in BindAll(b, v, x) {
      var i :| 0 <= i < |a| && BindAll(a, v, x)[i] == r;
      assert a[i] in a;
      var j :| 0 <= j < |b| && b[j] == a[i];
      assert BindAll(b, v, x)[j] == r;
    }
    forall r | r in BindAll(b, v, x) ensures r in BindAll(a, v, x) {
      var i :| 0 <= i < |b| && BindAll(b, v, x)[i] == r;
      assert b[i] in b;
      var j :| 0 <= j < |a| && a[j] == b[i];
      assert BindAll(a, v, x)[j] == r;
    }
  }

  lemma CallBySet(I: Interp, e: Expr, a: seq<Bindings>, b: seq<Bindings>)
    requires SameSet(a, b) && IsCall(e) && BlindCall(e)
    ensures CallValue(I, e, a) == CallValue(I, e, b)
  {
    if e.args != [] {
      ValuesBySet(I, e.args[0], a, b);
      assert SetOf(RowValues(I, e.args[0], a)) == SetOf(RowValues(I, e.args[0], b));
    }
  }

  /** An insensitive expression has one value on all groups with the same rows. */
  lemma {:induction false} GroupBySet(I: Interp, e: Expr, a: seq<Bindings>, b: seq<Bindings>)
    requires SameSet(a, b) && Insensitive(e)
    ensures EvalGroup(I, e, a) == EvalGroup(I, e, b)
    decreases e
  {
    if !HasCall(e) {
      ValuesBySet(I, e, a, b);
      CommonBySet(RowValues(I, e, a), RowValues(I, e, b));
    } else if IsCall(e) {
      CallBySet(I, e, a, b);
    } else {
      forall i | 0 <= i < |Kids(e)| ensures EvalGroup(I, Kids(e)[i], a) == EvalGroup(I, Kids(e)[i], b) {
        GroupBySet(I, Kids(e)[i], a, b);
      }
      var ka, kb := GroupKids(I, e, a), GroupKids(I, e, b);
      assert ka == kb;
      OwnBySet(e, a, b);
      if Binds(e) {
        var list := I.elems(ka[0]);
        forall j | 0 <= j < |list|
          ensures GroupInner(I, e, a, list)[j] == GroupInner(I, e, b, list)[j]
        {
          var a', b' := BindAll(a, e.bound, list[j]), BindAll(b, e.bound, list[j]);
          BindAllBySet(a, b, e.bound, list[j]);
          forall i | 0 <= i < |Scoped(e)| ensures EvalGroup(I, Scoped(e)[i], a') == EvalGroup(I, Scoped(e)[i], b') {
            GroupBySet(I, Scoped(e)[i], a', b');
          }
          assert GroupScoped(I, e, a') == GroupScoped(I, e, b');
        }
        assert GroupInner(I, e, a, list) == GroupInner(I, e, b, list);
      }
    }
  }
}
