/**
 The grouped SELECT that `build_core` emits for a projection, and when its
 answer depends only on which rows come in.
 */
module CypherProjection {
  import opened Options
  import opened Sequences
  import opened CypherAst
  import opened CypherAccepted
  import opened CypherSemantics

  /** `Invalid` is an error; `Distinct` is a result in which no row can repeat. */
  datatype Output = Invalid | Bag(rows: seq<seq<Value>>) | Distinct(tuples: set<seq<Value>>)

  predicate HasAggregateItem(p: Projection)
  {
    exists i :: 0 <= i < |p.items| && IsAggregate(p.items[i].expr)
  }

  /** The item an ORDER BY name refers to: the last one of that name. */
  function ItemNamed(items: seq<ReturnItem>, name: string): Option<Expr>
  {
    if items == [] then None
    else if items[|items| - 1].name == name then Some(items[|items| - 1].expr)
    else ItemNamed(items[..|items| - 1], name)
  }

  /** ORDER BY on a name that no pattern bound means the item of that name. */
  predicate RefersToItem(o: Expr, bound: seq<string>)
  {
    o.Var? && o.name !in bound
  }

  function Resolved(p: Projection, bound: seq<string>, o: Expr): Option<Expr>
  {
    if RefersToItem(o, bound) then ItemNamed(p.items, o.name) else Some(o)
  }

  predicate Resolvable(p: Projection, bound: seq<string>)
  {
    forall i :: 0 <= i < |p.order| ==> Resolved(p, bound, p.order[i]).Some?
  }

  /** The selected columns: `*` is every bound variable. */
  function ItemColumns(items: seq<ReturnItem>, bound: seq<string>): seq<Expr>
  {
    if items == [] then []
    else
      (if items[0].expr.Star? then seq(|bound|, i requires 0 <= i < |bound| => Var(bound[i])) else [items[0].expr])
      + ItemColumns(items[1..], bound)
  }

  function OrderColumns(p: Projection, bound: seq<string>): (cols: seq<Expr>)
    requires Resolvable(p, bound)
    ensures |cols| == |p.order|
    ensures forall i :: 0 <= i < |cols| ==> cols[i] == Resolved(p, bound, p.order[i]).value
  {
    seq(|p.order|, i requires 0 <= i < |p.order| => Resolved(p, bound, p.order[i]).value)
  }

  function Columns(p: Projection, bound: seq<string>): seq<Expr>
    requires Resolvable(p, bound)
  {
    ItemColumns(p.items, bound) + OrderColumns(p, bound)
  }

  /** GROUP BY: the columns that are no aggregate, once any item is one. */
  ghost function GroupKeys(p: Projection, bound: seq<string>): set<Expr>
    requires Resolvable(p, bound)
  {
    if !HasAggregateItem(p) then {}
    else
      (set i | 0 <= i < |p.items| && !p.items[i].expr.Star? && !IsAggregate(p.items[i].expr) :: p.items[i].expr)
      + (set i | 0 <= i < |p.order| && !IsAggregate(p.order[i]) && !IsAggregate(OrderColumns(p, bound)[i])
           :: OrderColumns(p, bound)[i])
  }

  ghost predicate AnyCall(p: Projection, bound: seq<string>)
    requires Resolvable(p, bound)
  {
    exists i :: 0 <= i < |Columns(p, bound)| && HasCall(Columns(p, bound)[i])
  }

  /** An unknown ORDER BY name is refused by the compiler, an aggregate in GROUP BY by PostgreSQL. */
  ghost predicate Refused(p: Projection, bound: seq<string>)
  {
    !Resolvable(p, bound) || exists k :: k in GroupKeys(p, bound) && HasCall(k)
  }

  /** Without GROUP BY and without aggregates the SELECT is row by row. */
  ghost predicate RowByRow(p: Projection, bound: seq<string>)
    requires Resolvable(p, bound)
  {
    GroupKeys(p, bound) == {} && !AnyCall(p, bound)
  }

  ghost predicate SameKeys(I: Interp, keys: set<Expr>, r: Bindings, s: Bindings)
  {
    forall k :: k in keys ==> EvalRow(I, k, r) == EvalRow(I, k, s)
  }

  /** The group of `r`: the rows that agree with it on every key. */
  ghost function Group(I: Interp, keys: set<Expr>, rows: seq<Bindings>, r: Bindings): (g: seq<Bindings>)
    ensures forall s :: s in g <==> s in rows && SameKeys(I, keys, r, s)
  {
    if rows == [] then []
    else
      assert rows == [rows[0]] + rows[1..];
      (if SameKeys(I, keys, r, rows[0]) then [rows[0]] else []) + Group(I, keys, rows[1..], r)
  }

  ghost function Tuple(I: Interp, cols: seq<Expr>, group: seq<Bindings>): (t: seq<Value>)
    ensures |t| == |cols| && forall i :: 0 <= i < |t| ==> t[i] == EvalGroup(I, cols[i], group)
  {
    seq(|cols|, i requires 0 <= i < |cols| => EvalGroup(I, cols[i], group))
  }

  ghost function RowTuple(I: Interp, cols: seq<Expr>, row: Bindings): (t: seq<Value>)
    ensures |t| == |cols| && forall i :: 0 <= i < |t| ==> t[i] == EvalRow(I, cols[i], row)
  {
    seq(|cols|, i requires 0 <= i < |cols| => EvalRow(I, cols[i], row))
  }

  /** One tuple per group. */
  ghost function Groups(I: Interp, cols: seq<Expr>, keys: set<Expr>, rows: seq<Bindings>): set<seq<Value>>
  {
    set r | r in rows :: Tuple(I, cols, Group(I, keys, rows, r))
  }

  /** The SELECT, before ORDER BY, SKIP and LIMIT, which act on its rows. */
  ghost function Answer(I: Interp, p: Projection, bound: seq<string>, rows: seq<Bindings>): Output
  {
    if Refused(p, bound) then Invalid
    else
      var cols, keys := Columns(p, bound), GroupKeys(p, bound);
      if RowByRow(p, bound) then
        if p.distinct then Distinct(set r | r in rows :: RowTuple(I, cols, r))
        else Bag(seq(|rows|, i requires 0 <= i < |rows| => RowTuple(I, cols, rows[i])))
      else if keys == {} then Distinct({Tuple(I, cols, rows)})
      else Distinct(Groups(I, cols, keys, rows))
  }

  // ---------------------------------------------------------------- answers by set of rows

  /** No selected column moves with duplicates. */
  ghost predicate ColumnsInsensitive(p: Projection, bound: seq<string>)
    requires Resolvable(p, bound)
  {
    forall i :: 0 <= i < |Columns(p, bound)| ==> Insensitive(Columns(p, bound)[i])
  }

  lemma TupleBySet(I: Interp, cols: seq<Expr>, a: seq<Bindings>, b: seq<Bindings>)
    requires SameSet(a, b) && forall i :: 0 <= i < |cols| ==> Insensitive(cols[i])
    ensures Tuple(I, cols, a) == Tuple(I, cols, b)
  {
    forall i | 0 <= i < |cols| ensures EvalGroup(I, cols[i], a) == EvalGroup(I, cols[i], b) {
      GroupBySet(I, cols[i], a, b);
    }
  }

  lemma GroupedBySet(I: Interp, cols: seq<Expr>, keys: set<Expr>, a: seq<Bindings>, b: seq<Bindings>)
    requires SameSet(a, b) && forall i :: 0 <= i < |cols| ==> Insensitive(cols[i])
    ensures Groups(I, cols, keys, a) == Groups(I, cols, keys, b)
  {
    forall r ensures Tuple(I, cols, Group(I, keys, a, r)) == Tuple(I, cols, Group(I, keys, b, r)) {
      TupleBySet(I, cols, Group(I, keys, a, r), Group(I, keys, b, r));
    }
    assert forall r :: r in a <==> r in b;
  }

  /** A projection the compiler accepts without DISTINCT is grouped. */
  lemma AcceptedHasCall(p: Projection, bound: seq<string>)
    requires MultiplicityBlind(p) && Resolvable(p, bound) && !p.distinct
    ensures AnyCall(p, bound)
  {
    if i :| 0 <= i < |p.items| && IsAggregate(p.items[i].expr) {
      BlindAggregateHasCall(p.items[i].expr);
      ColumnOfItem(p.items, bound, i);
      var j :| 0 <= j < |ItemColumns(p.items, bound)| && ItemColumns(p.items, bound)[j] == p.items[i].expr;
      assert HasCall(Columns(p, bound)[j]);
    } else {
      var i :| 0 <= i < |p.order| && IsAggregate(p.order[i]);
      BlindAggregateHasCall(p.order[i]);
      assert Columns(p, bound)[|ItemColumns(p.items, bound)| + i] == OrderColumns(p, bound)[i] == p.order[i];
      assert HasCall(Columns(p, bound)[|ItemColumns(p.items, bound)| + i]);
    }
  }

  lemma {:induction false} ColumnOfItem(items: seq<ReturnItem>, bound: seq<string>, i: nat)
    requires i < |items| && !items[i].expr.Star?
    ensures exists j :: 0 <= j < |ItemColumns(items, bound)| && ItemColumns(items, bound)[j] == items[i].expr
  {
    var first := if items[0].expr.Star? then seq(|bound|, i requires 0 <= i < |bound| => Var(bound[i])) else [items[0].expr];
    var cols := ItemColumns(items, bound);
    if i == 0 {
      assert cols[0] == items[0].expr;
    } else {
      ColumnOfItem(items[1..], bound, i - 1);
      var j :| 0 <= j < |ItemColumns(items[1..], bound)| && ItemColumns(items[1..], bound)[j] == items[i].expr;
      assert cols[|first| + j] == items[i].expr;
    }
  }

  /** An aggregate that passes `blind_expr` contains a call. */
  lemma {:induction false} BlindAggregateHasCall(e: Expr)
    requires IsAggregate(e) && BlindExpr(e)
    ensures HasCall(e) && !e.Star?
  {
    match e
    case Func(name, args, _) =>
      assert IsCall(e);
    case Binary(_, a, b) =>
      assert Kids(e)[0] == a && Kids(e)[1] == b;
      if IsAggregate(a) { BlindAggregateHasCall(a); } else { BlindAggregateHasCall(b); }
    case Not(a) => assert Kids(e)[0] == a; BlindAggregateHasCall(a);
    case Neg(a) => assert Kids(e)[0] == a; BlindAggregateHasCall(a);
    case IsNull(a, _) => assert Kids(e)[0] == a; BlindAggregateHasCall(a);
    case List(xs) =>
      var i :| 0 <= i < |xs| && IsAggregate(xs[i]);
      assert Kids(e)[i] == xs[i];
      BlindAggregateHasCall(xs[i]);
    case Map(kv) =>
      var i :| 0 <= i < |kv| && IsAggregate(kv[i].1);
      assert Kids(e)[i] == kv[i].1;
      BlindAggregateHasCall(kv[i].1);
    case _ =>
  }

  /** The answer to an accepted projection whose columns are insensitive is the same for any two
      bags with the same rows. */
  lemma AnswerBySet(I: Interp, p: Projection, bound: seq<string>, a: seq<Bindings>, b: seq<Bindings>)
    requires MultiplicityBlind(p) && SameSet(a, b)
    requires Refused(p, bound) || ColumnsInsensitive(p, bound)
    ensures Answer(I, p, bound, a) == Answer(I, p, bound, b)
  {
    if !Refused(p, bound) {
      var cols, keys := Columns(p, bound), GroupKeys(p, bound);
      if RowByRow(p, bound) {
        if !p.distinct {
          AcceptedHasCall(p, bound);
        }
        assert forall r :: r in a <==> r in b;
      } else if keys == {} {
        TupleBySet(I, cols, a, b);
      } else {
        GroupedBySet(I, cols, keys, a, b);
      }
    }
  }

  // ---------------------------------------------------------------- the free interpretation

  /** Operators and aggregates that forget nothing: each builds a term of its arguments. */
  ghost function Free(): Interp
  {
    Interp((op, vs) => Term(op, vs), v => [v], (fn, vs) => Collected(fn, vs), (fn, vs) => Null)
  }

  /** Read freely, a sensitive expression tells one row from the same row twice. */
  lemma {:induction false} SensitiveCounts(e: Expr, r: Bindings)
    requires !Insensitive(e)
    ensures EvalGroup(Free(), e, [r]) != EvalGroup(Free(), e, [r, r])
    decreases e
  {
    var I, one, two := Free(), [r], [r, r];
    if IsCall(e) {
      if e.args != [] && !e.args[0].Star? {
        assert |RowValues(I, e.args[0], one)| != |RowValues(I, e.args[0], two)|;
      } else {
        assert |seq(|one|, _ => Null)| != |seq(|two|, _ => Null)|;
      }
    } else {
      var k1, k2 := GroupKids(I, e, one), GroupKids(I, e, two);
      if i :| 0 <= i < |Kids(e)| && !Insensitive(Kids(e)[i]) {
        SensitiveCounts(Kids(e)[i], r);
        PartsDiffer(Own(e, one), Own(e, two), k1, k2, EvalGroupInner(I, e, one), EvalGroupInner(I, e, two), i);
      } else if i :| 0 <= i < |k1| && k1[i] != k2[i] {
        PartsDiffer(Own(e, one), Own(e, two), k1, k2, EvalGroupInner(I, e, one), EvalGroupInner(I, e, two), i);
      } else {
        assert k1 == k2;
        var i :| 0 <= i < |Scoped(e)| && !Insensitive(Scoped(e)[i]);
        var r' := r[e.bound := k1[0]];
        SensitiveCounts(Scoped(e)[i], r');
        ScopedDiffers(e, r, k1[0], i);
        var n1, n2 := GroupInner(I, e, one, [k1[0]]), GroupInner(I, e, two, [k1[0]]);
        assert (Own(e, one) + k1 + n1)[|k1|] != (Own(e, two) + k2 + n2)[|k1|];
      }
    }
  }

  lemma ScopedDiffers(e: Expr, r: Bindings, v: Value, i: nat)
    requires Binds(e) && i < |Scoped(e)|
    requires var r' := r[e.bound := v]; EvalGroup(Free(), Scoped(e)[i], [r']) != EvalGroup(Free(), Scoped(e)[i], [r', r'])
    ensures GroupInner(Free(), e, [r], [v])[0] != GroupInner(Free(), e, [r, r], [v])[0]
  {
    var r' := r[e.bound := v];
    assert BindAll([r], e.bound, v) == [r'] && BindAll([r, r], e.bound, v) == [r', r'];
    assert GroupScoped(Free(), e, [r'])[i] != GroupScoped(Free(), e, [r', r'])[i];
  }

  ghost function EvalGroupInner(I: Interp, e: Expr, rows: seq<Bindings>): seq<Value>
  {
    if Binds(e) then GroupInner(I, e, rows, I.elems(GroupKids(I, e, rows)[0])) else []
  }

  lemma PartsDiffer(o1: seq<Value>, o2: seq<Value>, k1: seq<Value>, k2: seq<Value>, n1: seq<Value>, n2: seq<Value>, i: nat)
    requires |o1| == |o2| && |k1| == |k2| && i < |k1| && k1[i] != k2[i]
    ensures o1 + k1 + n1 != o2 + k2 + n2
  {
    assert (o1 + k1 + n1)[|o1| + i] == k1[i] && (o2 + k2 + n2)[|o2| + i] == k2[i];
  }

  lemma SensitiveAnswer(p: Projection, bound: seq<string>, r: Bindings)
    requires !Refused(p, bound) && !ColumnsInsensitive(p, bound)
    ensures Answer(Free(), p, bound, [r]) != Answer(Free(), p, bound, [r, r])
  {
    var I, cols, keys := Free(), Columns(p, bound), GroupKeys(p, bound);
    var i :| 0 <= i < |cols| && !Insensitive(cols[i]);
    SensitiveCounts(cols[i], r);
    assert AnyCall(p, bound);
    var t1, t2 := Tuple(I, cols, [r]), Tuple(I, cols, [r, r]);
    assert t1[i] != t2[i];
    if keys == {} {
      assert t1 in {t1} && t1 !in {t2};
    } else {
      GroupsOfCopies(I, cols, keys, r, 1);
      GroupsOfCopies(I, cols, keys, r, 2);
      assert t1 in Groups(I, cols, keys, [r]) && t1 !in Groups(I, cols, keys, [r, r]);
    }
  }

  /** Copies of one row are one group. */
  lemma GroupsOfCopies(I: Interp, cols: seq<Expr>, keys: set<Expr>, r: Bindings, n: nat)
    requires 1 <= n <= 2
    ensures var rows := if n == 1 then [r] else [r, r]; Groups(I, cols, keys, rows) == {Tuple(I, cols, rows)}
  {
    var rows := if n == 1 then [r] else [r, r];
    assert [r][1..] == [] && [r, r][1..] == [r];
    assert Group(I, keys, [r], r) == [r];
    assert Group(I, keys, rows, r) == rows;
    assert r in rows && forall s :: s in rows ==> s == r;
  }

  /** Among the projections `multiplicity_blind` accepts, exactly those with insensitive columns
      (or refused anyway) answer every two bags with the same rows alike. */
  lemma AnswerBySetIff(p: Projection, bound: seq<string>)
    requires MultiplicityBlind(p)
    ensures (Refused(p, bound) || ColumnsInsensitive(p, bound)) <==>
      forall I, a, b | SameSet(a, b) :: Answer(I, p, bound, a) == Answer(I, p, bound, b)
  {
    if Refused(p, bound) || ColumnsInsensitive(p, bound) {
      forall I, a, b | SameSet(a, b) ensures Answer(I, p, bound, a) == Answer(I, p, bound, b) {
        AnswerBySet(I, p, bound, a, b);
      }
    } else {
      var r: Bindings := map[];
      SensitiveAnswer(p, bound, r);
      assert SameSet([r], [r, r]);
    }
  }

  // ---------------------------------------------------------------- which accepted projections are insensitive

  /** No SQL aggregate hides where `is_aggregate` does not look, and no `count` lacks its argument. */
  ghost predicate Plain(e: Expr)
  {
    if !HasCall(e) then true
    else if IsCall(e) then !(Lower(e.name) == "count" && e.args == [])
    else if e.Prop? || Binds(e) || e.MapProjection? then false
    else forall i :: 0 <= i < |Kids(e)| ==> Plain(Kids(e)[i])
  }

  /** In a plain expression `is_aggregate` misses no call. */
  lemma {:induction false} PlainCallIsAggregate(e: Expr)
    requires Plain(e) && HasCall(e)
    ensures IsAggregate(e)
  {
    if !IsCall(e) {
      assert Scoped(e) == [];
      var i :| 0 <= i < |Kids(e)| && HasCall(Kids(e)[i]);
      PlainCallIsAggregate(Kids(e)[i]);
      if e.Case? {
        CaseHeld(e, i);
      }
    }
  }

  /** On plain expressions `blind_expr` is right. */
  lemma {:induction false} BlindIsInsensitive(e: Expr)
    requires Plain(e) && BlindExpr(e)
    ensures Insensitive(e)
  {
    if HasCall(e) {
      PlainCallIsAggregate(e);
      if !IsCall(e) {
        assert Scoped(e) == [];
        forall i | 0 <= i < |Kids(e)| ensures Insensitive(Kids(e)[i]) {
          BlindIsInsensitive(Kids(e)[i]);
        }
      }
    }
  }

  lemma {:induction false} ItemColumnsFrom(items: seq<ReturnItem>, bound: seq<string>, j: nat)
    requires j < |ItemColumns(items, bound)|
    ensures ItemColumns(items, bound)[j].Var? || exists i :: 0 <= i < |items| && items[i].expr == ItemColumns(items, bound)[j]
  {
    var first := if items[0].expr.Star? then seq(|bound|, i requires 0 <= i < |bound| => Var(bound[i])) else [items[0].expr];
    if j < |first| {
      assert ItemColumns(items, bound)[j] == first[j];
    } else {
      assert ItemColumns(items, bound)[j] == ItemColumns(items[1..], bound)[j - |first|];
      ItemColumnsFrom(items[1..], bound, j - |first|);
      if i :| 0 <= i < |items[1..]| && items[1..][i].expr == ItemColumns(items, bound)[j] {
        assert items[i + 1].expr == ItemColumns(items, bound)[j];
      }
    }
  }

  lemma {:induction false} ItemNamedFrom(items: seq<ReturnItem>, name: string)
    requires ItemNamed(items, name).Some?
    ensures exists i :: 0 <= i < |items| && items[i].expr == ItemNamed(items, name).value
  {
    var n := |items| - 1;
    if items[n].name != name {
      ItemNamedFrom(items[..n], name);
      var i :| 0 <= i < n && items[..n][i].expr == ItemNamed(items[..n], name).value;
      assert items[i].expr == ItemNamed(items, name).value;
    }
  }

  /** Without DISTINCT, what the compiler accepts is insensitive as soon as it is plain. */
  lemma AcceptedPlainIsInsensitive(p: Projection, bound: seq<string>)
    requires MultiplicityBlind(p) && !p.distinct && Resolvable(p, bound)
    requires forall i :: 0 <= i < |p.items| ==> Plain(p.items[i].expr)
    requires forall i :: 0 <= i < |p.order| ==> Plain(p.order[i])
    ensures ColumnsInsensitive(p, bound)
  {
    var cols, n := Columns(p, bound), |ItemColumns(p.items, bound)|;
    forall j | 0 <= j < |cols| ensures Insensitive(cols[j]) {
      if j < n {
        ItemColumnsFrom(p.items, bound, j);
        if i :| 0 <= i < |p.items| && p.items[i].expr == cols[j] {
          BlindIsInsensitive(p.items[i].expr);
        }
      } else {
        var o := p.order[j - n];
        assert cols[j] == OrderColumns(p, bound)[j - n];
        if RefersToItem(o, bound) {
          ItemNamedFrom(p.items, o.name);
          var i :| 0 <= i < |p.items| && p.items[i].expr == cols[j];
          BlindIsInsensitive(p.items[i].expr);
        } else {
          BlindIsInsensitive(o);
        }
      }
    }
  }

  // ---------------------------------------------------------------- accepted, and wrong

  function Count(arg: seq<Expr>, distinct: bool): Expr
  {
    Func("count", arg, distinct)
  }

  lemma LowerCase()
    ensures Lower("count") == "count" && Lower("collect") == "collect"
  {
  }

  function ListOf(vs: seq<Value>): Value
  {
    Term(OpList, vs)
  }

  predicate IsList(v: Value)
  {
    v.Term? && v.op.OpList?
  }

  function NonNulls(vs: seq<Value>): nat
  {
    if vs == [] then 0 else (if vs[0].Null? then 0 else 1) + NonNulls(vs[1..])
  }

  /** `count` and `collect` (`jsonb_agg`) as in SQL, and a comprehension that keeps and copies every element. */
  ghost predicate SqlAggregates(I: Interp)
  {
    && (forall vs :: I.ofBag("count(*)", vs) == Atom(|vs|))
    && (forall vs :: I.ofBag("count", vs) == Atom(NonNulls(vs)))
    && (forall vs :: vs != [] ==> I.ofBag("collect", vs) == ListOf(vs))
    && (forall vs: seq<Value> :: vs != [] && IsList(vs[0]) ==> I.apply(OpComp(false, false), vs) == vs[0])
  }

  /** There is such an interpretation. */
  ghost function Sql(): Interp
  {
    Interp(
      (op, vs: seq<Value>) => if op == OpComp(false, false) && vs != [] then vs[0] else Term(op, vs),
      (v: Value) => if v.Term? then v.parts else [],
      (fn, vs: seq<Value>) => if fn == "count(*)" then Atom(|vs|) else if fn == "count" then Atom(NonNulls(vs)) else ListOf(vs),
      (fn, vs) => Null)
  }

  lemma SqlExists()
    ensures SqlAggregates(Sql())
  {
  }

  lemma OneColumn(p: Projection, e: Expr)
    requires p.items == [ReturnItem(e, "n")] && p.order == [] && !e.Star? && (IsAggregate(e) || p.distinct)
    ensures Resolvable(p, ["b"]) && Columns(p, ["b"]) == [e] && GroupKeys(p, ["b"]) == {}
  {
    assert ItemColumns(p.items[1..], ["b"]) == [];
  }

  /** One column with an aggregate in it, and nothing to group by: one row. */
  lemma OneColumnAnswer(I: Interp, p: Projection, e: Expr, rows: seq<Bindings>)
    requires p.items == [ReturnItem(e, "n")] && p.order == [] && !e.Star? && (IsAggregate(e) || p.distinct) && HasCall(e)
    ensures Answer(I, p, ["b"], rows) == Distinct({[EvalGroup(I, e, rows)]})
  {
    OneColumn(p, e);
    assert HasCall(Columns(p, ["b"])[0]);
    assert Tuple(I, [e], rows) == [EvalGroup(I, e, rows)];
  }

  /** One row, and the same row twice. */
  lemma OnceAndTwice(I: Interp, r: Bindings)
    requires "b" in r
    ensures RowValues(I, Var("b"), [r]) == [r["b"]] && RowValues(I, Var("b"), [r, r]) == [r["b"], r["b"]]
    ensures SameSet([r], [r, r])
    ensures !r["b"].Null? ==> NonNulls([r["b"]]) == 1 && NonNulls([r["b"], r["b"]]) == 2
  {
    var x := r["b"];
    assert [x, x][1..] == [x] && [x][1..] == [];
  }

  /** `RETURN DISTINCT count(b)`: DISTINCT acts after the count. */
  lemma DistinctCountCounts(I: Interp, r: Bindings)
    requires SqlAggregates(I) && "b" in r && !r["b"].Null?
    ensures var p := Projection([ReturnItem(Count([Var("b")], false), "n")], true, []);
      && MultiplicityBlind(p) && SameSet([r], [r, r])
      && Answer(I, p, ["b"], [r]) == Distinct({[Atom(1)]}) && Answer(I, p, ["b"], [r, r]) == Distinct({[Atom(2)]})
  {
    var e := Count([Var("b")], false);
    var p := Projection([ReturnItem(e, "n")], true, []);
    LowerCase();
    OnceAndTwice(I, r);
    OneColumnAnswer(I, p, e, [r]);
    OneColumnAnswer(I, p, e, [r, r]);
  }

  const BARE_COUNT := Projection([ReturnItem(Count([], true), "n")], false, [])

  lemma BareCountAccepted()
    ensures MultiplicityBlind(BARE_COUNT)
  {
    LowerCase();
    assert IsAggregate(BARE_COUNT.items[0].expr);
  }

  lemma BareCountAnswer(I: Interp, rows: seq<Bindings>)
    requires SqlAggregates(I)
    ensures Answer(I, BARE_COUNT, ["b"], rows) == Distinct({[Atom(|rows|)]})
  {
    LowerCase();
    OneColumnAnswer(I, BARE_COUNT, Count([], true), rows);
  }

  /** `RETURN count(DISTINCT)`: with no argument it is written `count(*)`. */
  lemma BareCountCounts(I: Interp, r: Bindings)
    requires SqlAggregates(I)
    ensures MultiplicityBlind(BARE_COUNT) && SameSet([r], [r, r])
    ensures Answer(I, BARE_COUNT, ["b"], [r]) == Distinct({[Atom(1)]})
    ensures Answer(I, BARE_COUNT, ["b"], [r, r]) == Distinct({[Atom(2)]})
  {
    BareCountAccepted();
    BareCountAnswer(I, [r]);
    BareCountAnswer(I, [r, r]);
  }

  const HIDDEN_COLLECT := ListComp("x", Func("collect", [Var("b")], false), None, None)

  /** The comprehension hands on what was collected. */
  lemma HiddenCollect(I: Interp, rows: seq<Bindings>, vs: seq<Value>)
    requires SqlAggregates(I) && rows != [] && vs == RowValues(I, Var("b"), rows)
    ensures HasCall(HIDDEN_COLLECT) && EvalGroup(I, HIDDEN_COLLECT, rows) == ListOf(vs)
  {
    var e := HIDDEN_COLLECT;
    LowerCase();
    assert Kids(e) == [e.source] && Scoped(e) == [];
    assert IsCall(e.source) && HasCall(Kids(e)[0]);
    var kids := GroupKids(I, e, rows);
    assert kids == [ListOf(vs)];
    var parts := Own(e, rows) + kids + GroupInner(I, e, rows, I.elems(kids[0]));
    assert parts[0] == kids[0];
  }

  lemma HiddenCollectAnswer(I: Interp, p: Projection, rows: seq<Bindings>, vs: seq<Value>)
    requires SqlAggregates(I) && rows != [] && vs == RowValues(I, Var("b"), rows)
    requires p == Projection([ReturnItem(HIDDEN_COLLECT, "n")], true, [])
    ensures Answer(I, p, ["b"], rows) == Distinct({[ListOf(vs)]})
  {
    HiddenCollect(I, rows, vs);
    OneColumnAnswer(I, p, HIDDEN_COLLECT, rows);
  }

  /** `RETURN DISTINCT [x IN collect(b)]`: `is_aggregate` does not see the aggregate, and the list is as long as the bag. */
  lemma HiddenCollectCounts(I: Interp, r: Bindings)
    requires SqlAggregates(I) && "b" in r
    ensures var p := Projection([ReturnItem(HIDDEN_COLLECT, "n")], true, []);
      && MultiplicityBlind(p) && !IsAggregate(HIDDEN_COLLECT) && SameSet([r], [r, r])
      && Answer(I, p, ["b"], [r]) == Distinct({[ListOf([r["b"]])]})
      && Answer(I, p, ["b"], [r, r]) == Distinct({[ListOf([r["b"], r["b"]])]})
  {
    var p := Projection([ReturnItem(HIDDEN_COLLECT, "n")], true, []);
    OnceAndTwice(I, r);
    HiddenCollectAnswer(I, p, [r], [r["b"]]);
    HiddenCollectAnswer(I, p, [r, r], [r["b"], r["b"]]);
  }
}
