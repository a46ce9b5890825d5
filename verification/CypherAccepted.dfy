/** Which expressions the compiler's syntactic test accepts, exactly. */
module CypherAccepted {
  import opened CypherAst

  /** The parts `is_aggregate` looks at: none under properties, comprehensions, list predicates or map projections. */
  function Looked(e: Expr): (parts: seq<Expr>)
    ensures forall i :: 0 <= i < |parts| ==> parts[i] < e
  {
    if e.Prop? || e.ListComp? || e.ListPred? || e.MapProjection? then [] else Kids(e)
  }

  /** `x` is `e` or a part of it that is looked at. */
  ghost predicate Within(e: Expr, x: Expr)
  {
    x == e || exists i :: 0 <= i < |Looked(e)| && Within(Looked(e)[i], x)
  }

  predicate AggregateCall(e: Expr)
  {
    e.Func? && AggregateName(e.name)
  }

  ghost predicate HoldsAggregate(e: Expr)
  {
    exists x :: Within(e, x) && AggregateCall(x)
  }

  /** A minimum or maximum, or the distinct values of something. */
  predicate Tolerated(e: Expr)
    requires e.Func?
  {
    || Lower(e.name) in {"min", "max"}
    || (Lower(e.name) in {"count", "collect"} && e.distinct && (e.args == [] || !e.args[0].Star?))
  }

  /** No aggregate is accepted here: in a CASE, or as or in a call of any other function. */
  predicate Closed(e: Expr)
  {
    e.Case? || (e.Func? && !Tolerated(e))
  }

  /** Some part looked at is an aggregate, by the parts themselves. */
  lemma LooksAtParts(e: Expr)
    ensures IsAggregate(e) <==> AggregateCall(e) || exists i :: 0 <= i < |Looked(e)| && IsAggregate(Looked(e)[i])
  {
    match e
    case Case(_, _, _) => CaseLooks(e);
    case Map(kv) => MapLooks(e);
    case Binary(_, a, b) => assert Looked(e) == [a, b]; assert Looked(e)[0] == a && Looked(e)[1] == b;
    case Not(a) => assert Looked(e)[0] == a;
    case Neg(a) => assert Looked(e)[0] == a;
    case IsNull(a, _) => assert Looked(e)[0] == a;
    case List(xs) => assert Looked(e) == xs;
    case Func(_, args, _) => assert Looked(e) == args;
    case _ => assert Looked(e) == [];
  }

  lemma MapLooks(e: Expr)
    requires e.Map?
    ensures IsAggregate(e) <==> exists i :: 0 <= i < |Looked(e)| && IsAggregate(Looked(e)[i])
  {
    assert Looked(e) == EntryValues(e.entries);
    forall i | 0 <= i < |e.entries| && IsAggregate(e.entries[i].1) ensures IsAggregate(Looked(e)[i]) {
    }
  }

  lemma CaseLooks(e: Expr)
    requires e.Case?
    ensures IsAggregate(e) <==> exists i :: 0 <= i < |Looked(e)| && IsAggregate(Looked(e)[i])
  {
    if IsAggregate(e) {
      var i := CaseHolds(e);
      assert IsAggregate(Looked(e)[i]);
    }
    if i :| 0 <= i < |Looked(e)| && IsAggregate(Looked(e)[i]) {
      CaseHeld(e, i);
    }
  }

  lemma CaseHolds(e: Expr) returns (i: nat)
    requires e.Case? && IsAggregate(e)
    ensures i < |Looked(e)| && IsAggregate(Looked(e)[i])
  {
    var o, w := |Optional(e.operand)|, |e.whens|;
    if e.operand.Some? && IsAggregate(e.operand.value) {
      i := 0;
    } else if e.otherwise.Some? && IsAggregate(e.otherwise.value) {
      i := o + 2 * w;
    } else {
      var k :| 0 <= k < w && (IsAggregate(e.whens[k].0) || IsAggregate(e.whens[k].1));
      i := if IsAggregate(e.whens[k].0) then o + k else o + w + k;
      assert Looked(e)[i] == WhenParts(e.whens)[i - o];
    }
  }

  lemma CaseHeld(e: Expr, i: nat)
    requires e.Case? && i < |Looked(e)| && IsAggregate(Looked(e)[i])
    ensures IsAggregate(e)
  {
    var o, w := |Optional(e.operand)|, |e.whens|;
    if o <= i < o + w {
      assert Looked(e)[i] == WhenParts(e.whens)[i - o] == e.whens[i - o].0;
    } else if o + w <= i < o + 2 * w {
      assert Looked(e)[i] == WhenParts(e.whens)[i - o] == e.whens[i - o - w].1;
    }
  }

  /** `is_aggregate` finds the calls it looks at, and only these. */
  lemma {:induction false} AggregateExactly(e: Expr)
    ensures IsAggregate(e) <==> HoldsAggregate(e)
    decreases e
  {
    LooksAtParts(e);
    forall i | 0 <= i < |Looked(e)| ensures IsAggregate(Looked(e)[i]) <==> HoldsAggregate(Looked(e)[i]) {
      AggregateExactly(Looked(e)[i]);
    }
    if i :| 0 <= i < |Looked(e)| && HoldsAggregate(Looked(e)[i]) {
      var x :| Within(Looked(e)[i], x) && AggregateCall(x);
      assert Within(e, x);
    }
    if AggregateCall(e) {
      assert Within(e, e);
    }
  }

  /** The same one level at a time: nothing closed holds an aggregate. */
  ghost predicate OpenHere(e: Expr)
  {
    Closed(e) ==> !IsAggregate(e)
  }

  lemma {:induction false} NoAggregateIsBlind(e: Expr)
    requires !IsAggregate(e)
    ensures BlindExpr(e)
    decreases e
  {
    LooksAtParts(e);
    forall i | 0 <= i < |Looked(e)| ensures BlindExpr(Looked(e)[i]) {
      NoAggregateIsBlind(Looked(e)[i]);
    }
    BlindByParts(e);
  }

  lemma BlindByParts(e: Expr)
    ensures !e.Case? ==> (BlindExpr(e) <==> OpenHere(e) && forall i :: 0 <= i < |Looked(e)| ==> BlindExpr(Looked(e)[i]))
  {
    match e
    case Case(_, _, _) =>
    case Map(kv) => assert forall i :: 0 <= i < |kv| ==> Looked(e)[i] == kv[i].1;
    case Binary(_, a, b) => assert Looked(e)[0] == a && Looked(e)[1] == b;
    case Not(a) => assert Looked(e)[0] == a;
    case Neg(a) => assert Looked(e)[0] == a;
    case IsNull(a, _) => assert Looked(e)[0] == a;
    case List(xs) => assert Looked(e) == xs;
    case Func(_, args, _) => assert Looked(e) == args;
    case _ => assert Looked(e) == [];
  }

  lemma BlindStep(e: Expr)
    ensures BlindExpr(e) <==> OpenHere(e) && forall i :: 0 <= i < |Looked(e)| ==> BlindExpr(Looked(e)[i])
  {
    BlindByParts(e);
    if e.Case? && !IsAggregate(e) {
      LooksAtParts(e);
      forall i | 0 <= i < |Looked(e)| ensures BlindExpr(Looked(e)[i]) {
        NoAggregateIsBlind(Looked(e)[i]);
      }
    }
  }

  /** No part that is closed to aggregates holds one. */
  ghost predicate AllOpen(e: Expr)
  {
    forall x :: Within(e, x) && Closed(x) ==> !HoldsAggregate(x)
  }

  /** The compiler accepts an expression exactly if every aggregate it sees there is a minimum, a maximum, or a count or
      collection of distinct values, and none stands in a CASE or in the arguments of another function. */
  lemma {:induction false} BlindExactly(e: Expr)
    ensures BlindExpr(e) <==> AllOpen(e)
    decreases e
  {
    BlindStep(e);
    AggregateExactly(e);
    forall i | 0 <= i < |Looked(e)| ensures BlindExpr(Looked(e)[i]) <==> AllOpen(Looked(e)[i]) {
      BlindExactly(Looked(e)[i]);
    }
    OpenByParts(e);
  }

  lemma OpenByParts(e: Expr)
    ensures AllOpen(e) <==> (Closed(e) ==> !HoldsAggregate(e)) && forall i :: 0 <= i < |Looked(e)| ==> AllOpen(Looked(e)[i])
  {
    if AllOpen(e) {
      assert Within(e, e);
      forall i | 0 <= i < |Looked(e)| ensures AllOpen(Looked(e)[i]) {
        forall x | Within(Looked(e)[i], x) && Closed(x) ensures !HoldsAggregate(x) {
          assert Within(e, x);
        }
      }
    }
  }
}
