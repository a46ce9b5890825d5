/** The whole optimisation: a query that cannot count paths, over a hop that need not enumerate them. */
module HopRewrite {
  import opened Sequences
  import opened Traversal
  import opened ReachabilityRewrite
  import opened CypherAst
  import opened CypherSemantics
  import opened CypherProjection

  /** A lateral join: every row before the hop, every node the hop returns for it, and what the rest
      of the query makes of the pair.  The three are written as functions of the row. */
  ghost function Joined(before: seq<Bindings>, nodes: Bindings -> seq<int>, rest: (Bindings, int) -> seq<Bindings>): seq<Bindings>
  {
    if before == [] then [] else PerNode(before[0], nodes(before[0]), rest) + Joined(before[1..], nodes, rest)
  }

  ghost function PerNode(row: Bindings, nodes: seq<int>, rest: (Bindings, int) -> seq<Bindings>): seq<Bindings>
  {
    if nodes == [] then [] else rest(row, nodes[0]) + PerNode(row, nodes[1..], rest)
  }

  lemma {:induction false} InPerNode(row: Bindings, nodes: seq<int>, rest: (Bindings, int) -> seq<Bindings>, x: Bindings)
    ensures x in PerNode(row, nodes, rest) <==> exists n :: n in nodes && x in rest(row, n)
  {
    if nodes != [] {
      InPerNode(row, nodes[1..], rest, x);
      assert nodes == [nodes[0]] + nodes[1..];
      assert forall n :: n in nodes <==> n == nodes[0] || n in nodes[1..];
      if x in PerNode(row, nodes[1..], rest) {
        var n :| n in nodes[1..] && x in rest(row, n);
        assert n in nodes;
      } else if x in rest(row, nodes[0]) {
        assert nodes[0] in nodes;
      }
    }
  }

  lemma {:induction false} JoinedMoves(before: seq<Bindings>, f: Bindings -> seq<int>, g: Bindings -> seq<int>,
      rest: (Bindings, int) -> seq<Bindings>, x: Bindings)
    requires forall r, n :: n in f(r) ==> n in g(r)
    requires x in Joined(before, f, rest)
    ensures x in Joined(before, g, rest)
  {
    if x in PerNode(before[0], f(before[0]), rest) {
      InPerNode(before[0], f(before[0]), rest, x);
      InPerNode(before[0], g(before[0]), rest, x);
    } else {
      JoinedMoves(before[1..], f, g, rest, x);
    }
  }

  lemma JoinedBySet(before: seq<Bindings>, f: Bindings -> seq<int>, g: Bindings -> seq<int>,
      rest: (Bindings, int) -> seq<Bindings>)
    requires forall r, n :: n in f(r) <==> n in g(r)
    ensures SameSet(Joined(before, f, rest), Joined(before, g, rest))
  {
    forall x | x in Joined(before, f, rest) ensures x in Joined(before, g, rest) {
      JoinedMoves(before, f, g, rest, x);
    }
    forall x | x in Joined(before, g, rest) ensures x in Joined(before, f, rest) {
      JoinedMoves(before, g, f, rest, x);
    }
  }

  /** Compiling the hop to `og_reach` instead of `og_vlp` leaves the query's answer as it was, for every
      graph, every pattern around the hop and every meaning of the operators. */
  lemma RewritePreservesAnswer(I: Interp, p: Projection, bound: seq<string>, edges: seq<Edge>, dir: Dir, min: nat, max: nat,
      start: Bindings -> int, before: seq<Bindings>, rest: (Bindings, int) -> seq<Bindings>,
      vlp: Bindings -> seq<int>, reach: Bindings -> seq<int>)
    requires IdsDistinct(edges) && RewriteSafe(dir, min, max)
    requires MultiplicityBlind(p) && (Refused(p, bound) || ColumnsInsensitive(p, bound))
    requires forall r, n :: n in vlp(r) <==> VlpReturns(Hops(edges, dir), start(r), min, max, n)
    requires forall r, n :: n in reach(r) <==> ReachReturns(Hops(edges, dir), start(r), min, max, n)
    ensures Answer(I, p, bound, Joined(before, vlp, rest)) == Answer(I, p, bound, Joined(before, reach, rest))
  {
    forall r, n ensures n in vlp(r) <==> n in reach(r) {
      SafeRewriteAgrees(edges, dir, start(r), min, max, n);
    }
    JoinedBySet(before, vlp, reach, rest);
    AnswerBySet(I, p, bound, Joined(before, vlp, rest), Joined(before, reach, rest));
  }
}
