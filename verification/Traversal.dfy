/**
 The two functions a variable-length hop can compile to: `og_vlp`, which
 enumerates trails, and `og_reach`, which visits each node once.
 */
module Traversal {
  import opened Sequences

  datatype Edge = Edge(id: int, src: int, dst: int)

  datatype Dir = Out | In | Both

  /** One unnested entry of an adjacency segment. */
  datatype Hop = Hop(src: int, nbr: int, eid: int)

  /** Every edge has its own id. */
  ghost predicate IdsDistinct(edges: seq<Edge>)
  {
    forall e, f :: e in edges && f in edges && e.id == f.id ==> e == f
  }

  /** The entries a hop may cross: each edge is stored outgoing at its source and incoming at its target. */
  function Hops(edges: seq<Edge>, dir: Dir): (hops: seq<Hop>)
    ensures forall h :: h in hops <==>
      || (dir != In && Edge(h.eid, h.src, h.nbr) in edges)
      || (dir != Out && Edge(h.eid, h.nbr, h.src) in edges)
  {
    if edges == [] then []
    else
      var e := edges[0];
      assert edges == [e] + edges[1..];
      (if dir == In then [] else [Hop(e.src, e.dst, e.id)])
      + (if dir == Out then [] else [Hop(e.dst, e.src, e.id)])
      + Hops(edges[1..], dir)
  }

  // ---------------------------------------------------------------- og_vlp

  /** A row of the recursive query: a node and the edges crossed to get there. */
  datatype TrailRow = TrailRow(node: int, path: seq<int>)

  /** The rows of `og_vlp`'s recursion at depth `k`. */
  ghost function TrailRows(hops: seq<Hop>, src: int, k: nat): set<TrailRow>
  {
    if k == 0 then {TrailRow(src, [])}
    else
      set w, h | w in TrailRows(hops, src, k - 1) && h in hops && h.src == w.node && h.eid !in w.path
        :: TrailRow(h.nbr, w.path + [h.eid])
  }

  /** `og_vlp` returns a row for `node`. */
  ghost predicate VlpReturns(hops: seq<Hop>, src: int, min: nat, max: nat, node: int)
  {
    exists k: nat, path :: min <= k <= max && TrailRow(node, path) in TrailRows(hops, src, k)
  }

  // ---------------------------------------------------------------- walks

  ghost predicate Walk(hops: seq<Hop>, s: int, steps: seq<Hop>, t: int)
  {
    if steps == [] then s == t
    else
      var h := steps[|steps| - 1];
      h in hops && h.nbr == t && Walk(hops, s, steps[..|steps| - 1], h.src)
  }

  ghost function Eids(steps: seq<Hop>): (ids: seq<int>)
    ensures |ids| == |steps| && forall i :: 0 <= i < |steps| ==> ids[i] == steps[i].eid
  {
    seq(|steps|, i requires 0 <= i < |steps| => steps[i].eid)
  }

  /** A walk that crosses no edge twice. */
  ghost predicate Trail(hops: seq<Hop>, s: int, steps: seq<Hop>, t: int)
  {
    Walk(hops, s, steps, t) && NoDup(Eids(steps))
  }

  lemma {:induction false} WalkJoin(hops: seq<Hop>, s: int, a: seq<Hop>, u: int, b: seq<Hop>, t: int)
    requires Walk(hops, s, a, u) && Walk(hops, u, b, t)
    ensures Walk(hops, s, a + b, t)
  {
    if b == [] {
      assert a + b == a;
    } else {
      var n := |b| - 1;
      WalkJoin(hops, s, a, u, b[..n], b[n].src);
      assert (a + b)[..|a| + n] == a + b[..n];
    }
  }

  /** The node a walk has reached before step `k`. */
  ghost function NodeAt(s: int, steps: seq<Hop>, k: nat): int
    requires k <= |steps|
  {
    if k == 0 then s else steps[k - 1].nbr
  }

  lemma {:induction false} WalkSplit(hops: seq<Hop>, s: int, steps: seq<Hop>, t: int, k: nat)
    requires Walk(hops, s, steps, t) && k <= |steps|
    ensures Walk(hops, s, steps[..k], NodeAt(s, steps, k))
    ensures Walk(hops, NodeAt(s, steps, k), steps[k..], t)
    ensures k < |steps| ==> steps[k] in hops && steps[k].src == NodeAt(s, steps, k)
  {
    var n := |steps| - 1;
    if k == |steps| {
      assert steps[..k] == steps && steps[k..] == [];
    } else {
      WalkSplit(hops, s, steps[..n], steps[n].src, k);
      assert steps[..n][..k] == steps[..k];
      assert steps[k..][..n - k] == steps[..n][k..];
      assert NodeAt(s, steps[..n], k) == NodeAt(s, steps, k);
    }
  }

  /** The trail rows at depth `k` are the trails of length `k`. */
  lemma {:induction false} TrailIsRow(hops: seq<Hop>, s: int, steps: seq<Hop>, t: int)
    requires Trail(hops, s, steps, t)
    ensures TrailRow(t, Eids(steps)) in TrailRows(hops, s, |steps|)
  {
    if steps == [] {
      assert Eids(steps) == [];
    } else {
      var n := |steps| - 1;
      var h, w := steps[n], TrailRow(steps[n].src, Eids(steps[..n]));
      assert Eids(steps) == Eids(steps[..n]) + [h.eid];
      TrailIsRow(hops, s, steps[..n], h.src);
      assert h.eid !in w.path by {
        assert forall i :: 0 <= i < n ==> Eids(steps)[i] != Eids(steps)[n];
      }
      assert TrailRow(t, Eids(steps)) == TrailRow(h.nbr, w.path + [h.eid]);
    }
  }

  /** One more edge, not yet crossed. */
  lemma TrailOn(hops: seq<Hop>, s: int, before: seq<Hop>, h: Hop)
    requires Trail(hops, s, before, h.src) && h in hops && h.eid !in Eids(before)
    ensures Trail(hops, s, before + [h], h.nbr) && Eids(before + [h]) == Eids(before) + [h.eid]
  {
    var steps := before + [h];
    assert steps[..|before|] == before;
    assert Eids(steps) == Eids(before) + [h.eid];
    assert forall i :: 0 <= i < |before| ==> Eids(before)[i] in Eids(before);
  }

  lemma {:induction false} RowIsTrail(hops: seq<Hop>, s: int, k: nat, row: TrailRow) returns (steps: seq<Hop>)
    requires row in TrailRows(hops, s, k)
    ensures Trail(hops, s, steps, row.node) && |steps| == k && Eids(steps) == row.path
  {
    if k == 0 {
      steps := [];
    } else {
      var w, h :| w in TrailRows(hops, s, k - 1) && h in hops && h.src == w.node && h.eid !in w.path
        && row == TrailRow(h.nbr, w.path + [h.eid]);
      var before := RowIsTrail(hops, s, k - 1, w);
      TrailOn(hops, s, before, h);
      steps := before + [h];
    }
  }

  // ---------------------------------------------------------------- og_reach

  ghost function Successors(hops: seq<Hop>, from: set<int>): set<int>
  {
    set h | h in hops && h.src in from :: h.nbr
  }

  /** The nodes whose least distance from `src` is `k`. */
  ghost function Layer(hops: seq<Hop>, src: int, k: nat): set<int>
    decreases k, 0
  {
    if k == 0 then {src} else Successors(hops, Layer(hops, src, k - 1)) - Seen(hops, src, k - 1)
  }

  /** The nodes within distance `k`. */
  ghost function Seen(hops: seq<Hop>, src: int, k: nat): set<int>
    decreases k, 1
  {
    if k == 0 then {src} else Seen(hops, src, k - 1) + Layer(hops, src, k)
  }

  /** At depth `d` some frontier node has an entry back to the start. */
  ghost predicate ComesBack(hops: seq<Hop>, src: int, d: nat)
  {
    d > 0 && src in Successors(hops, Layer(hops, src, d - 1))
  }

  /** It has come back at some depth from `min` on, before `d`. */
  ghost predicate CameBack(hops: seq<Hop>, src: int, min: nat, d: nat)
  {
    exists e: nat :: min <= e < d && ComesBack(hops, src, e)
  }

  /** The rows `og_reach` emits. */
  ghost predicate Emits(hops: seq<Hop>, src: int, min: nat, max: nat, node: int, d: nat)
  {
    || (d == 0 && min == 0 && node == src)
    || (1 <= d <= max && min <= d && node in Layer(hops, src, d))
    || (1 <= d <= max && 1 <= min <= d && node == src && ComesBack(hops, src, d) && !CameBack(hops, src, min, d))
  }

  ghost predicate ReachReturns(hops: seq<Hop>, src: int, min: nat, max: nat, node: int)
  {
    exists d: nat :: Emits(hops, src, min, max, node, d)
  }

  /** The adjacency scan: the neighbours of the frontier, in table order. */
  function Scan(hops: seq<Hop>, frontier: seq<int>): (nbrs: seq<int>)
    ensures forall n :: n in nbrs <==> exists h :: h in hops && h.src in frontier && h.nbr == n
  {
    if hops == [] then []
    else
      assert hops == [hops[0]] + hops[1..];
      (if hops[0].src in frontier then [hops[0].nbr] else []) + Scan(hops[1..], frontier)
  }

  lemma ScanIsSuccessors(hops: seq<Hop>, frontier: seq<int>, from: set<int>)
    requires forall n :: n in frontier <==> n in from
    ensures forall n :: n in Scan(hops, frontier) <==> n in Successors(hops, from)
  {
  }

  ghost function ToSet(s: seq<int>): set<int>
  {
    set x | x in s
  }

  /** The body of the level loop: `next` is the new frontier, `found` what this level emits. */
  method Expand(nbrs: seq<int>, src: int, visited: set<int>, startDone: bool, emit: bool)
    returns (visited': set<int>, next: seq<int>, found: seq<int>, startDone': bool)
    requires src in visited
    ensures visited' == visited + ToSet(nbrs)
    ensures NoDup(next) && ToSet(next) == ToSet(nbrs) - visited
    ensures NoDup(found)
    ensures startDone' <==> startDone || (emit && src in nbrs)
    ensures forall n :: n in found <==> emit && (n in next || (n == src && src in nbrs && !startDone))
  {
    visited', next, found, startDone' := visited, [], [], startDone;
    for i := 0 to |nbrs|
      invariant visited' == visited + ToSet(nbrs[..i])
      invariant NoDup(next) && ToSet(next) == ToSet(nbrs[..i]) - visited
      invariant NoDup(found)
      invariant startDone' <==> startDone || (emit && src in nbrs[..i])
      invariant forall n :: n in found <==> emit && (n in next || (n == src && src in nbrs[..i] && !startDone))
    {
      var nbr := nbrs[i];
      assert nbrs[..i + 1] == nbrs[..i] + [nbr];
      assert ToSet(nbrs[..i + 1]) == ToSet(nbrs[..i]) + {nbr};
      if nbr !in visited' {
        assert nbr !in next by { assert nbr !in ToSet(next); }
        assert ToSet(next + [nbr]) == ToSet(next) + {nbr};
        visited' := visited' + {nbr};
        next := next + [nbr];
        if emit {
          found := found + [nbr];
        }
      } else if nbr == src && !startDone' && emit {
        startDone' := true;
        found := found + [src];
      }
    }
    assert nbrs[..|nbrs|] == nbrs;
  }

  ghost predicate RowsUpTo(out: seq<(int, nat)>, hops: seq<Hop>, src: int, min: nat, max: nat, depth: nat)
  {
    forall n, d: nat :: (n, d) in out <==> d < depth && Emits(hops, src, min, max, n, d)
  }

  /** `og_reach`: a level-synchronous search with a visited set. */
  method OgReach(hops: seq<Hop>, src: int, min: nat, max: nat) returns (out: seq<(int, nat)>)
    ensures forall n, d: nat :: (n, d) in out <==> Emits(hops, src, min, max, n, d)
    ensures forall i, j :: 0 <= i < j < |out| ==> out[i].0 != out[j].0
  {
    var visited := {src};
    var frontier := [src];
    out := if min == 0 then [(src, 0)] else [];
    var startDone := min == 0;
    var depth := 1;
    while depth <= max && frontier != []
      invariant 1 <= depth <= max + 1
      invariant ToSet(frontier) == Layer(hops, src, depth - 1)
      invariant visited == Seen(hops, src, depth - 1)
      invariant startDone <==> min == 0 || CameBack(hops, src, min, depth)
      invariant RowsUpTo(out, hops, src, min, max, depth) && NoDup(out)
      decreases max + 1 - depth
    {
      var nbrs := Scan(hops, frontier);
      ScanIsSuccessors(hops, frontier, Layer(hops, src, depth - 1));
      StartSeen(hops, src, depth - 1);
      var found;
      ghost var before := startDone;
      visited, frontier, found, startDone := Expand(nbrs, src, visited, startDone, depth >= min);
      assert ToSet(nbrs) == Successors(hops, Layer(hops, src, depth - 1));
      LevelRows(hops, src, min, max, depth, nbrs, frontier, found, before, out);
      LevelApart(out, hops, src, min, max, found, depth);
      out := out + Pairs(found, depth);
      depth := depth + 1;
    }
    NoRowsAfter(hops, src, min, max, depth);
    NodesOnce(out, hops, src, min, max);
  }

  lemma NodesOnce(out: seq<(int, nat)>, hops: seq<Hop>, src: int, min: nat, max: nat)
    requires NoDup(out) && forall n, d: nat :: (n, d) in out <==> Emits(hops, src, min, max, n, d)
    ensures forall i, j :: 0 <= i < j < |out| ==> out[i].0 != out[j].0
  {
    forall i, j | 0 <= i < j < |out| ensures out[i].0 != out[j].0 {
      if out[i].0 == out[j].0 {
        var (n, d) := out[i];
        var (m, e) := out[j];
        assert (n, d) in out && (m, e) in out;
        EmitsOnce(hops, src, min, max, n, d, e);
      }
    }
  }

  /** A node is emitted at one depth only, so with no repeated row it is emitted once. */
  lemma EmitsOnce(hops: seq<Hop>, src: int, min: nat, max: nat, node: int, d: nat, e: nat)
    requires Emits(hops, src, min, max, node, d) && Emits(hops, src, min, max, node, e)
    ensures d == e
  {
    StartSeen(hops, src, d);
    StartSeen(hops, src, e);
    if d < e {
      LayersApart(hops, src, d, e, node);
    } else if e < d {
      LayersApart(hops, src, e, d, node);
    }
  }

  lemma {:induction false} LayersApart(hops: seq<Hop>, src: int, j: nat, k: nat, node: int)
    requires j < k && node in Layer(hops, src, j)
    ensures node !in Layer(hops, src, k) && node in Seen(hops, src, k - 1)
  {
    if j < k - 1 {
      LayersApart(hops, src, j, k - 1, node);
    }
  }

  function Pairs(found: seq<int>, depth: nat): (rows: seq<(int, nat)>)
    ensures forall n, d: nat :: (n, d) in rows <==> n in found && d == depth
    ensures |rows| == |found| && forall i :: 0 <= i < |rows| ==> rows[i] == (found[i], depth)
  {
    var rows: seq<(int, nat)> := seq(|found|, i requires 0 <= i < |found| => (found[i], depth));
    assert forall i :: 0 <= i < |found| ==> rows[i] == (found[i], depth) && rows[i] in rows;
    rows
  }

  lemma EarlierRows(out: seq<(int, nat)>, hops: seq<Hop>, src: int, min: nat, max: nat, depth: nat)
    requires RowsUpTo(out, hops, src, min, max, depth)
    ensures forall i :: 0 <= i < |out| ==> out[i].1 < depth
  {
    forall i | 0 <= i < |out| ensures out[i].1 < depth {
      var (n, d) := out[i];
      assert (n, d) in out;
    }
  }

  lemma LevelApart(out: seq<(int, nat)>, hops: seq<Hop>, src: int, min: nat, max: nat, found: seq<int>, depth: nat)
    requires RowsUpTo(out, hops, src, min, max, depth) && NoDup(out) && NoDup(found)
    ensures NoDup(out + Pairs(found, depth))
  {
    EarlierRows(out, hops, src, min, max, depth);
    RowsStayApart(out, found, depth);
  }

  lemma RowsStayApart(out: seq<(int, nat)>, found: seq<int>, depth: nat)
    requires NoDup(out) && NoDup(found) && forall i :: 0 <= i < |out| ==> out[i].1 < depth
    ensures NoDup(out + Pairs(found, depth))
  {
    var all, m := out + Pairs(found, depth), |out|;
    forall i, j | 0 <= i < j < |all| ensures all[i] != all[j] {
      if j >= m {
        assert all[j] == (found[j - m], depth);
        assert i >= m ==> all[i] == (found[i - m], depth);
      }
    }
  }

  lemma {:induction false} StartSeen(hops: seq<Hop>, src: int, k: nat)
    ensures src in Seen(hops, src, k)
    ensures k > 0 ==> src !in Layer(hops, src, k)
  {
    if k > 0 {
      StartSeen(hops, src, k - 1);
    }
  }

  /** One level of the loop adds exactly the rows of that depth. */
  lemma LevelRows(hops: seq<Hop>, src: int, min: nat, max: nat, depth: nat, nbrs: seq<int>, next: seq<int>,
      found: seq<int>, startDone: bool, out: seq<(int, nat)>)
    requires 1 <= depth <= max && RowsUpTo(out, hops, src, min, max, depth)
    requires ToSet(nbrs) == Successors(hops, Layer(hops, src, depth - 1))
    requires ToSet(next) == Layer(hops, src, depth)
    requires startDone <==> min == 0 || CameBack(hops, src, min, depth)
    requires forall n :: n in found <==> depth >= min && (n in next || (n == src && src in nbrs && !startDone))
    ensures RowsUpTo(out + Pairs(found, depth), hops, src, min, max, depth + 1)
    ensures (startDone || (depth >= min && src in nbrs)) <==> min == 0 || CameBack(hops, src, min, depth + 1)
  {
    assert src in nbrs <==> ComesBack(hops, src, depth);
    if CameBack(hops, src, min, depth + 1) && !CameBack(hops, src, min, depth) {
      var e: nat :| min <= e < depth + 1 && ComesBack(hops, src, e);
      assert e == depth;
    }
    forall n, d: nat
      ensures (n, d) in out + Pairs(found, depth) <==> d < depth + 1 && Emits(hops, src, min, max, n, d)
    {
      assert n in next <==> n in ToSet(next);
    }
  }

  lemma {:induction false} EmptyLayers(hops: seq<Hop>, src: int, k: nat, j: nat)
    requires Layer(hops, src, k) == {} && k <= j
    ensures Layer(hops, src, j) == {}
  {
    if k < j {
      EmptyLayers(hops, src, k, j - 1);
    }
  }

  lemma NoRowsAfter(hops: seq<Hop>, src: int, min: nat, max: nat, depth: nat)
    requires depth == max + 1 || (depth > 0 && Layer(hops, src, depth - 1) == {})
    ensures forall n, d: nat | d >= depth && d > 0 :: !Emits(hops, src, min, max, n, d)
  {
    if depth <= max {
      forall n, d: nat | d >= depth && d > 0 ensures !Emits(hops, src, min, max, n, d) {
        EmptyLayers(hops, src, depth - 1, d);
        EmptyLayers(hops, src, depth - 1, d - 1);
      }
    }
  }
}
