/** When `og_reach` may stand in for `og_vlp`: both directions, over every graph. */
module ReachabilityRewrite {
  import opened Sequences
  import opened Traversal

  // ---------------------------------------------------------------- og_reach finds walks

  lemma {:induction false} LayerHasWalk(hops: seq<Hop>, src: int, k: nat, node: int) returns (steps: seq<Hop>)
    requires node in Layer(hops, src, k)
    ensures Walk(hops, src, steps, node) && |steps| == k
  {
    if k == 0 {
      steps := [];
    } else {
      var h :| h in hops && h.src in Layer(hops, src, k - 1) && h.nbr == node;
      var before := LayerHasWalk(hops, src, k - 1, h.src);
      steps := before + [h];
      assert steps[..k - 1] == before;
    }
  }

  lemma {:induction false} SeenHasLayer(hops: seq<Hop>, src: int, k: nat, node: int) returns (j: nat)
    requires node in Seen(hops, src, k)
    ensures j <= k && node in Layer(hops, src, j)
  {
    if k == 0 || node in Layer(hops, src, k) {
      j := k;
    } else {
      j := SeenHasLayer(hops, src, k - 1, node);
    }
  }

  lemma {:induction false} WalkEndsSeen(hops: seq<Hop>, src: int, steps: seq<Hop>, node: int)
    requires Walk(hops, src, steps, node)
    ensures node in Seen(hops, src, |steps|)
  {
    if steps != [] {
      var n := |steps| - 1;
      var h := steps[n];
      WalkEndsSeen(hops, src, steps[..n], h.src);
      var j := SeenHasLayer(hops, src, n, h.src);
      assert node in Successors(hops, Layer(hops, src, j));
      SuccessorSeen(hops, src, j, n, node);
    }
  }

  lemma {:induction false} SuccessorSeen(hops: seq<Hop>, src: int, j: nat, k: nat, node: int)
    requires j <= k && node in Successors(hops, Layer(hops, src, j))
    ensures node in Seen(hops, src, k + 1)
  {
    if j < k {
      SuccessorSeen(hops, src, j, k - 1, node);
    }
  }

  lemma {:induction false} FirstComeBack(hops: seq<Hop>, src: int, d: nat) returns (e: nat)
    requires d > 0 && ComesBack(hops, src, d)
    ensures 1 <= e <= d && ComesBack(hops, src, e) && !CameBack(hops, src, 1, e)
  {
    if CameBack(hops, src, 1, d) {
      var c: nat :| 1 <= c < d && ComesBack(hops, src, c);
      e := FirstComeBack(hops, src, c);
    } else {
      e := d;
    }
  }

  /** Some walk whose length lies in the range ends at `node`. */
  ghost predicate WalkInRange(hops: seq<Hop>, src: int, min: nat, max: nat, node: int)
  {
    exists steps :: Walk(hops, src, steps, node) && min <= |steps| <= max
  }

  lemma ReachedByWalk(hops: seq<Hop>, src: int, min: nat, max: nat, node: int)
    requires min <= 1 && ReachReturns(hops, src, min, max, node)
    requires min <= max
    ensures WalkInRange(hops, src, min, max, node)
  {
    var d: nat :| Emits(hops, src, min, max, node, d);
    if d == 0 {
      assert Walk(hops, src, [], node);
    } else if node in Layer(hops, src, d) {
      var steps := LayerHasWalk(hops, src, d, node);
    } else {
      var h :| h in hops && h.src in Layer(hops, src, d - 1) && h.nbr == src;
      var before := LayerHasWalk(hops, src, d - 1, h.src);
      var steps := before + [h];
      assert steps[..d - 1] == before;
      assert Walk(hops, src, steps, node);
    }
  }

  lemma WalkIsReached(hops: seq<Hop>, src: int, min: nat, max: nat, node: int)
    requires min <= 1 && WalkInRange(hops, src, min, max, node)
    ensures ReachReturns(hops, src, min, max, node)
  {
    var steps :| Walk(hops, src, steps, node) && min <= |steps| <= max;
    if node == src {
      if min == 0 {
        assert Emits(hops, src, min, max, node, 0);
      } else {
        ClosedWalkIsReached(hops, src, max, steps);
      }
    } else {
      WalkEndsSeen(hops, src, steps, node);
      var j := SeenHasLayer(hops, src, |steps|, node);
      assert Emits(hops, src, min, max, node, j);
    }
  }

  lemma ClosedWalkIsReached(hops: seq<Hop>, src: int, max: nat, steps: seq<Hop>)
    requires Walk(hops, src, steps, src) && 1 <= |steps| <= max
    ensures ReachReturns(hops, src, 1, max, src)
  {
    var n := |steps| - 1;
    var h := steps[n];
    WalkEndsSeen(hops, src, steps[..n], h.src);
    var j := SeenHasLayer(hops, src, n, h.src);
    assert ComesBack(hops, src, j + 1);
    var e := FirstComeBack(hops, src, j + 1);
    assert Emits(hops, src, 1, max, src, e);
  }

  /** With `min <= 1`, `og_reach` returns the ends of the walks in range. */
  lemma ReachIsWalks(hops: seq<Hop>, src: int, min: nat, max: nat, node: int)
    requires min <= 1 && min <= max
    ensures ReachReturns(hops, src, min, max, node) <==> WalkInRange(hops, src, min, max, node)
  {
    if ReachReturns(hops, src, min, max, node) {
      ReachedByWalk(hops, src, min, max, node);
    }
    if WalkInRange(hops, src, min, max, node) {
      WalkIsReached(hops, src, min, max, node);
    }
  }

  // ---------------------------------------------------------------- from walks to trails

  /** Two steps over one edge: cut what lies between them. */
  lemma CutLoop(hops: seq<Hop>, src: int, steps: seq<Hop>, node: int, i: nat, j: nat) returns (cut: seq<Hop>)
    requires Walk(hops, src, steps, node) && i < j < |steps| && steps[i] == steps[j]
    ensures Walk(hops, src, cut, node) && 1 <= |cut| < |steps|
  {
    WalkSplit(hops, src, steps, node, i);
    WalkSplit(hops, src, steps, node, j);
    cut := steps[..i] + steps[j..];
    WalkJoin(hops, src, steps[..i], steps[i].src, steps[j..], node);
  }

  /** Two steps over one edge in opposite directions: the second undoes the first. */
  lemma CutBackTrack(hops: seq<Hop>, src: int, steps: seq<Hop>, node: int, i: nat, j: nat) returns (cut: seq<Hop>)
    requires Walk(hops, src, steps, node) && i < j < |steps|
    requires steps[i].src == steps[j].nbr
    ensures Walk(hops, src, cut, node) && |cut| < |steps|
  {
    WalkSplit(hops, src, steps, node, i);
    WalkSplit(hops, src, steps, node, j + 1);
    cut := steps[..i] + steps[j + 1..];
    WalkJoin(hops, src, steps[..i], steps[i].src, steps[j + 1..], node);
  }

  lemma {:induction false} WalkStepsInHops(hops: seq<Hop>, src: int, steps: seq<Hop>, node: int, i: nat)
    requires Walk(hops, src, steps, node) && i < |steps|
    ensures steps[i] in hops
  {
    WalkSplit(hops, src, steps, node, i);
  }

  /** In one direction an edge is one entry. */
  lemma OneWayEntry(edges: seq<Edge>, dir: Dir, g: Hop, h: Hop)
    requires IdsDistinct(edges) && dir != Both
    requires g in Hops(edges, dir) && h in Hops(edges, dir) && g.eid == h.eid
    ensures g == h
  {
  }

  /** In both directions it is an entry and its reverse. */
  lemma TwoWayEntry(edges: seq<Edge>, g: Hop, h: Hop)
    requires IdsDistinct(edges)
    requires g in Hops(edges, Both) && h in Hops(edges, Both) && g.eid == h.eid
    ensures g == h || (g.src == h.nbr && g.nbr == h.src)
  {
  }

  /** Every walk that leaves the start has a trail to the same node that is no longer. */
  lemma {:induction false} ShortenToTrail(edges: seq<Edge>, dir: Dir, src: int, steps: seq<Hop>, node: int)
      returns (trail: seq<Hop>)
    requires IdsDistinct(edges)
    requires Walk(Hops(edges, dir), src, steps, node) && |steps| >= 1
    requires dir != Both || node != src || |steps| == 1
    ensures Trail(Hops(edges, dir), src, trail, node) && 1 <= |trail| <= |steps|
    decreases |steps|
  {
    var hops := Hops(edges, dir);
    if NoDup(Eids(steps)) {
      trail := steps;
    } else {
      var i, j :| 0 <= i < j < |steps| && Eids(steps)[i] == Eids(steps)[j];
      WalkStepsInHops(hops, src, steps, node, i);
      WalkStepsInHops(hops, src, steps, node, j);
      if dir != Both {
        OneWayEntry(edges, dir, steps[i], steps[j]);
      } else {
        TwoWayEntry(edges, steps[i], steps[j]);
      }
      var cut;
      if steps[i] == steps[j] {
        cut := CutLoop(hops, src, steps, node, i, j);
      } else {
        cut := CutBackTrack(hops, src, steps, node, i, j);
      }
      trail := ShortenToTrail(edges, dir, src, cut, node);
    }
  }

  // ---------------------------------------------------------------- the guard

  /** The hops on which the rewrite is safe. */
  predicate RewriteSafe(dir: Dir, min: nat, max: nat)
  {
    max < min || (min <= 1 && (dir != Both || min == 0 || max < 2))
  }

  lemma TrailsInRange(hops: seq<Hop>, src: int, min: nat, max: nat, node: int)
    ensures VlpReturns(hops, src, min, max, node) <==>
      exists steps :: Trail(hops, src, steps, node) && min <= |steps| <= max
  {
    if VlpReturns(hops, src, min, max, node) {
      var k: nat, path :| min <= k <= max && TrailRow(node, path) in TrailRows(hops, src, k);
      var steps := RowIsTrail(hops, src, k, TrailRow(node, path));
    }
    if steps :| Trail(hops, src, steps, node) && min <= |steps| <= max {
      TrailIsRow(hops, src, steps, node);
    }
  }

  lemma SafeRewriteAgrees(edges: seq<Edge>, dir: Dir, src: int, min: nat, max: nat, node: int)
    requires IdsDistinct(edges) && RewriteSafe(dir, min, max)
    ensures VlpReturns(Hops(edges, dir), src, min, max, node) <==> ReachReturns(Hops(edges, dir), src, min, max, node)
  {
    var hops := Hops(edges, dir);
    TrailsInRange(hops, src, min, max, node);
    if min <= max {
      ReachIsWalks(hops, src, min, max, node);
    }
    if min <= max && WalkInRange(hops, src, min, max, node) {
      var steps :| Walk(hops, src, steps, node) && min <= |steps| <= max;
      if steps == [] || (min == 0 && node == src) {
        assert Trail(hops, src, [], node);
      } else {
        var trail := ShortenToTrail(edges, dir, src, steps, node);
      }
    }
  }

  /** `min` loops at one node: a trail crosses them all, the search stops at the first. */
  function Loops(n: nat): (edges: seq<Edge>)
    ensures |edges| == n && forall i :: 0 <= i < n ==> edges[i] == Edge(i, 0, 0)
  {
    seq(n, i requires 0 <= i < n => Edge(i, 0, 0))
  }

  lemma {:induction false} LoopsWalk(hops: seq<Hop>, n: nat) returns (steps: seq<Hop>)
    requires forall i :: 0 <= i < n ==> Hop(0, 0, i) in hops
    ensures Trail(hops, 0, steps, 0) && |steps| == n && forall i :: 0 <= i < n ==> steps[i].eid == i
  {
    if n == 0 {
      steps := [];
    } else {
      var before := LoopsWalk(hops, n - 1);
      steps := before + [Hop(0, 0, n - 1)];
      assert steps[..n - 1] == before;
    }
  }

  lemma LongMinimumFails(dir: Dir, min: nat, max: nat)
    requires 2 <= min <= max
    ensures IdsDistinct(Loops(min))
    ensures VlpReturns(Hops(Loops(min), dir), 0, min, max, 0)
    ensures !ReachReturns(Hops(Loops(min), dir), 0, min, max, 0)
  {
    var hops := Hops(Loops(min), dir);
    forall i | 0 <= i < min ensures Hop(0, 0, i) in hops {
      assert Loops(min)[i] in Loops(min);
    }
    var steps := LoopsWalk(hops, min);
    TrailIsRow(hops, 0, steps, 0);
    assert Successors(hops, {0}) <= {0};
    assert Layer(hops, 0, 0) == Seen(hops, 0, 0) == {0};
    assert Layer(hops, 0, 1) == {};
    forall d: nat ensures !Emits(hops, 0, min, max, 0, d) {
      if d >= 2 {
        EmptyLayers(hops, 0, 1, d);
        EmptyLayers(hops, 0, 1, d - 1);
      }
    }
  }

  function OneEdge(): seq<Edge>
  {
    [Edge(0, 0, 1)]
  }

  /** A trail over a single edge crosses it once and ends at the other side. */
  lemma OneEdgeTrail(hops: seq<Hop>, steps: seq<Hop>, node: int)
    requires forall h :: h in hops <==> h == Hop(0, 1, 0) || h == Hop(1, 0, 0)
    requires Trail(hops, 0, steps, node) && |steps| >= 1
    ensures node == 1
  {
    var n := |steps| - 1;
    WalkSplit(hops, 0, steps, node, 0);
    WalkSplit(hops, 0, steps, node, n);
    assert Eids(steps)[0] == Eids(steps)[n];
  }

  /** One undirected edge: `og_reach` goes out and back over it, a trail cannot. */
  lemma UndirectedFails(max: nat)
    requires max >= 2
    ensures IdsDistinct(OneEdge())
    ensures !VlpReturns(Hops(OneEdge(), Both), 0, 1, max, 0)
    ensures ReachReturns(Hops(OneEdge(), Both), 0, 1, max, 0)
  {
    var hops := Hops(OneEdge(), Both);
    assert forall h :: h in hops <==> h == Hop(0, 1, 0) || h == Hop(1, 0, 0);
    TrailsInRange(hops, 0, 1, max, 0);
    forall steps | Trail(hops, 0, steps, 0) ensures |steps| == 0 {
      if steps != [] {
        OneEdgeTrail(hops, steps, 0);
      }
    }
    assert Layer(hops, 0, 0) == Seen(hops, 0, 0) == {0};
    assert Successors(hops, {0}) == {1} by { assert Hop(0, 1, 0) in hops; }
    assert Layer(hops, 0, 1) == {1};
    assert 0 in Successors(hops, {1}) by { assert Hop(1, 0, 0) in hops; }
    assert ComesBack(hops, 0, 2) && !ComesBack(hops, 0, 1);
    assert !CameBack(hops, 0, 1, 2);
    assert Emits(hops, 0, 1, max, 0, 2);
  }

  /** The rewrite keeps the set of nodes on every graph exactly under `RewriteSafe`. */
  lemma RewriteSafeIsExact(dir: Dir, min: nat, max: nat)
    ensures RewriteSafe(dir, min, max) <==>
      forall edges, src, node | IdsDistinct(edges) ::
        VlpReturns(Hops(edges, dir), src, min, max, node) <==> ReachReturns(Hops(edges, dir), src, min, max, node)
  {
    if RewriteSafe(dir, min, max) {
      forall edges, src, node | IdsDistinct(edges)
        ensures VlpReturns(Hops(edges, dir), src, min, max, node) <==> ReachReturns(Hops(edges, dir), src, min, max, node)
      {
        SafeRewriteAgrees(edges, dir, src, min, max, node);
      }
    } else if min >= 2 {
      LongMinimumFails(dir, min, max);
    } else {
      UndirectedFails(max);
    }
  }

  /** What an undirected rewrite adds is the start node and nothing else. */
  lemma UndirectedDiffersOnlyAtStart(edges: seq<Edge>, src: int, max: nat, node: int)
    requires IdsDistinct(edges) && 1 <= max && node != src
    ensures VlpReturns(Hops(edges, Both), src, 1, max, node) <==> ReachReturns(Hops(edges, Both), src, 1, max, node)
  {
    var hops := Hops(edges, Both);
    TrailsInRange(hops, src, 1, max, node);
    ReachIsWalks(hops, src, 1, max, node);
    if WalkInRange(hops, src, 1, max, node) {
      var steps :| Walk(hops, src, steps, node) && 1 <= |steps| <= max;
      var trail := ShortenToTrail(edges, Both, src, steps, node);
    }
  }
}
