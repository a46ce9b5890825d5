/**
 The depth-first unfolding behind the interval index, as a function, and the
 facts that make a range comparison answer a hierarchy question.
 */
module IntervalLabels {
  import opened Sequences
  import opened TypeHierarchy

  const GAP := 1024

  /** One call of `assign`: the stack it ran under with its own id on top, and the interval it wrote. */
  datatype Visit = Visit(path: seq<int>, lft: int, rgt: int)

  datatype Walk = Cycle(at: int) | Walk(visits: seq<Visit>, cursor: int)

  /** The types not on the stack: what bounds the depth of the recursion. */
  function Free(cat: Catalog, stack: seq<int>): set<int>
  {
    set t | t in cat.types && t !in stack
  }

  lemma FreeShrinks(cat: Catalog, stack: seq<int>, id: int)
    requires id in cat.types && id !in stack
    ensures Free(cat, stack + [id]) < Free(cat, stack)
  {
    assert id in stack + [id];
    assert id in Free(cat, stack) && id !in Free(cat, stack + [id]);
  }

  /** `assign` for one type. */
  function Assign(cat: Catalog, id: int, stack: seq<int>, cursor: int): Walk
    requires cat.Valid() && id in cat.types
    decreases Free(cat, stack), 0, 0
  {
    if id in stack then Cycle(id)
    else
      KidsAreChildren(cat, id);
      FreeShrinks(cat, stack, id);
      match AssignAll(cat, cat.kids[id], stack + [id], cursor + GAP)
      case Cycle(at) => Cycle(at)
      case Walk(below, c) => Walk(below + [Visit(stack + [id], cursor, c)], c + GAP)
  }

  /** `assign` for each type of a list, threading the cursor. */
  function AssignAll(cat: Catalog, ids: seq<int>, stack: seq<int>, cursor: int): Walk
    requires cat.Valid() && forall c :: c in ids ==> c in cat.types
    decreases Free(cat, stack), 1, |ids|
  {
    if ids == [] then Walk([], cursor)
    else
      match Assign(cat, ids[0], stack, cursor)
      case Cycle(at) => Cycle(at)
      case Walk(first, c) =>
        match AssignAll(cat, ids[1..], stack, c)
        case Cycle(at) => Cycle(at)
        case Walk(others, c') => Walk(first + others, c')
  }

  /** What `relabel_graph` assigns once its reachability check has passed. */
  function Forest(cat: Catalog): Walk
    requires cat.Valid()
  {
    RootsAreRoots(cat);
    AssignAll(cat, Roots(cat), [], 1)
  }

  // ---------------------------------------------------------------- ranges

  /** A visit lies in a stretch of labels, and its path continues the stack. */
  ghost predicate FitsIn(v: Visit, stack: seq<int>, from: int, to: int)
  {
    && from <= v.lft < v.rgt <= to - GAP
    && stack < v.path
  }

  ghost predicate InStretch(visits: seq<Visit>, stack: seq<int>, from: int, to: int)
  {
    forall i :: 0 <= i < |visits| ==> FitsIn(visits[i], stack, from, to)
  }

  /** Every visit of a walk lies in the stretch of labels the walk consumed, above its stack. */
  lemma {:induction false} AssignStretch(cat: Catalog, id: int, stack: seq<int>, cursor: int)
    requires cat.Valid() && id in cat.types
    requires Assign(cat, id, stack, cursor).Walk?
    ensures var w := Assign(cat, id, stack, cursor);
      && InStretch(w.visits, stack, cursor, w.cursor)
      && cursor <= w.cursor
      && forall i :: 0 <= i < |w.visits| ==> w.visits[i].path[|stack|] == id
    decreases Free(cat, stack), 0, 0
  {
    KidsAreChildren(cat, id);
    FreeShrinks(cat, stack, id);
    AssignAllStretch(cat, cat.kids[id], stack + [id], cursor + GAP);
    var w, below := Assign(cat, id, stack, cursor), AssignAll(cat, cat.kids[id], stack + [id], cursor + GAP);
    forall i | 0 <= i < |w.visits|
      ensures FitsIn(w.visits[i], stack, cursor, w.cursor) && w.visits[i].path[|stack|] == id
    {
      if i < |below.visits| {
        assert FitsIn(below.visits[i], stack + [id], cursor + GAP, below.cursor);
        assert below.visits[i].path[|stack|] == (stack + [id])[|stack|];
      }
    }
  }

  lemma {:induction false} AssignAllStretch(cat: Catalog, ids: seq<int>, stack: seq<int>, cursor: int)
    requires cat.Valid() && forall c :: c in ids ==> c in cat.types
    requires AssignAll(cat, ids, stack, cursor).Walk?
    ensures var w := AssignAll(cat, ids, stack, cursor);
      && InStretch(w.visits, stack, cursor, w.cursor)
      && cursor <= w.cursor
      && forall i :: 0 <= i < |w.visits| ==> w.visits[i].path[|stack|] in ids
    decreases Free(cat, stack), 1, |ids|
  {
    if ids != [] {
      AssignStretch(cat, ids[0], stack, cursor);
      var first := Assign(cat, ids[0], stack, cursor);
      AssignAllStretch(cat, ids[1..], stack, first.cursor);
      var others := AssignAll(cat, ids[1..], stack, first.cursor);
      var w := AssignAll(cat, ids, stack, cursor);
      forall i | 0 <= i < |w.visits|
        ensures FitsIn(w.visits[i], stack, cursor, w.cursor) && w.visits[i].path[|stack|] in ids
      {
        if i < |first.visits| {
          assert FitsIn(first.visits[i], stack, cursor, first.cursor);
        } else {
          assert FitsIn(others.visits[i - |first.visits|], stack, first.cursor, others.cursor);
          assert others.visits[i - |first.visits|].path[|stack|] in ids[1..];
        }
      }
    }
  }

  // ---------------------------------------------------------------- laminar family

  predicate Within(inner: Visit, outer: Visit)
  {
    outer.lft <= inner.lft && inner.rgt <= outer.rgt
  }

  predicate Apart(u: Visit, v: Visit)
  {
    u.rgt < v.lft || v.rgt < u.lft
  }

  /** One interval contains another exactly when its path is a prefix of the other's;
      intervals whose paths are unrelated do not touch; no path is labelled twice. */
  ghost predicate PairFits(u: Visit, v: Visit)
  {
    && (Within(v, u) <==> u.path <= v.path)
    && (Within(u, v) <==> v.path <= u.path)
    && (u.path <= v.path || v.path <= u.path || Apart(u, v))
    && u.path != v.path
  }

  ghost predicate Laminar(visits: seq<Visit>)
  {
    forall i, j :: 0 <= i < j < |visits| ==> PairFits(visits[i], visits[j])
  }

  lemma {:induction false} AssignLaminar(cat: Catalog, id: int, stack: seq<int>, cursor: int)
    requires cat.Valid() && id in cat.types
    requires Assign(cat, id, stack, cursor).Walk?
    ensures Laminar(Assign(cat, id, stack, cursor).visits)
    decreases Free(cat, stack), 0, 0
  {
    KidsAreChildren(cat, id);
    FreeShrinks(cat, stack, id);
    var below := AssignAll(cat, cat.kids[id], stack + [id], cursor + GAP);
    AssignAllLaminar(cat, cat.kids[id], stack + [id], cursor + GAP);
    AssignAllStretch(cat, cat.kids[id], stack + [id], cursor + GAP);
    var me := Visit(stack + [id], cursor, below.cursor);
    forall i | 0 <= i < |below.visits| ensures PairFits(below.visits[i], me) {
      assert FitsIn(below.visits[i], stack + [id], cursor + GAP, below.cursor);
    }
    LaminarJoin(below.visits, [me]);
  }

  lemma {:induction false} AssignAllLaminar(cat: Catalog, ids: seq<int>, stack: seq<int>, cursor: int)
    requires cat.Valid() && (forall c :: c in ids ==> c in cat.types) && NoDup(ids)
    requires AssignAll(cat, ids, stack, cursor).Walk?
    ensures Laminar(AssignAll(cat, ids, stack, cursor).visits)
    decreases Free(cat, stack), 1, |ids|
  {
    if ids != [] {
      AssignLaminar(cat, ids[0], stack, cursor);
      AssignStretch(cat, ids[0], stack, cursor);
      var first := Assign(cat, ids[0], stack, cursor);
      AssignAllLaminar(cat, ids[1..], stack, first.cursor);
      AssignAllStretch(cat, ids[1..], stack, first.cursor);
      var others := AssignAll(cat, ids[1..], stack, first.cursor);
      forall i, j | 0 <= i < |first.visits| && 0 <= j < |others.visits|
        ensures PairFits(first.visits[i], others.visits[j])
      {
        var u, v := first.visits[i], others.visits[j];
        assert FitsIn(u, stack, cursor, first.cursor) && FitsIn(v, stack, first.cursor, others.cursor);
        assert v.path[|stack|] != ids[0];
      }
      LaminarJoin(first.visits, others.visits);
    }
  }

  lemma LaminarJoin(a: seq<Visit>, b: seq<Visit>)
    requires Laminar(a) && Laminar(b)
    requires forall i, j :: 0 <= i < |a| && 0 <= j < |b| ==> PairFits(a[i], b[j])
    ensures Laminar(a + b)
  {
    var s := a + b;
    forall i, j | 0 <= i < j < |s| ensures PairFits(s[i], s[j]) {
      if j < |a| {
        assert PairFits(a[i], a[j]);
      } else if i < |a| {
        assert PairFits(a[i], b[j - |a|]);
      } else {
        assert PairFits(b[i - |a|], b[j - |a|]);
      }
    }
  }

  // ---------------------------------------------------------------- visits are the chains

  /** The stack is empty or a chain whose last type is the parent of everything in `ids`. */
  ghost predicate Hangs(cat: Catalog, stack: seq<int>, ids: seq<int>)
  {
    stack != [] ==> Chain(cat, stack) && forall c :: c in ids ==> ParentRow(c, Last(stack)) in cat.rows
  }

  lemma HangsChain(cat: Catalog, stack: seq<int>, ids: seq<int>)
    requires Hangs(cat, stack, ids) && forall c :: c in ids ==> c in cat.types
    ensures forall c :: c in ids ==> Chain(cat, stack + [c])
  {
    forall c | c in ids ensures Chain(cat, stack + [c]) {
      var s := stack + [c];
      forall i: nat | i + 1 < |s| ensures Step(cat, s, i) {
        if i + 1 < |stack| {
          assert Step(cat, stack, i);
        }
      }
    }
  }

  /** Every visit is a chain without repetition that continues the stack. */
  lemma {:induction false} AssignVisitsChains(cat: Catalog, id: int, stack: seq<int>, cursor: int)
    requires cat.Valid() && id in cat.types
    requires Assign(cat, id, stack, cursor).Walk?
    requires Chain(cat, stack + [id]) && NoDup(stack)
    ensures forall v :: v in Assign(cat, id, stack, cursor).visits ==> Chain(cat, v.path) && NoDup(v.path)
    decreases Free(cat, stack), 0, 0
  {
    KidsAreChildren(cat, id);
    FreeShrinks(cat, stack, id);
    assert NoDup(stack + [id]);
    AssignAllVisitsChains(cat, cat.kids[id], stack + [id], cursor + GAP);
  }

  lemma {:induction false} AssignAllVisitsChains(cat: Catalog, ids: seq<int>, stack: seq<int>, cursor: int)
    requires cat.Valid() && forall c :: c in ids ==> c in cat.types
    requires AssignAll(cat, ids, stack, cursor).Walk?
    requires NoDup(stack)
    requires Hangs(cat, stack, ids)
    ensures forall v :: v in AssignAll(cat, ids, stack, cursor).visits ==> Chain(cat, v.path) && NoDup(v.path)
    decreases Free(cat, stack), 1, |ids|
  {
    if ids != [] {
      var first := Assign(cat, ids[0], stack, cursor);
      HangsChain(cat, stack, ids);
      AssignVisitsChains(cat, ids[0], stack, cursor);
      AssignAllVisitsChains(cat, ids[1..], stack, first.cursor);
    }
  }

  ghost predicate Visited(visits: seq<Visit>, path: seq<int>)
  {
    exists i :: 0 <= i < |visits| && visits[i].path == path
  }

  lemma VisitedJoin(a: seq<Visit>, b: seq<Visit>, path: seq<int>)
    requires Visited(a, path) || Visited(b, path)
    ensures Visited(a + b, path)
  {
    if Visited(a, path) {
      var i :| 0 <= i < |a| && a[i].path == path;
      assert (a + b)[i].path == path;
    } else {
      var i :| 0 <= i < |b| && b[i].path == path;
      assert (a + b)[|a| + i].path == path;
    }
  }

  /** Every chain that continues the stack through `id` is visited. */
  lemma {:induction false} AssignComplete(cat: Catalog, id: int, stack: seq<int>, cursor: int, path: seq<int>)
    requires cat.Valid() && id in cat.types
    requires Assign(cat, id, stack, cursor).Walk?
    requires Chain(cat, path) && stack + [id] <= path
    ensures Visited(Assign(cat, id, stack, cursor).visits, path)
    decreases Free(cat, stack), 0, 0
  {
    KidsAreChildren(cat, id);
    FreeShrinks(cat, stack, id);
    var here := stack + [id];
    var below := AssignAll(cat, cat.kids[id], here, cursor + GAP);
    var me := [Visit(here, cursor, below.cursor)];
    if path == here {
      assert me[0].path == path;
    } else {
      assert path[|stack|] == here[|stack|] == id;
      assert Step(cat, path, |stack|);
      AssignAllComplete(cat, cat.kids[id], here, cursor + GAP, path);
    }
    VisitedJoin(below.visits, me, path);
  }

  lemma {:induction false} AssignAllComplete(cat: Catalog, ids: seq<int>, stack: seq<int>, cursor: int, path: seq<int>)
    requires cat.Valid() && forall c :: c in ids ==> c in cat.types
    requires AssignAll(cat, ids, stack, cursor).Walk?
    requires Chain(cat, path) && stack < path && path[|stack|] in ids
    ensures Visited(AssignAll(cat, ids, stack, cursor).visits, path)
    decreases Free(cat, stack), 1, |ids|
  {
    var first := Assign(cat, ids[0], stack, cursor);
    var others := AssignAll(cat, ids[1..], stack, first.cursor);
    if path[|stack|] == ids[0] {
      assert path[..|stack| + 1] == stack + [ids[0]];
      AssignComplete(cat, ids[0], stack, cursor, path);
    } else {
      AssignAllComplete(cat, ids[1..], stack, first.cursor, path);
    }
    VisitedJoin(first.visits, others.visits, path);
  }

  lemma MeetsItself(cat: Catalog, round: seq<int>)
    requires Chain(cat, round) && |round| > 1 && round[0] == round[|round| - 1]
    ensures !Acyclic(cat)
  {
    assert round[0] == Last(round);
  }

  /** A reported cycle is a chain from the stack that meets itself. */
  lemma {:induction false} AssignCycle(cat: Catalog, id: int, stack: seq<int>, cursor: int)
    requires cat.Valid() && id in cat.types
    requires Assign(cat, id, stack, cursor).Cycle?
    requires Chain(cat, stack + [id])
    ensures !Acyclic(cat)
    decreases Free(cat, stack), 0, 0
  {
    if id in stack {
      var k :| 0 <= k < |stack| && stack[k] == id;
      var path := stack + [id];
      ChainSlice(cat, path, k, |path|);
      var round := path[k..|path|];
      assert round[0] == path[k] == id && round[|round| - 1] == path[|stack|] == id;
      MeetsItself(cat, round);
    } else {
      KidsAreChildren(cat, id);
      FreeShrinks(cat, stack, id);
      AssignAllCycle(cat, cat.kids[id], stack + [id], cursor + GAP);
    }
  }

  lemma {:induction false} AssignAllCycle(cat: Catalog, ids: seq<int>, stack: seq<int>, cursor: int)
    requires cat.Valid() && forall c :: c in ids ==> c in cat.types
    requires AssignAll(cat, ids, stack, cursor).Cycle?
    requires Hangs(cat, stack, ids)
    ensures !Acyclic(cat)
    decreases Free(cat, stack), 1, |ids|
  {
    var first := Assign(cat, ids[0], stack, cursor);
    if first.Cycle? {
      HangsChain(cat, stack, ids);
      AssignCycle(cat, ids[0], stack, cursor);
    } else {
      AssignAllCycle(cat, ids[1..], stack, first.cursor);
    }
  }

  // ---------------------------------------------------------------- the forest

  lemma ForestLaminar(cat: Catalog)
    requires cat.Valid() && Forest(cat).Walk?
    ensures Laminar(Forest(cat).visits)
  {
    RootsAreRoots(cat);
    AssignAllLaminar(cat, Roots(cat), [], 1);
  }

  /** Every label belongs to a root path. */
  lemma VisitIsRootPath(cat: Catalog, i: nat)
    requires cat.Valid() && Forest(cat).Walk? && i < |Forest(cat).visits|
    ensures var v := Forest(cat).visits[i];
      RootPath(cat, v.path) && NoDup(v.path) && 1 <= v.lft < v.rgt
  {
    RootsAreRoots(cat);
    AssignAllStretch(cat, Roots(cat), [], 1);
    AssignAllVisitsChains(cat, Roots(cat), [], 1);
    var visits := Forest(cat).visits;
    assert visits[i] in visits;
    assert FitsIn(visits[i], [], 1, Forest(cat).cursor);
  }

  /** Every root path has a label. */
  lemma RootPathVisited(cat: Catalog, path: seq<int>) returns (i: nat)
    requires cat.Valid() && Forest(cat).Walk? && RootPath(cat, path)
    ensures i < |Forest(cat).visits| && Forest(cat).visits[i].path == path
  {
    RootsAreRoots(cat);
    assert [] < path;
    AssignAllComplete(cat, Roots(cat), [], 1, path);
    i :| 0 <= i < |Forest(cat).visits| && Forest(cat).visits[i].path == path;
  }

  /** Interval containment is the prefix order on root paths. */
  lemma NestedIffPrefix(cat: Catalog, outer: nat, inner: nat)
    requires cat.Valid() && Forest(cat).Walk?
    requires outer < |Forest(cat).visits| && inner < |Forest(cat).visits|
    ensures var u, v := Forest(cat).visits[outer], Forest(cat).visits[inner];
      Within(v, u) <==> u.path <= v.path
  {
    var visits := Forest(cat).visits;
    ForestLaminar(cat);
    if outer < inner {
      assert PairFits(visits[outer], visits[inner]);
    } else if inner < outer {
      assert PairFits(visits[inner], visits[outer]);
    }
  }

  lemma ForestExcludesLoop(cat: Catalog, loop: seq<int>)
    requires cat.Valid() && Forest(cat).Walk?
    requires Chain(cat, loop) && |loop| > 1 && Rooted(cat, loop[0])
    ensures loop[0] != Last(loop)
  {
    var p :| RootPath(cat, p) && Last(p) == loop[0];
    var path := p + loop[1..];
    ChainJoin(cat, p, loop);
    assert path[0] == p[0];
    var i := RootPathVisited(cat, path);
    VisitIsRootPath(cat, i);
    assert path[|p| - 1] == loop[0] && path[|path| - 1] == Last(loop);
  }

  /** When every type hangs below a root, the unfolding succeeds exactly on acyclic hierarchies. */
  lemma ForestIffAcyclic(cat: Catalog)
    requires cat.Valid()
    requires forall t :: t in cat.types ==> Rooted(cat, t)
    ensures Forest(cat).Walk? <==> Acyclic(cat)
  {
    RootsAreRoots(cat);
    if Forest(cat).Cycle? {
      AssignAllCycle(cat, Roots(cat), [], 1);
    } else {
      forall loop | Chain(cat, loop) && |loop| > 1 ensures loop[0] != Last(loop) {
        ForestExcludesLoop(cat, loop);
      }
    }
  }
}
