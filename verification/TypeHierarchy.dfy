/** The inheritance relation of one graph, and what it means for one type to be below another. */
module TypeHierarchy {
  import opened Sequences

  /** A row of `og_catalog.type_parent`. */
  datatype ParentRow = ParentRow(child: int, parent: int)

  /** What `load_dag` builds: the types of the graph, the parent rows of those types, and the
      children of each type in the order `assign` visits them. */
  datatype Catalog = Catalog(types: seq<int>, rows: seq<ParentRow>, kids: map<int, seq<int>>) {

    /** Both tables have primary keys, and the query joins the child to the graph's types.
        Nothing says that a parent belongs to the graph. */
    ghost predicate Valid()
    {
      && NoDup(types)
      && NoDup(rows)
      && (forall r :: r in rows ==> r.child in types)
      && (forall t :: t in types ==> t in kids)
      && (forall t {:trigger Loaded(t)} :: t in types ==> Loaded(t))
    }

    ghost predicate Loaded(t: int)
    {
      t in kids && kids[t] == Ascending(ChildrenOf(rows, t))
    }
  }

  /** `load_dag`, with each child list already sorted. */
  function Load(types: seq<int>, rows: seq<ParentRow>): (cat: Catalog)
    requires NoDup(types) && NoDup(rows) && forall r :: r in rows ==> r.child in types
    ensures cat.Valid() && cat.types == types && cat.rows == rows
  {
    Catalog(types, rows, map t | t in types :: Ascending(ChildrenOf(rows, t)))
  }

  function ChildrenOf(rows: seq<ParentRow>, id: int): (kids: seq<int>)
    ensures forall c :: c in kids <==> ParentRow(c, id) in rows
  {
    if rows == [] then []
    else if rows[0].parent == id then [rows[0].child] + ChildrenOf(rows[1..], id)
    else ChildrenOf(rows[1..], id)
  }

  predicate HasParent(rows: seq<ParentRow>, id: int)
  {
    exists i :: 0 <= i < |rows| && rows[i].child == id
  }

  /** Types with no parent row, in catalog order. */
  function Rootless(types: seq<int>, rows: seq<ParentRow>): (roots: seq<int>)
    ensures forall t :: t in roots <==> t in types && !HasParent(rows, t)
  {
    if types == [] then []
    else if HasParent(rows, types[0]) then Rootless(types[1..], rows)
    else [types[0]] + Rootless(types[1..], rows)
  }

  function Roots(cat: Catalog): seq<int>
  {
    Ascending(Rootless(cat.types, cat.rows))
  }

  lemma {:induction false} ChildrenNoDup(rows: seq<ParentRow>, id: int)
    requires NoDup(rows)
    ensures NoDup(ChildrenOf(rows, id))
  {
    if rows != [] {
      ChildrenNoDup(rows[1..], id);
      assert rows[0] !in rows[1..];
      if rows[0].parent == id {
        assert rows[0].child !in ChildrenOf(rows[1..], id);
      }
    }
  }

  lemma {:induction false} RootlessNoDup(types: seq<int>, rows: seq<ParentRow>)
    requires NoDup(types)
    ensures NoDup(Rootless(types, rows))
  {
    if types != [] {
      RootlessNoDup(types[1..], rows);
      assert types[0] !in types[1..];
    }
  }

  /** The loaded child list of a type is its parent rows, each once. */
  lemma KidsAreChildren(cat: Catalog, id: int)
    requires cat.Valid() && id in cat.types
    ensures NoDup(cat.kids[id])
    ensures forall c :: c in cat.kids[id] <==> ParentRow(c, id) in cat.rows
    ensures forall c :: c in cat.kids[id] ==> c in cat.types
    ensures |cat.kids[id]| == |ChildrenOf(cat.rows, id)|
  {
    assert cat.Loaded(id);
    ChildrenNoDup(cat.rows, id);
    AscendingKeeps(ChildrenOf(cat.rows, id));
  }

  lemma RootsAreRoots(cat: Catalog)
    requires cat.Valid()
    ensures NoDup(Roots(cat))
    ensures forall t :: t in Roots(cat) <==> IsRoot(cat, t)
  {
    RootlessNoDup(cat.types, cat.rows);
    AscendingKeeps(Rootless(cat.types, cat.rows));
  }

  ghost predicate IsRoot(cat: Catalog, t: int)
  {
    t in cat.types && !HasParent(cat.rows, t)
  }

  // ---------------------------------------------------------------- chains

  /** The step of `path` at `i` goes from a type to one of its children. */
  ghost predicate Step(cat: Catalog, path: seq<int>, i: nat)
    requires i + 1 < |path|
  {
    ParentRow(path[i + 1], path[i]) in cat.rows
  }

  /** A downward walk along parent rows. */
  ghost predicate Chain(cat: Catalog, path: seq<int>)
  {
    && |path| > 0
    && path[0] in cat.types
    && forall i: nat :: i + 1 < |path| ==> Step(cat, path, i)
  }

  ghost predicate RootPath(cat: Catalog, path: seq<int>)
  {
    Chain(cat, path) && IsRoot(cat, path[0])
  }

  /** `x` is `y`, or `y` is reached from `x` by following parent rows. */
  ghost predicate Below(cat: Catalog, x: int, y: int)
  {
    exists path :: Chain(cat, path) && path[0] == y && Last(path) == x
  }

  ghost predicate Rooted(cat: Catalog, t: int)
  {
    exists path :: RootPath(cat, path) && Last(path) == t
  }

  /** No type is strictly below itself. */
  ghost predicate Acyclic(cat: Catalog)
  {
    forall path :: Chain(cat, path) && |path| > 1 ==> path[0] != Last(path)
  }

  lemma ChainInTypes(cat: Catalog, path: seq<int>)
    requires cat.Valid() && Chain(cat, path)
    ensures forall i :: 0 <= i < |path| ==> path[i] in cat.types
  {
    forall i | 0 < i < |path| ensures path[i] in cat.types {
      assert Step(cat, path, i - 1);
    }
  }

  lemma ChainSlice(cat: Catalog, path: seq<int>, lo: nat, hi: nat)
    requires cat.Valid() && Chain(cat, path) && lo < hi <= |path|
    ensures Chain(cat, path[lo..hi])
  {
    ChainInTypes(cat, path);
    var s := path[lo..hi];
    forall i: nat | i + 1 < |s| ensures Step(cat, s, i) {
      assert Step(cat, path, lo + i);
    }
  }

  /** Gluing two chains that meet: the second starts where the first ends. */
  lemma ChainJoin(cat: Catalog, p: seq<int>, q: seq<int>)
    requires Chain(cat, p) && Chain(cat, q) && Last(p) == q[0]
    ensures Chain(cat, p + q[1..]) && Last(p + q[1..]) == Last(q)
  {
    var s := p + q[1..];
    forall i: nat | i + 1 < |s| ensures Step(cat, s, i) {
      if i + 1 < |p| {
        assert Step(cat, p, i);
      } else {
        assert Step(cat, q, i + 1 - |p|);
      }
    }
  }

  lemma BelowTransitive(cat: Catalog, x: int, y: int, z: int)
    requires Below(cat, x, y) && Below(cat, y, z)
    ensures Below(cat, x, z)
  {
    var q :| Chain(cat, q) && q[0] == y && Last(q) == x;
    var p :| Chain(cat, p) && p[0] == z && Last(p) == y;
    ChainJoin(cat, p, q);
    assert (p + q[1..])[0] == z;
  }

  lemma BelowReflexive(cat: Catalog, x: int)
    requires x in cat.types
    ensures Below(cat, x, x)
  {
    assert Chain(cat, [x]) && [x][0] == x && Last([x]) == x;
  }

  /** In an acyclic hierarchy no chain visits a type twice. */
  lemma AcyclicChainNoDup(cat: Catalog, path: seq<int>)
    requires cat.Valid() && Acyclic(cat) && Chain(cat, path)
    ensures NoDup(path)
  {
    forall i, j | 0 <= i < j < |path| ensures path[i] != path[j] {
      var s := path[i..j + 1];
      ChainSlice(cat, path, i, j + 1);
      assert s[0] == path[i] && Last(s) == path[j];
    }
  }

  // ---------------------------------------------------------------- closed hierarchies

  /** Every parent belongs to the graph. */
  ghost predicate Closed(cat: Catalog)
  {
    forall r :: r in cat.rows ==> r.parent in cat.types
  }

  /** Climbing from `path[0]` must end at a root: a longer and longer chain without
      repetition cannot stay inside a finite set of types. */
  lemma {:induction false} RootAbove(cat: Catalog, path: seq<int>) returns (full: seq<int>)
    requires cat.Valid() && Closed(cat) && Acyclic(cat)
    requires Chain(cat, path)
    ensures RootPath(cat, full) && Last(full) == Last(path)
    decreases set t | t in cat.types && t !in path
  {
    if IsRoot(cat, path[0]) {
      full := path;
    } else {
      var i :| 0 <= i < |cat.rows| && cat.rows[i].child == path[0];
      var p := cat.rows[i].parent;
      assert cat.rows[i] in cat.rows && cat.rows[i] == ParentRow(path[0], p);
      var longer := [p] + path;
      assert Chain(cat, [p, path[0]]);
      ChainJoin(cat, [p, path[0]], path);
      assert longer == [p, path[0]] + path[1..];
      AcyclicChainNoDup(cat, longer);
      assert p !in path by {
        assert forall k :: 0 <= k < |path| ==> path[k] == longer[k + 1] != longer[0];
      }
      var before := set t | t in cat.types && t !in path;
      var after := set t | t in cat.types && t !in longer;
      assert p in before && p !in after && after <= before by {
        assert p == longer[0];
        assert forall k :: 0 <= k < |path| ==> path[k] == longer[k + 1];
      }
      full := RootAbove(cat, longer);
    }
  }

  lemma ClosedAcyclicIsRooted(cat: Catalog)
    requires cat.Valid() && Closed(cat) && Acyclic(cat)
    ensures forall t :: t in cat.types ==> Rooted(cat, t)
  {
    forall t | t in cat.types ensures Rooted(cat, t) {
      assert Chain(cat, [t]);
      var full := RootAbove(cat, [t]);
    }
  }
}
