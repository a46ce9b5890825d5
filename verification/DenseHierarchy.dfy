/** Hierarchies with a parent row for every pair of types: acyclic, and in the end too many rows for the guard. */
module DenseHierarchy {
  import opened Sequences
  import opened TypeHierarchy
  import opened Labeling

  /** Type `c` below each of `0..k`. */
  function RowsOf(c: int, k: nat): (rows: seq<ParentRow>)
    ensures |rows| == k
    ensures forall r :: r in rows <==> r.child == c && 0 <= r.parent < k
  {
    if k == 0 then [] else RowsOf(c, k - 1) + [ParentRow(c, k - 1)]
  }

  function DenseRows(n: nat): (rows: seq<ParentRow>)
    ensures forall r :: r in rows <==> 0 <= r.parent < r.child < n
  {
    if n == 0 then [] else DenseRows(n - 1) + RowsOf(n - 1, n - 1)
  }

  function Types(n: nat): (types: seq<int>)
    ensures forall t :: t in types <==> 0 <= t < n
    ensures |types| == n
  {
    if n == 0 then [] else Types(n - 1) + [n - 1]
  }

  /** `n` types, each below every smaller one. */
  function Dense(n: nat): Catalog
  {
    TypesNoDup(n);
    DenseNoDup(n);
    Load(Types(n), DenseRows(n))
  }

  lemma {:induction false} RowsOfNoDup(c: int, k: nat)
    ensures NoDup(RowsOf(c, k))
  {
    if k > 0 {
      RowsOfNoDup(c, k - 1);
      var before := RowsOf(c, k - 1);
      assert forall i :: 0 <= i < |before| ==> before[i] in before;
    }
  }

  lemma {:induction false} TypesNoDup(n: nat)
    ensures NoDup(Types(n))
  {
    if n > 0 {
      TypesNoDup(n - 1);
      var before := Types(n - 1);
      assert forall i :: 0 <= i < |before| ==> before[i] in before;
    }
  }

  lemma {:induction false} DenseNoDup(n: nat)
    ensures NoDup(DenseRows(n))
  {
    if n > 0 {
      DenseNoDup(n - 1);
      RowsOfNoDup(n - 1, n - 1);
      var a, b := DenseRows(n - 1), RowsOf(n - 1, n - 1);
      assert forall i :: 0 <= i < |a| ==> a[i] in a;
      assert forall j :: 0 <= j < |b| ==> b[j] in b;
    }
  }

  lemma {:induction false} DenseSize(n: nat)
    ensures 2 * |DenseRows(n)| == n * (n - 1)
  {
    if n > 0 {
      DenseSize(n - 1);
      assert n * (n - 1) == (n - 1) * (n - 2) + 2 * (n - 1);
    }
  }

  lemma StepRises(cat: Catalog, n: nat, path: seq<int>, i: nat)
    requires cat.rows == DenseRows(n) && i + 1 < |path| && Step(cat, path, i)
    ensures path[i] < path[i + 1]
  {
  }

  /** Every step down goes to a larger type. */
  lemma {:induction false} ChainRises(cat: Catalog, n: nat, path: seq<int>, k: nat)
    requires cat.rows == DenseRows(n) && Chain(cat, path) && 0 < k < |path|
    ensures path[0] < path[k]
  {
    StepRises(cat, n, path, k - 1);
    if k > 1 {
      ChainRises(cat, n, path, k - 1);
    }
  }

  lemma RootIsZero(n: nat, t: int)
    requires n > 0
    ensures t in Types(n) && !HasParent(DenseRows(n), t) <==> t == 0
  {
    var rows := DenseRows(n);
    assert forall i :: 0 <= i < |rows| ==> rows[i] in rows;
    if 0 < t < n {
      assert ParentRow(t, 0) in rows;
      var i :| 0 <= i < |rows| && rows[i] == ParentRow(t, 0);
    }
  }

  lemma OnlyZero(s: seq<int>)
    requires NoDup(s) && forall t :: t in s <==> t == 0
    ensures |s| == 1
  {
    NoDupByCount(s);
    forall x ensures multiset(s)[x] == multiset{0}[x] {
      assert x in s <==> x in multiset(s);
    }
    assert multiset(s) == multiset{0};
    assert |multiset(s)| == |s|;
  }

  lemma OneRoot(cat: Catalog, n: nat)
    requires n > 0 && cat.Valid() && cat.types == Types(n) && cat.rows == DenseRows(n)
    ensures |Roots(cat)| == 1
  {
    RootsAreRoots(cat);
    forall t ensures t in Roots(cat) <==> t == 0 {
      RootIsZero(n, t);
      assert t in Roots(cat) <==> IsRoot(cat, t);
    }
    OnlyZero(Roots(cat));
  }

  lemma DenseFits(n: nat)
    requires n > 0
    ensures 2 + n * (n - 1) <= 128 * n <==> n <= 128
  {
    if n <= 128 {
      assert n * (n - 1) <= n * 127;
    } else {
      assert n * (n - 1) >= n * 128;
    }
  }

  /** The guard refuses acyclic hierarchies: with a row for every pair, all those of more than 128 types. */
  lemma DenseLabellable(n: nat)
    ensures Dense(n).Valid() && Closed(Dense(n)) && Acyclic(Dense(n))
    ensures Labellable(Dense(n)) <==> n <= 128
  {
    var cat := Dense(n);
    forall path | Chain(cat, path) && |path| > 1 ensures path[0] != Last(path) {
      ChainRises(cat, n, path, |path| - 1);
    }
    LabellableIffAcyclic(cat);
    if n > 0 {
      DenseSize(n);
      OneRoot(cat, n);
      DenseFits(n);
    } else {
      assert Roots(cat) == [];
    }
  }
}
