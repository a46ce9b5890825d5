/** Resolving a Cypher label set to one type: what the answer means in the hierarchy. */
module LabelSets {
  import opened Sequences
  import opened TypeHierarchy
  import opened IntervalLabels
  import opened Labeling

  datatype LabelMatch = Any | Type(id: int) | Nothing

  /** `c` is a subtype of every id of the list. */
  predicate BelowAll(table: seq<Label>, ids: seq<int>, c: int)
  {
    forall k :: 0 <= k < |ids| ==> c == ids[k] || IsSubtype(table, c, ids[k])
  }

  /** The first id that is a subtype of all the others. */
  function MostSpecific(table: seq<Label>, ids: seq<int>, from: nat): LabelMatch
    requires from <= |ids|
    decreases |ids| - from
  {
    if from == |ids| then Nothing
    else if BelowAll(table, ids, ids[from]) then Type(ids[from])
    else MostSpecific(table, ids, from + 1)
  }

  predicate Known(names: map<string, int>, labels: seq<string>)
  {
    forall i :: 0 <= i < |labels| ==> labels[i] in names
  }

  function IdsOf(names: map<string, int>, labels: seq<string>): (ids: seq<int>)
    requires Known(names, labels)
    ensures |ids| == |labels| && forall i :: 0 <= i < |labels| ==> ids[i] == names[labels[i]]
  {
    seq(|labels|, i requires 0 <= i < |labels| => names[labels[i]])
  }

  function Resolve(names: map<string, int>, table: seq<Label>, labels: seq<string>): LabelMatch
  {
    if labels == [] then Any
    else if !Known(names, labels) then Nothing
    else MostSpecific(table, IdsOf(names, labels), 0)
  }

  /** `resolve_label_set`: ids are collected until a label is unknown, then the most specific is found. */
  method ResolveLabelSet(names: map<string, int>, table: seq<Label>, labels: seq<string>) returns (m: LabelMatch)
    ensures m == Resolve(names, table, labels)
  {
    if labels == [] {
      return Any;
    }
    var ids := [];
    for i := 0 to |labels|
      invariant |ids| == i
      invariant forall k :: 0 <= k < i ==> labels[k] in names && ids[k] == names[labels[k]]
    {
      if labels[i] !in names {
        return Nothing;
      }
      ids := ids + [names[labels[i]]];
    }
    assert ids == IdsOf(names, labels);
    for k := 0 to |ids|
      invariant MostSpecific(table, ids, 0) == MostSpecific(table, ids, k)
    {
      if BelowAll(table, ids, ids[k]) {
        return Type(ids[k]);
      }
    }
    m := Nothing;
  }

  // ---------------------------------------------------------------- meaning

  /** `names` is the type table of the graph: it names types of the hierarchy. */
  ghost predicate Names(names: map<string, int>, cat: Catalog)
  {
    forall l :: l in names ==> names[l] in cat.types
  }

  /** A node of type `x` carries every label of the set. */
  ghost predicate Satisfies(cat: Catalog, names: map<string, int>, labels: seq<string>, x: int)
  {
    x in cat.types && forall l :: l in labels ==> l in names && Below(cat, x, names[l])
  }

  /** The label table answers subtype questions about this hierarchy. */
  ghost predicate Indexes(table: seq<Label>, cat: Catalog)
  {
    forall x, y :: IsSubtype(table, x, y) <==> Below(cat, x, y)
  }

  /** What `relabel_graph` leaves behind is such a table. */
  lemma RelabelledTableIndexes(cat: Catalog)
    requires cat.Valid() && Labellable(cat)
    ensures Forest(cat).Walk? && Indexes(LabelsOf(Forest(cat).visits), cat)
  {
    SubtypeIsReachability(cat);
  }

  lemma {:induction false} MostSpecificFound(table: seq<Label>, ids: seq<int>, from: nat)
    requires from <= |ids|
    ensures var m := MostSpecific(table, ids, from);
      && m != Any
      && (m.Type? ==> m.id in ids && BelowAll(table, ids, m.id))
      && (m.Nothing? ==> forall k :: from <= k < |ids| ==> !BelowAll(table, ids, ids[k]))
    decreases |ids| - from
  {
    if from < |ids| && !BelowAll(table, ids, ids[from]) {
      MostSpecificFound(table, ids, from + 1);
    }
  }

  /** A resolved type stands for its label set: the nodes that carry all the labels are
      exactly the nodes of its subtypes. */
  lemma TypeMatchIsExact(cat: Catalog, table: seq<Label>, names: map<string, int>, labels: seq<string>, x: int)
    requires cat.Valid() && Indexes(table, cat) && Names(names, cat)
    requires Resolve(names, table, labels).Type?
    ensures Satisfies(cat, names, labels, x) <==> Below(cat, x, Resolve(names, table, labels).id)
  {
    var t := Resolve(names, table, labels).id;
    var ids := IdsOf(names, labels);
    MostSpecificFound(table, ids, 0);
    if Satisfies(cat, names, labels, x) {
      var k :| 0 <= k < |ids| && ids[k] == t;
      assert labels[k] in labels;
    }
    if Below(cat, x, t) {
      BelowInTypes(cat, x, t);
      forall l | l in labels ensures l in names && Below(cat, x, names[l]) {
        var k :| 0 <= k < |labels| && labels[k] == l;
        assert t == ids[k] || IsSubtype(table, t, ids[k]);
        if t != ids[k] {
          BelowTransitive(cat, x, t, ids[k]);
        }
      }
    }
  }

  /** `Any` is right: it is the answer to the empty set alone, and every type of the graph carries all of no labels. */
  lemma AnyIsRight(cat: Catalog, table: seq<Label>, names: map<string, int>, labels: seq<string>, x: int)
    requires cat.Valid() && Indexes(table, cat) && Names(names, cat) && Resolve(names, table, labels) == Any
    ensures labels == [] && (Satisfies(cat, names, labels, x) <==> x in cat.types)
  {
    if labels != [] && Known(names, labels) {
      MostSpecificFound(table, IdsOf(names, labels), 0);
    }
  }

  /** A label that names no type resolves to `Nothing`, and no type carries it. */
  lemma UnknownIsNothing(cat: Catalog, table: seq<Label>, names: map<string, int>, labels: seq<string>, l: string, x: int)
    requires l in labels && l !in names
    ensures Resolve(names, table, labels) == Nothing && !Satisfies(cat, names, labels, x)
  {
    var i :| 0 <= i < |labels| && labels[i] == l;
    assert !Known(names, labels);
  }

  lemma CarrierIsFound(cat: Catalog, table: seq<Label>, names: map<string, int>, labels: seq<string>, l: string)
    requires Indexes(table, cat) && Known(names, labels) && l in labels && l in names
    requires Satisfies(cat, names, labels, names[l])
    ensures Resolve(names, table, labels).Type?
  {
    var ids := IdsOf(names, labels);
    MostSpecificFound(table, ids, 0);
    var k :| 0 <= k < |labels| && labels[k] == l;
    assert forall i :: 0 <= i < |labels| ==> labels[i] in labels;
    assert BelowAll(table, ids, ids[k]);
  }

  /** What the answer is: a type exactly if the type of one of the labels carries them all, and then it is such a type;
      `Any` exactly for no labels; `Nothing` for the rest. */
  lemma ResolveExactly(cat: Catalog, table: seq<Label>, names: map<string, int>, labels: seq<string>)
    requires cat.Valid() && Indexes(table, cat) && Names(names, cat)
    ensures var m := Resolve(names, table, labels);
      && (m == Any <==> labels == [])
      && (m.Type? <==> exists l :: l in labels && l in names && Satisfies(cat, names, labels, names[l]))
      && (m.Type? ==> Satisfies(cat, names, labels, m.id) && exists l :: l in labels && l in names && names[l] == m.id)
  {
    if labels == [] {
    } else if !Known(names, labels) {
      var i :| 0 <= i < |labels| && labels[i] !in names;
      assert labels[i] in labels;
    } else {
      var ids, m := IdsOf(names, labels), Resolve(names, table, labels);
      MostSpecificFound(table, ids, 0);
      if m.Type? {
        var k :| 0 <= k < |ids| && ids[k] == m.id;
        assert labels[k] in labels && labels[k] in names;
        BelowReflexive(cat, m.id);
        TypeMatchIsExact(cat, table, names, labels, m.id);
      }
      forall l | l in labels && Satisfies(cat, names, labels, names[l]) ensures m.Type? {
        CarrierIsFound(cat, table, names, labels, l);
      }
    }
  }

  // ---------------------------------------------------------------- "matches nothing"

  /** The types above any one type form a chain. */
  ghost predicate SingleLine(cat: Catalog)
  {
    forall x, a, b :: Below(cat, x, a) && Below(cat, x, b) ==> Below(cat, a, b) || Below(cat, b, a)
  }

  /** Among types above a common subtype, in a single-line hierarchy, one is below all the others. */
  lemma {:induction false} LeastOfLine(cat: Catalog, ids: seq<int>, x: int) returns (k: nat)
    requires cat.Valid() && SingleLine(cat) && |ids| > 0
    requires forall i :: 0 <= i < |ids| ==> Below(cat, x, ids[i])
    ensures k < |ids| && forall i :: 0 <= i < |ids| ==> Below(cat, ids[k], ids[i])
  {
    var n := |ids| - 1;
    BelowInTypes(cat, x, ids[n]);
    BelowReflexive(cat, ids[n]);
    if n == 0 {
      k := 0;
    } else {
      k := LeastOfLine(cat, ids[..n], x);
      assert forall i :: 0 <= i < n ==> ids[..n][i] == ids[i];
      if !Below(cat, ids[k], ids[n]) {
        assert Below(cat, ids[n], ids[k]);
        forall i | 0 <= i < n ensures Below(cat, ids[n], ids[i]) {
          BelowTransitive(cat, ids[n], ids[k], ids[..n][i]);
        }
        k := n;
      }
    }
  }

  lemma LeastIsBelowAll(cat: Catalog, table: seq<Label>, ids: seq<int>, x: int) returns (k: nat)
    requires cat.Valid() && SingleLine(cat) && Indexes(table, cat) && |ids| > 0
    requires forall i :: 0 <= i < |ids| ==> Below(cat, x, ids[i])
    ensures k < |ids| && BelowAll(table, ids, ids[k])
  {
    k := LeastOfLine(cat, ids, x);
  }

  /** In a single-line hierarchy an answer of `Nothing` is right: no type carries all the labels. */
  lemma NothingIsRight(cat: Catalog, table: seq<Label>, names: map<string, int>, labels: seq<string>, x: int)
    requires cat.Valid() && Indexes(table, cat) && Names(names, cat) && SingleLine(cat)
    requires Resolve(names, table, labels) == Nothing
    ensures !Satisfies(cat, names, labels, x)
  {
    if labels != [] && Known(names, labels) {
      var ids := IdsOf(names, labels);
      MostSpecificFound(table, ids, 0);
      if forall i :: 0 <= i < |ids| ==> Below(cat, x, ids[i]) {
        var k := LeastIsBelowAll(cat, table, ids, x);
        assert false;
      } else {
        var i :| 0 <= i < |ids| && !Below(cat, x, ids[i]);
        assert labels[i] in labels;
      }
    }
  }

  /** Two unrelated types with a common subtype: their label set resolves to `Nothing`,
      yet the common subtype carries both labels. */
  lemma NothingIsWrong(cat: Catalog, table: seq<Label>, names: map<string, int>, la: string, lb: string, x: int)
    requires cat.Valid() && Indexes(table, cat) && Names(names, cat) && la in names && lb in names
    requires Below(cat, x, names[la]) && Below(cat, x, names[lb])
    requires !Below(cat, names[la], names[lb]) && !Below(cat, names[lb], names[la])
    ensures Resolve(names, table, [la, lb]) == Nothing
    ensures Satisfies(cat, names, [la, lb], x)
  {
    var ids := IdsOf(names, [la, lb]);
    BelowInTypes(cat, x, names[la]);
    assert !BelowAll(table, ids, ids[0]) by { assert ids[0] != ids[1] by { BelowReflexive(cat, ids[0]); } }
    assert !BelowAll(table, ids, ids[1]) by { assert ids[0] != ids[1] by { BelowReflexive(cat, ids[0]); } }
    MostSpecificFound(table, ids, 0);
  }

  /** `Nothing` can be trusted, for every label set, exactly in single-line hierarchies. */
  lemma NothingIffSingleLine(cat: Catalog, table: seq<Label>, names: map<string, int>)
    requires cat.Valid() && Indexes(table, cat) && Names(names, cat)
    requires forall t :: t in cat.types ==> exists l :: l in names && names[l] == t
    ensures SingleLine(cat) <==>
      forall labels, x | Resolve(names, table, labels) == Nothing :: !Satisfies(cat, names, labels, x)
  {
    if SingleLine(cat) {
      forall labels, x | Resolve(names, table, labels) == Nothing ensures !Satisfies(cat, names, labels, x) {
        NothingIsRight(cat, table, names, labels, x);
      }
    } else {
      var x, a, b :| Below(cat, x, a) && Below(cat, x, b) && !Below(cat, a, b) && !Below(cat, b, a);
      BelowInTypes(cat, x, a);
      BelowInTypes(cat, x, b);
      var la :| la in names && names[la] == a;
      var lb :| lb in names && names[lb] == b;
      NothingIsWrong(cat, table, names, la, lb, x);
    }
  }

  // ---------------------------------------------------------------- single inheritance

  ghost predicate SingleInheritance(cat: Catalog)
  {
    forall r, s :: r in cat.rows && s in cat.rows && r.child == s.child ==> r.parent == s.parent
  }

  /** With one parent per type, two chains that end together agree going up. */
  lemma {:induction false} ChainsAgree(cat: Catalog, p: seq<int>, q: seq<int>, k: nat)
    requires SingleInheritance(cat) && Chain(cat, p) && Chain(cat, q) && Last(p) == Last(q)
    requires k < |p| && k < |q|
    ensures p[|p| - 1 - k] == q[|q| - 1 - k]
  {
    if k > 0 {
      ChainsAgree(cat, p, q, k - 1);
      assert Step(cat, p, |p| - 1 - k) && Step(cat, q, |q| - 1 - k);
    }
  }

  lemma SingleInheritanceIsSingleLine(cat: Catalog)
    requires cat.Valid() && SingleInheritance(cat)
    ensures SingleLine(cat)
  {
    forall x, a, b | Below(cat, x, a) && Below(cat, x, b) ensures Below(cat, a, b) || Below(cat, b, a) {
      var p :| Chain(cat, p) && p[0] == a && Last(p) == x;
      var q :| Chain(cat, q) && q[0] == b && Last(q) == x;
      if |p| <= |q| {
        ShorterIsBelow(cat, p, q);
      } else {
        ShorterIsBelow(cat, q, p);
      }
    }
  }

  lemma ShorterIsBelow(cat: Catalog, p: seq<int>, q: seq<int>)
    requires cat.Valid() && SingleInheritance(cat) && Chain(cat, p) && Chain(cat, q) && Last(p) == Last(q)
    requires |p| <= |q|
    ensures Below(cat, p[0], q[0])
  {
    var cut := |q| - |p| + 1;
    ChainsAgree(cat, p, q, |p| - 1);
    ChainSlice(cat, q, 0, cut);
    assert q[0..cut][0] == q[0] && Last(q[0..cut]) == p[0];
  }

  /** A diamond shows that single inheritance matters: types 1 and 2 are unrelated, 3 is below both. */
  lemma DiamondResolvesToNothing(table: seq<Label>)
    requires Indexes(table, Diamond())
    ensures Resolve(map["A" := 1, "B" := 2, "C" := 3], table, ["A", "B"]) == Nothing
    ensures Satisfies(Diamond(), map["A" := 1, "B" := 2, "C" := 3], ["A", "B"], 3)
  {
    DiamondBelow(Diamond());
    NothingIsWrong(Diamond(), table, map["A" := 1, "B" := 2, "C" := 3], "A", "B", 3);
  }

  function Diamond(): (cat: Catalog)
    ensures cat.Valid()
  {
    Load([1, 2, 3], [ParentRow(3, 1), ParentRow(3, 2)])
  }

  lemma DiamondBelow(cat: Catalog)
    requires cat.types == [1, 2, 3] && cat.rows == [ParentRow(3, 1), ParentRow(3, 2)]
    ensures Below(cat, 3, 1) && Below(cat, 3, 2) && !Below(cat, 1, 2) && !Below(cat, 2, 1)
  {
    assert cat.rows[0] in cat.rows && cat.rows[1] in cat.rows;
    assert Chain(cat, [1, 3]) && [1, 3][0] == 1 && Last([1, 3]) == 3;
    assert Chain(cat, [2, 3]) && [2, 3][0] == 2 && Last([2, 3]) == 3;
    forall path | Chain(cat, path) && |path| > 1 ensures Last(path) == 3 {
      assert Step(cat, path, |path| - 2);
    }
  }
}
