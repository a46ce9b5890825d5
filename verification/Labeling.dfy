/** `relabel_graph` and the subtype queries over the label table. */
module Labeling {
  import opened Sequences
  import opened TypeHierarchy
  import opened IntervalLabels

  /** A row of `og_catalog.type_label`, without its graph id.  Integers are unbounded here; the source keeps `lft` and
      `rgt` in 64 bits and path ids in 32. */
  datatype Label = Label(typeId: int, pathId: int, lft: int, rgt: int, depth: int)

  // ---------------------------------------------------------------- rows of a walk

  ghost predicate Pathed(visits: seq<Visit>)
  {
    forall i :: 0 <= i < |visits| ==> |visits[i].path| > 0
  }

  ghost function TypeOf(v: Visit): int
  {
    if |v.path| > 0 then Last(v.path) else 0
  }

  /** How many visits ended in type `t`. */
  ghost function CountType(visits: seq<Visit>, t: int): nat
  {
    if visits == [] then 0
    else
      var n := |visits| - 1;
      CountType(visits[..n], t) + if TypeOf(visits[n]) == t then 1 else 0
  }

  ghost function LabelFor(earlier: seq<Visit>, v: Visit): Label
  {
    Label(TypeOf(v), CountType(earlier, TypeOf(v)), v.lft, v.rgt, |v.path| - 1)
  }

  /** The rows written for a walk: path ids count the earlier rows of the same type. */
  ghost function LabelsOf(visits: seq<Visit>): (labels: seq<Label>)
    ensures |labels| == |visits|
  {
    if visits == [] then []
    else
      var n := |visits| - 1;
      LabelsOf(visits[..n]) + [LabelFor(visits[..n], visits[n])]
  }

  lemma {:induction false} LabelAt(visits: seq<Visit>, i: nat)
    requires i < |visits|
    ensures LabelsOf(visits)[i] == LabelFor(visits[..i], visits[i])
  {
    var n := |visits| - 1;
    if i < n {
      LabelAt(visits[..n], i);
      assert visits[..n][..i] == visits[..i];
    }
  }

  lemma {:induction false} CountGrows(visits: seq<Visit>, i: nat, j: nat)
    requires i < j <= |visits|
    ensures CountType(visits[..i], TypeOf(visits[i])) < CountType(visits[..j], TypeOf(visits[i]))
  {
    assert visits[..j][..j - 1] == visits[..j - 1];
    if i < j - 1 {
      CountGrows(visits, i, j - 1);
    }
  }

  /** `(type_id, path_id)` is a key of the rows written. */
  lemma LabelsKeyed(visits: seq<Visit>, i: nat, j: nat)
    requires i < j < |visits|
    ensures (LabelsOf(visits)[i].typeId, LabelsOf(visits)[i].pathId) != (LabelsOf(visits)[j].typeId, LabelsOf(visits)[j].pathId)
  {
    LabelAt(visits, i);
    LabelAt(visits, j);
    CountGrows(visits, i, j);
  }

  // ---------------------------------------------------------------- assign

  /** A walk that has already produced `first`. */
  ghost function After(first: seq<Visit>, w: Walk): Walk
  {
    if w.Cycle? then w else Walk(first + w.visits, w.cursor)
  }

  lemma AfterAfter(a: seq<Visit>, b: seq<Visit>, w: Walk)
    ensures After(a, After(b, w)) == After(a + b, w)
  {
    if w.Walk? {
      assert a + (b + w.visits) == (a + b) + w.visits;
    }
  }

  /** One turn of the loop over a list of types. */
  lemma AssignAllTurn(cat: Catalog, ids: seq<int>, i: nat, stack: seq<int>, cursor: int, made: seq<Visit>)
    requires cat.Valid() && (forall c :: c in ids ==> c in cat.types) && i < |ids|
    ensures var first := IntervalLabels.Assign(cat, ids[i], stack, cursor);
      var all := After(made, IntervalLabels.AssignAll(cat, ids[i..], stack, cursor));
      if first.Cycle? then all.Cycle?
      else all == After(made + first.visits, IntervalLabels.AssignAll(cat, ids[i + 1..], stack, first.cursor))
  {
    var first := IntervalLabels.Assign(cat, ids[i], stack, cursor);
    assert ids[i..][0] == ids[i] && ids[i..][1..] == ids[i + 1..];
    if first.Walk? {
      AfterAfter(made, first.visits, IntervalLabels.AssignAll(cat, ids[i + 1..], stack, first.cursor));
    }
  }

  lemma AssignAllDone(cat: Catalog, ids: seq<int>, stack: seq<int>, cursor: int, made: seq<Visit>)
    requires cat.Valid() && ids == []
    ensures After(made, IntervalLabels.AssignAll(cat, ids, stack, cursor)) == Walk(made, cursor)
  {
    assert made + [] == made;
  }

  /** One call of `assign`, in terms of the loop over the children. */
  lemma AssignUnfolds(cat: Catalog, id: int, stack: seq<int>, cursor: int)
    requires cat.Valid() && id in cat.types && id !in stack && forall c :: c in cat.kids[id] ==> c in cat.types
    ensures var w, below := IntervalLabels.Assign(cat, id, stack, cursor),
                            IntervalLabels.AssignAll(cat, cat.kids[id], stack + [id], cursor + GAP);
      && w.Walk? == below.Walk?
      && (w.Walk? ==> w == Walk(below.visits + [Visit(stack + [id], cursor, below.cursor)], below.cursor + GAP))
  {
  }

  /** The mutable state `relabel_graph` threads through `assign`. */
  class Labeler {
    var cursor: int
    var pathCounter: map<int, int>
    var out: seq<Label>
    var stack: seq<int>
    ghost var visits: seq<Visit>

    ghost predicate Valid()
      reads this
    {
      && Pathed(visits)
      && out == LabelsOf(visits)
      && forall t :: CountType(visits, t) == if t in pathCounter then pathCounter[t] else 0
    }

    constructor ()
      ensures Valid() && cursor == 1 && stack == [] && visits == []
    {
      cursor, pathCounter, out, stack, visits := 1, map[], [], [], [];
    }

    /** Returns false where the source raises the cycle error. */
    method Assign(cat: Catalog, id: int, depth: int) returns (ok: bool)
      requires Valid() && cat.Valid() && id in cat.types
      requires depth == |stack|
      modifies this
      ensures ok <==> IntervalLabels.Assign(cat, id, old(stack), old(cursor)).Walk?
      ensures ok ==>
        var w := IntervalLabels.Assign(cat, id, old(stack), old(cursor));
        Valid() && stack == old(stack) && cursor == w.cursor && visits == old(visits) + w.visits
      decreases Free(cat, stack), 0, 1
    {
      if id in stack {
        return false;
      }
      KidsAreChildren(cat, id);
      AssignUnfolds(cat, id, stack, cursor);
      ghost var below := IntervalLabels.AssignAll(cat, cat.kids[id], stack + [id], cursor + GAP);
      var lft := cursor;
      ok := AssignBelow(cat, id, depth);
      if ok {
        Assoc(old(visits), below.visits, [Visit(stack, lft, cursor)]);
        Leave(id, lft, depth);
        assert stack == old(stack);
      }
    }

    /** Claim the right label of the type on top of the stack, and pop it. */
    method Leave(id: int, lft: int, depth: int)
      requires Valid() && |stack| > 0 && Last(stack) == id && depth == |stack| - 1
      modifies this
      ensures Valid() && stack == old(stack[..|stack| - 1]) && cursor == old(cursor) + GAP
      ensures visits == old(visits) + [Visit(old(stack), lft, old(cursor))]
    {
      var rgt := cursor;
      cursor := cursor + GAP;
      Emit(id, lft, rgt, depth);
      stack := stack[..|stack| - 1];
    }

    /** Push `id`, claim its left label and visit its children. */
    method AssignBelow(cat: Catalog, id: int, depth: int) returns (ok: bool)
      requires Valid() && cat.Valid() && id in cat.types && id !in stack
      requires depth == |stack| && forall c :: c in cat.kids[id] ==> c in cat.types
      modifies this
      ensures ok <==> IntervalLabels.AssignAll(cat, cat.kids[id], old(stack) + [id], old(cursor) + GAP).Walk?
      ensures ok ==>
        var w := IntervalLabels.AssignAll(cat, cat.kids[id], old(stack) + [id], old(cursor) + GAP);
        Valid() && stack == old(stack) + [id] && cursor == w.cursor && visits == old(visits) + w.visits
      decreases Free(cat, stack), 0, 0
    {
      FreeShrinks(cat, stack, id);
      stack := stack + [id];
      cursor := cursor + GAP;
      ok := AssignEach(cat, cat.kids[id], depth + 1);
    }

    /** Push the label of the type on top of the stack, under its next path id. */
    method Emit(id: int, lft: int, rgt: int, depth: int)
      requires Valid() && |stack| > 0 && Last(stack) == id && depth == |stack| - 1
      modifies this
      ensures Valid() && stack == old(stack) && cursor == old(cursor)
      ensures visits == old(visits) + [Visit(stack, lft, rgt)]
    {
      var pathId := if id in pathCounter then pathCounter[id] else 0;
      ghost var me := Visit(stack, lft, rgt);
      out := out + [Label(id, pathId, lft, rgt, depth)];
      pathCounter := pathCounter[id := pathId + 1];
      assert (visits + [me])[..|visits|] == visits;
      visits := visits + [me];
    }

    /** The loop over a list of types, at the current stack. */
    method AssignEach(cat: Catalog, ids: seq<int>, depth: int) returns (ok: bool)
      requires Valid() && cat.Valid() && forall c :: c in ids ==> c in cat.types
      requires depth == |stack|
      modifies this
      ensures ok <==> IntervalLabels.AssignAll(cat, ids, old(stack), old(cursor)).Walk?
      ensures ok ==>
        var w := IntervalLabels.AssignAll(cat, ids, old(stack), old(cursor));
        Valid() && stack == old(stack) && cursor == w.cursor && visits == old(visits) + w.visits
      decreases Free(cat, stack), 1, 0
    {
      var i := 0;
      ghost var made := [];
      ghost var start, whole := visits, IntervalLabels.AssignAll(cat, ids, stack, cursor);
      assert ids[0..] == ids;
      while i < |ids|
        invariant 0 <= i <= |ids|
        invariant Valid() && stack == old(stack) && visits == start + made
        invariant whole == After(made, IntervalLabels.AssignAll(cat, ids[i..], stack, cursor))
      {
        ghost var first := IntervalLabels.Assign(cat, ids[i], stack, cursor);
        AssignAllTurn(cat, ids, i, stack, cursor, made);
        ok := Assign(cat, ids[i], depth);
        if !ok {
          return;
        }
        Assoc(start, made, first.visits);
        made := made + first.visits;
        i := i + 1;
      }
      AssignAllDone(cat, ids[i..], stack, cursor, made);
      ok := true;
    }
  }

  // ---------------------------------------------------------------- the reachability check

  /** Rows whose parent is among `parents`. */
  ghost function RowsUnder(rows: seq<ParentRow>, parents: set<int>): nat
  {
    if rows == [] then 0
    else RowsUnder(rows[1..], parents) + if rows[0].parent in parents then 1 else 0
  }

  lemma {:induction false} RowsUnderAdd(rows: seq<ParentRow>, parents: set<int>, id: int)
    requires id !in parents
    ensures RowsUnder(rows, parents + {id}) == RowsUnder(rows, parents) + |ChildrenOf(rows, id)|
  {
    if rows != [] {
      RowsUnderAdd(rows[1..], parents, id);
    }
  }

  lemma {:induction false} RowsUnderMonotone(rows: seq<ParentRow>, a: set<int>, b: set<int>)
    requires a <= b
    ensures RowsUnder(rows, a) <= RowsUnder(rows, b)
  {
    if rows != [] {
      RowsUnderMonotone(rows[1..], a, b);
    }
  }

  ghost function RootedSet(cat: Catalog): set<int>
  {
    set t | t in cat.types && Rooted(cat, t)
  }

  /** How often the queue is popped when the loop runs to its end. */
  ghost function Pops(cat: Catalog): nat
  {
    |Roots(cat)| + RowsUnder(cat.rows, RootedSet(cat))
  }

  lemma RootedStep(cat: Catalog, id: int, kid: int)
    requires cat.Valid() && Rooted(cat, id) && ParentRow(kid, id) in cat.rows
    ensures Rooted(cat, kid)
  {
    var p :| RootPath(cat, p) && Last(p) == id;
    assert Hangs(cat, p, [kid]);
    HangsChain(cat, p, [kid]);
    assert (p + [kid])[0] == p[0] && Last(p + [kid]) == kid;
  }

  /** What has been reached and what is queued account for everything pushed so far. */
  ghost predicate Swept(cat: Catalog, reachable: set<int>, queue: seq<int>)
  {
    && reachable <= RootedSet(cat)
    && (forall t :: t in queue ==> t in RootedSet(cat))
    && (forall t :: t in Roots(cat) ==> t in reachable || t in queue)
    && (forall id, kid :: id in reachable && ParentRow(kid, id) in cat.rows ==> kid in reachable || kid in queue)
  }

  /** Nothing is left to queue. */
  ghost predicate Saturated(cat: Catalog, reachable: set<int>)
  {
    && (forall t :: t in Roots(cat) ==> t in reachable)
    && (forall id, kid :: id in reachable && ParentRow(kid, id) in cat.rows ==> kid in reachable)
  }

  lemma SweptDone(cat: Catalog, reachable: set<int>)
    requires cat.Valid() && Swept(cat, reachable, [])
    ensures reachable == RootedSet(cat)
  {
    assert Saturated(cat, reachable);
    forall t | t in RootedSet(cat) ensures t in reachable {
      SaturatedReaches(cat, reachable, t);
    }
  }

  lemma SaturatedReaches(cat: Catalog, reachable: set<int>, t: int)
    requires cat.Valid() && Saturated(cat, reachable) && Rooted(cat, t)
    ensures t in reachable
  {
    var p :| RootPath(cat, p) && Last(p) == t;
    SaturatedAlong(cat, reachable, p, |p| - 1);
  }

  lemma {:induction false} SaturatedAlong(cat: Catalog, reachable: set<int>, p: seq<int>, k: nat)
    requires cat.Valid() && Saturated(cat, reachable) && RootPath(cat, p) && k < |p|
    ensures p[k] in reachable
  {
    if k == 0 {
      RootsAreRoots(cat);
    } else {
      SaturatedAlong(cat, reachable, p, k - 1);
      assert Step(cat, p, k - 1);
    }
  }

  lemma SweptPop(cat: Catalog, reachable: set<int>, queue: seq<int>, id: int, kids: seq<int>)
    requires cat.Valid() && Swept(cat, reachable, queue + [id])
    requires forall c :: c in kids <==> ParentRow(c, id) in cat.rows
    ensures id in reachable ==> Swept(cat, reachable, queue)
    ensures id !in reachable ==> Swept(cat, reachable + {id}, queue + kids)
  {
    assert id in queue + [id];
    forall kid | kid in kids ensures kid in RootedSet(cat) {
      RootedStep(cat, id, kid);
    }
    assert forall t :: t in queue ==> t in queue + [id] && t in queue + kids;
    assert forall t :: t in kids ==> t in queue + kids;
  }

  /** Everything the loop keeps: the sweep, and a guard that counts pops. */
  ghost predicate Sweeping(cat: Catalog, reachable: set<int>, queue: seq<int>, guard: nat)
  {
    && Swept(cat, reachable, queue)
    && guard + |queue| == |Roots(cat)| + RowsUnder(cat.rows, reachable)
    && guard <= 64 * |cat.types|
  }

  lemma SweepStart(cat: Catalog)
    requires cat.Valid()
    ensures Sweeping(cat, {}, Roots(cat), 0)
  {
    RootsAreRoots(cat);
    RowsUnderNone(cat.rows);
    forall t | t in Roots(cat) ensures t in RootedSet(cat) {
      assert RootPath(cat, [t]) && Last([t]) == t;
    }
  }

  lemma SweepPop(cat: Catalog, reachable: set<int>, queue: seq<int>, id: int, guard: nat)
    requires cat.Valid() && Sweeping(cat, reachable, queue + [id], guard) && id in cat.types
    ensures guard + 1 > 64 * |cat.types| ==> Pops(cat) > 64 * |cat.types|
    ensures guard + 1 <= 64 * |cat.types| && id in reachable ==> Sweeping(cat, reachable, queue, guard + 1)
    ensures guard + 1 <= 64 * |cat.types| && id !in reachable ==>
      Sweeping(cat, reachable + {id}, queue + cat.kids[id], guard + 1)
    ensures id in RootedSet(cat)
  {
    KidsAreChildren(cat, id);
    SweptPop(cat, reachable, queue, id, cat.kids[id]);
    assert id in queue + [id];
    assert |queue + [id]| == |queue| + 1;
    RowsUnderMonotone(cat.rows, reachable, RootedSet(cat));
    if id !in reachable {
      RowsUnderAdd(cat.rows, reachable, id);
      KidsAreChildren(cat, id);
    }
  }

  lemma SweepEnd(cat: Catalog, reachable: set<int>, guard: nat)
    requires cat.Valid() && Sweeping(cat, reachable, [], guard)
    ensures reachable == RootedSet(cat) && Pops(cat) <= 64 * |cat.types|
  {
    SweptDone(cat, reachable);
  }

  lemma SweepQueued(cat: Catalog, reachable: set<int>, queue: seq<int>, guard: nat)
    requires Sweeping(cat, reachable, queue, guard) && queue != []
    ensures queue[|queue| - 1] in RootedSet(cat) && queue[|queue| - 1] in cat.types
  {
    var id := queue[|queue| - 1];
    assert id in queue;
    assert id in RootedSet(cat);
  }

  /** One turn of the loop. */
  lemma SweepTurn(cat: Catalog, reachable: set<int>, queue: seq<int>, rest: seq<int>, id: int, guard: nat)
    requires cat.Valid() && Sweeping(cat, reachable, queue, guard) && queue != []
    requires id == queue[|queue| - 1] && rest == queue[..|queue| - 1]
    ensures id in RootedSet(cat) && id in cat.types
    ensures guard + 1 > 64 * |cat.types| ==> Pops(cat) > 64 * |cat.types|
    ensures guard + 1 <= 64 * |cat.types| && id in reachable ==> Sweeping(cat, reachable, rest, guard + 1)
    ensures guard + 1 <= 64 * |cat.types| && id !in reachable ==>
      Sweeping(cat, reachable + {id}, rest + cat.kids[id], guard + 1)
  {
    SweepQueued(cat, reachable, queue, guard);
    assert queue == rest + [id];
    SweepPop(cat, reachable, rest, id, guard);
  }

  lemma LeftToReach(all: set<int>, some: set<int>, id: int)
    requires id in all && id !in some
    ensures all - (some + {id}) < all - some
  {
    assert id in all - some && id !in all - (some + {id});
    assert all - (some + {id}) <= all - some;
  }

  /** The queue loop.  `tripped` is the guard's error; otherwise every type below a root was found. */
  method FindReachable(cat: Catalog) returns (tripped: bool, reachable: set<int>)
    requires cat.Valid()
    ensures tripped <==> Pops(cat) > 64 * |cat.types|
    ensures !tripped ==> reachable == RootedSet(cat)
  {
    reachable := {};
    var queue := Roots(cat);
    var guard := 0;
    SweepStart(cat);
    while queue != []
      invariant Sweeping(cat, reachable, queue, guard)
      decreases RootedSet(cat) - reachable, |queue|
    {
      var id, rest := queue[|queue| - 1], queue[..|queue| - 1];
      SweepTurn(cat, reachable, queue, rest, id, guard);
      guard := guard + 1;
      if guard > 64 * |cat.types| {
        return true, reachable;
      }
      queue := rest;
      if id !in reachable {
        LeftToReach(RootedSet(cat), reachable, id);
        reachable := reachable + {id};
        queue := queue + cat.kids[id];
      }
    }
    SweepEnd(cat, reachable, guard);
    tripped := false;
  }

  lemma {:induction false} RowsUnderNone(rows: seq<ParentRow>)
    ensures RowsUnder(rows, {}) == 0
  {
    if rows != [] {
      RowsUnderNone(rows[1..]);
    }
  }

  // ---------------------------------------------------------------- relabel

  /** Exactly the hierarchies `relabel_graph` accepts. */
  ghost predicate Labellable(cat: Catalog)
  {
    && (forall t :: t in cat.types ==> Rooted(cat, t))
    && Acyclic(cat)
    && Pops(cat) <= 64 * |cat.types|
  }

  /** The label table of one graph. */
  class LabelTable {
    var labels: seq<Label>

    constructor ()
      ensures labels == []
    {
      labels := [];
    }

    /** `relabel_graph`: on an error the transaction keeps the old labels; with no types it returns at once. */
    method Relabel(cat: Catalog) returns (ok: bool)
      requires cat.Valid()
      modifies this
      ensures cat.types == [] ==> ok && labels == old(labels)
      ensures cat.types != [] ==> (ok <==> Labellable(cat))
      ensures !ok ==> labels == old(labels)
      ensures cat.types != [] && ok ==> Forest(cat).Walk? && labels == LabelsOf(Forest(cat).visits)
    {
      if cat.types == [] {
        return true;
      }
      var checked := Check(cat);
      if !checked {
        return false;
      }
      ForestIffAcyclic(cat);
      var out;
      ok, out := Unfold(cat);
      if ok {
        labels := out;
      }
    }
  }

  /** The two errors `relabel_graph` can raise before it assigns anything.  The reached types are
      types, so `reachable.len() != dag.len()` says that some type was missed. */
  method Check(cat: Catalog) returns (ok: bool)
    requires cat.Valid()
    ensures ok <==> (forall t :: t in cat.types ==> Rooted(cat, t)) && Pops(cat) <= 64 * |cat.types|
  {
    var tripped, reachable := FindReachable(cat);
    ok := !tripped && forall i :: 0 <= i < |cat.types| ==> cat.types[i] in reachable;
  }

  method Unfold(cat: Catalog) returns (ok: bool, out: seq<Label>)
    requires cat.Valid()
    ensures ok <==> Forest(cat).Walk?
    ensures ok ==> out == LabelsOf(Forest(cat).visits)
  {
    RootsAreRoots(cat);
    var labeler := new Labeler();
    ok := labeler.AssignEach(cat, Roots(cat), 0);
    if ok {
      assert [] + Forest(cat).visits == Forest(cat).visits;
    }
    out := labeler.out;
  }

  // ---------------------------------------------------------------- the queries

  predicate Contains(outer: Label, inner: Label)
  {
    outer.lft <= inner.lft && inner.rgt <= outer.rgt
  }

  /** `og_is_subtype`. */
  predicate IsSubtype(labels: seq<Label>, sub: int, sup: int)
  {
    exists i, j ::
      && 0 <= i < |labels| && labels[i].typeId == sub
      && 0 <= j < |labels| && labels[j].typeId == sup
      && Contains(labels[j], labels[i])
  }

  /** `og_subtypes`. */
  function Subtypes(labels: seq<Label>, t: int): set<int>
  {
    set i, j | 0 <= i < |labels| && 0 <= j < |labels| && labels[j].typeId == t && Contains(labels[j], labels[i])
      :: labels[i].typeId
  }

  /** `og_supertypes`. */
  function Supertypes(labels: seq<Label>, t: int): set<int>
  {
    set i, j | 0 <= i < |labels| && 0 <= j < |labels| && labels[i].typeId == t && Contains(labels[j], labels[i])
      :: labels[j].typeId
  }

  /** A label row says what its visit said. */
  lemma LabelMirrorsVisit(visits: seq<Visit>, i: nat)
    requires i < |visits|
    ensures LabelsOf(visits)[i].typeId == TypeOf(visits[i])
    ensures LabelsOf(visits)[i].lft == visits[i].lft && LabelsOf(visits)[i].rgt == visits[i].rgt
  {
    LabelAt(visits, i);
  }

  /** A range hit is a chain between the two types. */
  lemma SubtypeSound(cat: Catalog, x: int, y: int)
    requires cat.Valid() && Forest(cat).Walk?
    requires IsSubtype(LabelsOf(Forest(cat).visits), x, y)
    ensures Below(cat, x, y)
  {
    var visits := Forest(cat).visits;
    var labels := LabelsOf(visits);
    var i, j :| 0 <= i < |labels| && labels[i].typeId == x && 0 <= j < |labels| && labels[j].typeId == y
      && Contains(labels[j], labels[i]);
    LabelMirrorsVisit(visits, i);
    LabelMirrorsVisit(visits, j);
    NestedIffPrefix(cat, j, i);
    VisitIsRootPath(cat, i);
    VisitIsRootPath(cat, j);
    PrefixIsBelow(cat, visits[j].path, visits[i].path);
  }

  lemma PrefixIsBelow(cat: Catalog, p: seq<int>, q: seq<int>)
    requires cat.Valid() && Chain(cat, q) && p <= q && |p| > 0
    ensures Below(cat, Last(q), Last(p))
  {
    ChainSlice(cat, q, |p| - 1, |q|);
    var chain := q[|p| - 1..|q|];
    assert chain[0] == Last(p) && Last(chain) == Last(q);
  }

  /** A chain between two types is a range hit. */
  lemma SubtypeComplete(cat: Catalog, x: int, y: int)
    requires cat.Valid() && Forest(cat).Walk? && Rooted(cat, y)
    requires Below(cat, x, y)
    ensures IsSubtype(LabelsOf(Forest(cat).visits), x, y)
  {
    var visits := Forest(cat).visits;
    var p :| RootPath(cat, p) && Last(p) == y;
    var c :| Chain(cat, c) && c[0] == y && Last(c) == x;
    ChainJoin(cat, p, c);
    var q := p + c[1..];
    assert q[0] == p[0] && p <= q;
    var j := RootPathVisited(cat, p);
    var i := RootPathVisited(cat, q);
    LabelMirrorsVisit(visits, i);
    LabelMirrorsVisit(visits, j);
    NestedIffPrefix(cat, j, i);
    assert Contains(LabelsOf(visits)[j], LabelsOf(visits)[i]);
  }

  /** The interval index agrees with reachability, on every hierarchy `relabel_graph` accepts. */
  lemma SubtypeIsReachability(cat: Catalog)
    requires cat.Valid() && Labellable(cat)
    ensures Forest(cat).Walk?
    ensures forall x, y :: IsSubtype(LabelsOf(Forest(cat).visits), x, y) <==> Below(cat, x, y)
  {
    ForestIffAcyclic(cat);
    forall x, y ensures IsSubtype(LabelsOf(Forest(cat).visits), x, y) <==> Below(cat, x, y) {
      if IsSubtype(LabelsOf(Forest(cat).visits), x, y) {
        SubtypeSound(cat, x, y);
      }
      if Below(cat, x, y) {
        SubtypeComplete(cat, x, y);
      }
    }
  }

  lemma BelowInTypes(cat: Catalog, x: int, y: int)
    requires cat.Valid() && Below(cat, x, y)
    ensures x in cat.types && y in cat.types
  {
    var p :| Chain(cat, p) && p[0] == y && Last(p) == x;
    ChainInTypes(cat, p);
  }

  lemma QuerySetsAreSubtype(labels: seq<Label>, x: int, y: int)
    ensures x in Subtypes(labels, y) <==> IsSubtype(labels, x, y)
    ensures y in Supertypes(labels, x) <==> IsSubtype(labels, x, y)
  {
  }

  /** `og_subtypes` lists exactly the types below a type, `og_supertypes` exactly those above it. */
  lemma QuerySetsAreReachability(cat: Catalog, x: int, y: int)
    requires cat.Valid() && Labellable(cat)
    ensures Forest(cat).Walk?
    ensures x in Subtypes(LabelsOf(Forest(cat).visits), y) <==> x in cat.types && Below(cat, x, y)
    ensures y in Supertypes(LabelsOf(Forest(cat).visits), x) <==> y in cat.types && Below(cat, x, y)
  {
    SubtypeIsReachability(cat);
    QuerySetsAreSubtype(LabelsOf(Forest(cat).visits), x, y);
    if Below(cat, x, y) {
      BelowInTypes(cat, x, y);
    }
  }

  /** Row `i` is the row of root path `i`: its type, its depth, a proper interval. */
  lemma LabelIsRootPath(cat: Catalog, i: nat)
    requires cat.Valid() && Forest(cat).Walk? && i < |Forest(cat).visits|
    ensures var path, row := Forest(cat).visits[i].path, LabelsOf(Forest(cat).visits)[i];
      && RootPath(cat, path)
      && row.typeId == Last(path)
      && row.depth == |path| - 1
      && row.lft < row.rgt
  {
    VisitIsRootPath(cat, i);
    LabelAt(Forest(cat).visits, i);
  }

  /** Two rows have different paths and different keys, and their intervals are nested or disjoint. */
  lemma LabelsArePathsApart(cat: Catalog, i: nat, j: nat)
    requires cat.Valid() && Forest(cat).Walk? && i < j < |Forest(cat).visits|
    ensures Forest(cat).visits[i].path != Forest(cat).visits[j].path
    ensures var a, b := LabelsOf(Forest(cat).visits)[i], LabelsOf(Forest(cat).visits)[j];
      && (a.typeId, a.pathId) != (b.typeId, b.pathId)
      && (Contains(a, b) || Contains(b, a) || a.rgt < b.lft || b.rgt < a.lft)
  {
    var visits := Forest(cat).visits;
    ForestLaminar(cat);
    assert PairFits(visits[i], visits[j]);
    LabelsKeyed(visits, i, j);
    LabelMirrorsVisit(visits, i);
    LabelMirrorsVisit(visits, j);
  }

  // ---------------------------------------------------------------- when labelling succeeds

  /** For a hierarchy whose parents all belong to the graph, labelling succeeds exactly when
      it is acyclic and small enough for the guard. */
  lemma LabellableIffAcyclic(cat: Catalog)
    requires cat.Valid() && Closed(cat)
    ensures Labellable(cat) <==> Acyclic(cat) && |Roots(cat)| + |cat.rows| <= 64 * |cat.types|
  {
    AllRowsInner(cat.rows, set t | t in cat.types);
    if Acyclic(cat) {
      ClosedAcyclicIsRooted(cat);
      assert RootedSet(cat) == set t | t in cat.types;
    }
  }

  lemma {:induction false} AllRowsInner(rows: seq<ParentRow>, types: set<int>)
    requires forall r :: r in rows ==> r.parent in types
    ensures RowsUnder(rows, types) == |rows|
  {
    if rows != [] {
      assert rows[0] in rows;
      AllRowsInner(rows[1..], types);
    }
  }
}
