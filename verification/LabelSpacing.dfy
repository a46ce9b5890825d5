/** The room `relabel_graph` leaves between the bounds it hands out. */
module LabelSpacing {
  import opened Sequences
  import opened TypeHierarchy
  import opened IntervalLabels

  /** Two bounds with room for 1023 more between them. */
  predicate Roomy(x: int, y: int)
  {
    x + 1024 <= y || y + 1024 <= x
  }

  predicate RoomyPair(u: Visit, v: Visit)
  {
    Roomy(u.lft, v.lft) && Roomy(u.lft, v.rgt) && Roomy(u.rgt, v.lft) && Roomy(u.rgt, v.rgt)
  }

  ghost predicate AllRoomy(visits: seq<Visit>)
  {
    && (forall i :: 0 <= i < |visits| ==> Roomy(visits[i].lft, visits[i].rgt))
    && (forall i, j :: 0 <= i < j < |visits| ==> RoomyPair(visits[i], visits[j]))
  }

  lemma RoomyJoin(a: seq<Visit>, b: seq<Visit>)
    requires AllRoomy(a) && AllRoomy(b)
    requires forall i, j :: 0 <= i < |a| && 0 <= j < |b| ==> RoomyPair(a[i], b[j])
    ensures AllRoomy(a + b)
  {
    var s := a + b;
    forall i, j | 0 <= i < j < |s| ensures RoomyPair(s[i], s[j]) {
      if j < |a| {
        assert RoomyPair(a[i], a[j]);
      } else if i < |a| {
        assert RoomyPair(a[i], b[j - |a|]);
      } else {
        assert RoomyPair(b[i - |a|], b[j - |a|]);
      }
    }
    forall i | 0 <= i < |s| ensures Roomy(s[i].lft, s[i].rgt) {
      assert i < |a| ==> Roomy(a[i].lft, a[i].rgt);
      assert i >= |a| ==> Roomy(b[i - |a|].lft, b[i - |a|].rgt);
    }
  }

  lemma {:induction false} AssignRoomy(cat: Catalog, id: int, stack: seq<int>, cursor: int)
    requires cat.Valid() && id in cat.types && Assign(cat, id, stack, cursor).Walk?
    ensures AllRoomy(Assign(cat, id, stack, cursor).visits)
    decreases Free(cat, stack), 0, 0
  {
    KidsAreChildren(cat, id);
    FreeShrinks(cat, stack, id);
    var below := AssignAll(cat, cat.kids[id], stack + [id], cursor + GAP);
    AssignAllRoomy(cat, cat.kids[id], stack + [id], cursor + GAP);
    AssignAllStretch(cat, cat.kids[id], stack + [id], cursor + GAP);
    var me := Visit(stack + [id], cursor, below.cursor);
    forall i | 0 <= i < |below.visits| ensures RoomyPair(below.visits[i], me) {
      assert FitsIn(below.visits[i], stack + [id], cursor + GAP, below.cursor);
    }
    RoomyJoin(below.visits, [me]);
  }

  lemma {:induction false} AssignAllRoomy(cat: Catalog, ids: seq<int>, stack: seq<int>, cursor: int)
    requires cat.Valid() && (forall c :: c in ids ==> c in cat.types) && AssignAll(cat, ids, stack, cursor).Walk?
    ensures AllRoomy(AssignAll(cat, ids, stack, cursor).visits)
    decreases Free(cat, stack), 1, |ids|
  {
    if ids != [] {
      AssignRoomy(cat, ids[0], stack, cursor);
      AssignStretch(cat, ids[0], stack, cursor);
      var first := Assign(cat, ids[0], stack, cursor);
      AssignAllRoomy(cat, ids[1..], stack, first.cursor);
      AssignAllStretch(cat, ids[1..], stack, first.cursor);
      var others := AssignAll(cat, ids[1..], stack, first.cursor);
      forall i, j | 0 <= i < |first.visits| && 0 <= j < |others.visits|
        ensures RoomyPair(first.visits[i], others.visits[j])
      {
        assert FitsIn(first.visits[i], stack, cursor, first.cursor);
        assert FitsIn(others.visits[j], stack, first.cursor, others.cursor);
      }
      RoomyJoin(first.visits, others.visits);
    }
  }

  /** Any two bounds of a labelled forest, of one interval or of two, are 1024 apart. */
  lemma ForestRoomy(cat: Catalog)
    requires cat.Valid() && Forest(cat).Walk?
    ensures AllRoomy(Forest(cat).visits)
  {
    RootsAreRoots(cat);
    AssignAllRoomy(cat, Roots(cat), [], 1);
  }
}
