/** Adjacency segments: chunked, aligned arrays that stand for a plain list of edges. */
module Adjacency {
  import opened Sequences

  const CHUNK: nat := 256

  datatype Edge = Edge(nbr: int, eid: int)

  datatype Key = Key(src: int, etype: int, dir: char)

  /** One row of the adjacency table. */
  datatype Segment = Segment(seqNo: nat, n: nat, nbr: seq<int>, eid: seq<int>)

  // ---------------------------------------------------------------- what segments stand for

  function Zip(nbr: seq<int>, eid: seq<int>): (r: seq<Edge>)
    requires |nbr| == |eid|
    ensures |r| == |nbr|
  {
    seq(|nbr|, i requires 0 <= i < |nbr| => Edge(nbr[i], eid[i]))
  }

  predicate Aligned(s: Segment)
  {
    1 <= s.n <= CHUNK && s.n == |s.nbr| == |s.eid|
  }

  ghost predicate Rising(ss: seq<Segment>)
  {
    forall i, j :: 0 <= i < j < |ss| ==> ss[i].seqNo < ss[j].seqNo
  }

  predicate AllAligned(ss: seq<Segment>)
  {
    forall i :: 0 <= i < |ss| ==> Aligned(ss[i])
  }

  /** The edges of a key: its segments one after the other, in the order of their numbers. */
  ghost function Edges(ss: seq<Segment>): seq<Edge>
    requires AllAligned(ss)
  {
    if ss == [] then [] else Zip(ss[0].nbr, ss[0].eid) + Edges(ss[1..])
  }

  ghost predicate Live(es: seq<Edge>, eid: int)
  {
    exists i :: 0 <= i < |es| && es[i].eid == eid
  }

  ghost predicate Distinct(es: seq<Edge>)
  {
    forall i, j :: 0 <= i < j < |es| ==> es[i].eid != es[j].eid
  }

  ghost predicate Sound(ss: seq<Segment>)
  {
    Rising(ss) && AllAligned(ss) && Distinct(Edges(ss))
  }

  // ---------------------------------------------------------------- append and remove

  /** The tail takes the edge while it has room; then a new segment, numbered after it. */
  function Appended(ss: seq<Segment>, nbr: int, eid: int): seq<Segment>
  {
    if ss == [] then [Segment(0, 1, [nbr], [eid])]
    else
      var k := |ss| - 1;
      var t := ss[k];
      if t.n < CHUNK then ss[k := Segment(t.seqNo, t.n + 1, t.nbr + [nbr], t.eid + [eid])]
      else ss + [Segment(t.seqNo + 1, 1, [nbr], [eid])]
  }

  /** `array_position`, counted from 0; the length where it is not there. */
  function Position(xs: seq<int>, x: int): (i: nat)
    ensures i <= |xs| && (i < |xs| ==> xs[i] == x) && x !in xs[..i]
  {
    if xs == [] then 0
    else if xs[0] == x then 0
    else
      var i := 1 + Position(xs[1..], x);
      assert xs[..i] == [xs[0]] + xs[1..][..i - 1];
      i
  }

  /** Both arrays spliced at one index. */
  function Spliced(s: Segment, i: nat): Segment
    requires i < |s.nbr| && i < |s.eid| && s.n > 0
  {
    Segment(s.seqNo, s.n - 1, s.nbr[..i] + s.nbr[i + 1..], s.eid[..i] + s.eid[i + 1..])
  }

  /** The segment that holds the edge is spliced, and dropped if that empties it. */
  function Removed(ss: seq<Segment>, eid: int): seq<Segment>
    requires AllAligned(ss)
  {
    if ss == [] then []
    else
      var i := Position(ss[0].eid, eid);
      if i < |ss[0].eid| then
        var s := Spliced(ss[0], i);
        (if s.n == 0 then [] else [s]) + ss[1..]
      else [ss[0]] + Removed(ss[1..], eid)
  }

  /** The same on the plain list. */
  ghost function Without(es: seq<Edge>, eid: int): seq<Edge>
  {
    if es == [] then []
    else if es[0].eid == eid then es[1..]
    else [es[0]] + Without(es[1..], eid)
  }

  // ---------------------------------------------------------------- refinement

  lemma {:induction false} EdgesJoin(a: seq<Segment>, b: seq<Segment>)
    requires AllAligned(a) && AllAligned(b)
    ensures AllAligned(a + b) && Edges(a + b) == Edges(a) + Edges(b)
  {
    if a == [] {
      assert a + b == b;
    } else {
      EdgesJoin(a[1..], b);
      assert (a + b)[1..] == a[1..] + b;
      Assoc(Zip(a[0].nbr, a[0].eid), Edges(a[1..]), Edges(b));
    }
  }

  lemma EdgesOne(s: Segment)
    requires Aligned(s)
    ensures AllAligned([s]) && Edges([s]) == Zip(s.nbr, s.eid)
  {
    assert Edges([s]) == Zip(s.nbr, s.eid) + Edges([s][1..]);
    assert [s][1..] == [];
  }

  lemma AppendRefines(ss: seq<Segment>, nbr: int, eid: int)
    requires Sound(ss) && !Live(Edges(ss), eid)
    ensures Sound(Appended(ss, nbr, eid)) && Edges(Appended(ss, nbr, eid)) == Edges(ss) + [Edge(nbr, eid)]
  {
    StoredAppend(ss, nbr, eid);
    if ss == [] {
      EdgesOne(Segment(0, 1, [nbr], [eid]));
    } else if ss[|ss| - 1].n < CHUNK {
      AppendToTail(ss[..|ss| - 1], ss[|ss| - 1], nbr, eid);
      assert ss == ss[..|ss| - 1] + [ss[|ss| - 1]];
    } else {
      var s := Segment(ss[|ss| - 1].seqNo + 1, 1, [nbr], [eid]);
      EdgesOne(s);
      EdgesJoin(ss, [s]);
    }
    assert Zip([nbr], [eid]) == [Edge(nbr, eid)];
    DistinctAppend(Edges(ss), Edge(nbr, eid));
  }

  lemma AppendToTail(before: seq<Segment>, t: Segment, nbr: int, eid: int)
    requires AllAligned(before) && Aligned(t) && t.n < CHUNK
    ensures var s := Segment(t.seqNo, t.n + 1, t.nbr + [nbr], t.eid + [eid]);
      && Appended(before + [t], nbr, eid) == before + [s] && AllAligned(before + [t]) && AllAligned(before + [s])
      && Edges(before + [s]) == Edges(before + [t]) + [Edge(nbr, eid)]
  {
    var s := Segment(t.seqNo, t.n + 1, t.nbr + [nbr], t.eid + [eid]);
    EdgesOne(t);
    EdgesOne(s);
    EdgesJoin(before, [t]);
    EdgesJoin(before, [s]);
    assert Zip(s.nbr, s.eid) == Zip(t.nbr, t.eid) + [Edge(nbr, eid)];
    Assoc(Edges(before), Zip(t.nbr, t.eid), [Edge(nbr, eid)]);
  }

  lemma DistinctAppend(es: seq<Edge>, e: Edge)
    requires Distinct(es) && !Live(es, e.eid)
    ensures Distinct(es + [e])
  {
    forall i, j | 0 <= i < j < |es + [e]| ensures (es + [e])[i].eid != (es + [e])[j].eid {
      if j == |es| {
        assert (es + [e])[i] == es[i];
      }
    }
  }

  lemma LiveTail(es: seq<Edge>, eid: int)
    requires es != [] && es[0].eid != eid
    ensures Live(es, eid) <==> Live(es[1..], eid)
  {
    if Live(es[1..], eid) {
      var i :| 0 <= i < |es[1..]| && es[1..][i].eid == eid;
      assert es[i + 1].eid == eid;
    }
    if Live(es, eid) {
      var i :| 0 <= i < |es| && es[i].eid == eid;
      assert es[1..][i - 1].eid == eid;
    }
  }

  lemma {:induction false} WithoutJoin(a: seq<Edge>, b: seq<Edge>, eid: int)
    ensures Without(a + b, eid) == if Live(a, eid) then Without(a, eid) + b else a + Without(b, eid)
  {
    if a == [] {
      assert a + b == b && a + Without(b, eid) == Without(b, eid);
    } else {
      ConcatTail(a, b);
      if a[0].eid == eid {
        assert Live(a, eid);
      } else {
        LiveTail(a, eid);
        WithoutJoin(a[1..], b, eid);
        Assoc([a[0]], Without(a[1..], eid), b);
        Assoc([a[0]], a[1..], Without(b, eid));
        assert a == [a[0]] + a[1..];
      }
    }
  }

  lemma {:induction false} WithoutAt(es: seq<Edge>, i: nat, eid: int)
    requires i < |es| && es[i].eid == eid && forall j :: 0 <= j < i ==> es[j].eid != eid
    ensures Without(es, eid) == es[..i] + es[i + 1..]
  {
    if i > 0 {
      assert es[0].eid != eid;
      WithoutAt(es[1..], i - 1, eid);
      assert es[..i] == [es[0]] + es[1..][..i - 1];
    }
  }

  lemma ZipSplice(s: Segment, i: nat)
    requires |s.nbr| == |s.eid| && s.n > 0 && i < |s.eid|
    ensures var z := Zip(s.nbr, s.eid); Zip(Spliced(s, i).nbr, Spliced(s, i).eid) == z[..i] + z[i + 1..]
  {
  }

  /** Splicing both arrays takes one edge out of the list they stand for. */
  lemma SplicedRefines(s: Segment, i: nat, eid: int)
    requires |s.nbr| == |s.eid| && s.n > 0 && i < |s.eid| && i == Position(s.eid, eid)
    ensures Zip(Spliced(s, i).nbr, Spliced(s, i).eid) == Without(Zip(s.nbr, s.eid), eid)
  {
    var z := Zip(s.nbr, s.eid);
    forall j | 0 <= j < i ensures z[j].eid != eid {
      assert s.eid[..i][j] == s.eid[j];
    }
    WithoutAt(z, i, eid);
    ZipSplice(s, i);
  }

  lemma LiveInZip(s: Segment, eid: int)
    requires Aligned(s)
    ensures Live(Zip(s.nbr, s.eid), eid) <==> Position(s.eid, eid) < |s.eid|
  {
    var i, z := Position(s.eid, eid), Zip(s.nbr, s.eid);
    if i < |s.eid| {
      assert z[i].eid == eid;
    } else {
      assert s.eid[..i] == s.eid;
      assert forall j :: 0 <= j < |z| ==> z[j].eid == s.eid[j] && s.eid[j] in s.eid;
    }
  }

  /** The edges after a removal, segment by segment. */
  lemma {:induction false} RemoveEdges(ss: seq<Segment>, eid: int)
    requires AllAligned(ss)
    ensures AllAligned(Removed(ss, eid)) && Edges(Removed(ss, eid)) == Without(Edges(ss), eid)
    decreases |ss|
  {
    if ss != [] {
      var s, rest := ss[0], ss[1..];
      LiveInZip(s, eid);
      WithoutJoin(Zip(s.nbr, s.eid), Edges(rest), eid);
      if Position(s.eid, eid) < |s.eid| {
        RemoveFromFirst(s, rest, eid);
        assert [] + rest == rest && [] + Edges(rest) == Edges(rest);
      } else {
        RemoveEdges(rest, eid);
        EdgesOne(s);
        EdgesJoin([s], Removed(rest, eid));
      }
    }
  }

  lemma RemoveFromFirst(s: Segment, rest: seq<Segment>, eid: int)
    requires AllAligned(rest) && Aligned(s) && Position(s.eid, eid) < |s.eid|
    ensures var t := Spliced(s, Position(s.eid, eid));
      if t.n == 0 then Without(Zip(s.nbr, s.eid), eid) == []
      else AllAligned([t] + rest) && Edges([t] + rest) == Without(Zip(s.nbr, s.eid), eid) + Edges(rest)
  {
    var t := Spliced(s, Position(s.eid, eid));
    SplicedRefines(s, Position(s.eid, eid), eid);
    if t.n > 0 {
      EdgesOne(t);
      EdgesJoin([t], rest);
    }
  }

  function Numbers(ss: seq<Segment>): set<nat>
  {
    if ss == [] then {} else {ss[0].seqNo} + Numbers(ss[1..])
  }

  lemma {:induction false} NumbersAre(ss: seq<Segment>, n: nat)
    ensures n in Numbers(ss) <==> exists i :: 0 <= i < |ss| && ss[i].seqNo == n
  {
    if ss != [] {
      NumbersAre(ss[1..], n);
      if i :| 0 <= i < |ss[1..]| && ss[1..][i].seqNo == n {
        assert ss[i + 1].seqNo == n;
      }
      if i :| 0 <= i < |ss| && ss[i].seqNo == n {
        assert i > 0 ==> ss[1..][i - 1].seqNo == n;
      }
    }
  }

  /** What a removal leaves keeps its numbers. */
  lemma {:induction false} RemoveKeepsNumbers(ss: seq<Segment>, eid: int)
    requires AllAligned(ss)
    ensures Numbers(Removed(ss, eid)) <= Numbers(ss)
    decreases |ss|
  {
    if ss != [] {
      var s, rest := ss[0], ss[1..];
      if Position(s.eid, eid) < |s.eid| {
        var t := Spliced(s, Position(s.eid, eid));
        assert [] + rest == rest && ([t] + rest)[1..] == rest;
      } else {
        RemoveKeepsNumbers(rest, eid);
        assert ([s] + Removed(rest, eid))[1..] == Removed(rest, eid);
      }
    }
  }

  lemma RisingTail(s: Segment, rest: seq<Segment>)
    requires Rising([s] + rest)
    ensures Rising(rest)
  {
    forall i, j | 0 <= i < j < |rest| ensures rest[i].seqNo < rest[j].seqNo {
      assert ([s] + rest)[i + 1] == rest[i] && ([s] + rest)[j + 1] == rest[j];
    }
  }

  /** And their order. */
  lemma {:induction false} RemoveKeepsOrder(ss: seq<Segment>, eid: int)
    requires Rising(ss) && AllAligned(ss)
    ensures Rising(Removed(ss, eid))
    decreases |ss|
  {
    if ss != [] {
      var s, rest := ss[0], ss[1..];
      assert ss == [s] + rest;
      RisingTail(s, rest);
      if Position(s.eid, eid) < |s.eid| {
        RisingCons(Spliced(s, Position(s.eid, eid)), s, rest);
        assert [] + rest == rest;
      } else {
        RemoveKeepsNumbers(rest, eid);
        RemoveKeepsOrder(rest, eid);
        RisingFirst(s, rest, Removed(rest, eid));
      }
    }
  }

  lemma RemoveRefines(ss: seq<Segment>, eid: int)
    requires Rising(ss) && AllAligned(ss)
    ensures var out := Removed(ss, eid);
      && Rising(out) && AllAligned(out) && Edges(out) == Without(Edges(ss), eid)
      && (forall s :: s in out ==> exists t :: t in ss && t.seqNo == s.seqNo)
  {
    RemoveEdges(ss, eid);
    RemoveKeepsNumbers(ss, eid);
    RemoveKeepsOrder(ss, eid);
    var out := Removed(ss, eid);
    forall s | s in out ensures exists t :: t in ss && t.seqNo == s.seqNo {
      NumbersAre(out, s.seqNo);
      NumbersAre(ss, s.seqNo);
      var i :| 0 <= i < |ss| && ss[i].seqNo == s.seqNo;
      assert ss[i] in ss;
    }
  }

  lemma RisingCons(t: Segment, s: Segment, rest: seq<Segment>)
    requires Rising([s] + rest) && t.seqNo == s.seqNo
    ensures Rising([t] + rest)
  {
    forall i, j | 0 <= i < j < |[t] + rest| ensures ([t] + rest)[i].seqNo < ([t] + rest)[j].seqNo {
      assert ([s] + rest)[i].seqNo < ([s] + rest)[j].seqNo;
    }
  }

  lemma RisingFirst(s: Segment, rest: seq<Segment>, r: seq<Segment>)
    requires Rising([s] + rest) && Rising(r) && Numbers(r) <= Numbers(rest)
    ensures Rising([s] + r)
  {
    forall j | 0 <= j < |r| ensures s.seqNo < r[j].seqNo {
      NumbersAre(r, r[j].seqNo);
      NumbersAre(rest, r[j].seqNo);
      var k :| 0 <= k < |rest| && rest[k].seqNo == r[j].seqNo;
      assert ([s] + rest)[0].seqNo < ([s] + rest)[k + 1].seqNo;
    }
  }

  /** The first edge's identifier is not live further on. */
  lemma DistinctTail(es: seq<Edge>)
    requires es != [] && Distinct(es)
    ensures Distinct(es[1..]) && !Live(es[1..], es[0].eid)
  {
    forall j | 0 <= j < |es[1..]| ensures es[1..][j].eid != es[0].eid {
      assert es[1..][j] == es[j + 1];
    }
  }

  lemma DistinctCons(e: Edge, es: seq<Edge>)
    requires Distinct(es) && !Live(es, e.eid)
    ensures Distinct([e] + es)
  {
    var out := [e] + es;
    forall i, j | 0 <= i < j < |out| ensures out[i].eid != out[j].eid {
      assert out[j] == es[j - 1];
    }
  }

  /** Removing an edge removes that one and no other. */
  lemma {:induction false} WithoutKeeps(es: seq<Edge>, eid: int, x: int)
    requires Distinct(es)
    ensures Distinct(Without(es, eid))
    ensures Live(Without(es, eid), x) <==> Live(es, x) && x != eid
  {
    if es != [] {
      DistinctTail(es);
      if es[0].eid == x {
        assert Live(es, x);
      } else {
        LiveTail(es, x);
      }
      if es[0].eid != eid {
        WithoutKeeps(es[1..], eid, x);
        WithoutKeeps(es[1..], eid, es[0].eid);
        var w := Without(es[1..], eid);
        DistinctCons(es[0], w);
        assert ([es[0]] + w)[1..] == w;
        if es[0].eid == x {
          assert ([es[0]] + w)[0].eid == x;
        } else {
          LiveTail([es[0]] + w, x);
        }
      }
    }
  }

  // ---------------------------------------------------------------- every run

  datatype Op = Append(nbr: int, eid: int) | Remove(eid: int)

  /** The plain list after the operations. */
  ghost function Plain(es: seq<Edge>, ops: seq<Op>): seq<Edge>
    decreases |ops|
  {
    if ops == [] then es
    else match ops[0]
      case Append(nbr, eid) => Plain(es + [Edge(nbr, eid)], ops[1..])
      case Remove(eid) => Plain(Without(es, eid), ops[1..])
  }

  /** An edge is only added under an identifier that no live edge of the key has. */
  ghost predicate FreshIds(es: seq<Edge>, ops: seq<Op>)
    decreases |ops|
  {
    ops == [] ||
    match ops[0]
    case Append(nbr, eid) => !Live(es, eid) && FreshIds(es + [Edge(nbr, eid)], ops[1..])
    case Remove(eid) => FreshIds(Without(es, eid), ops[1..])
  }

  /** The segments after the operations. */
  ghost function Stored(ss: seq<Segment>, ops: seq<Op>): seq<Segment>
    requires AllAligned(ss) && Rising(ss)
    decreases |ops|
  {
    if ops == [] then ss
    else match ops[0]
      case Append(nbr, eid) => StoredAppend(ss, nbr, eid); Stored(Appended(ss, nbr, eid), ops[1..])
      case Remove(eid) => RemoveRefines(ss, eid); Stored(Removed(ss, eid), ops[1..])
  }

  lemma StoredAppend(ss: seq<Segment>, nbr: int, eid: int)
    requires AllAligned(ss) && Rising(ss)
    ensures AllAligned(Appended(ss, nbr, eid)) && Rising(Appended(ss, nbr, eid))
  {
  }

  /** Over every run the segments stand for the insertion-ordered list, stay aligned and are never empty. */
  lemma {:induction false} RunRefines(ss: seq<Segment>, ops: seq<Op>)
    requires Sound(ss) && FreshIds(Edges(ss), ops)
    ensures Sound(Stored(ss, ops)) && Edges(Stored(ss, ops)) == Plain(Edges(ss), ops)
    decreases |ops|
  {
    if ops != [] {
      match ops[0]
      case Append(nbr, eid) =>
        AppendRefines(ss, nbr, eid);
        RunRefines(Appended(ss, nbr, eid), ops[1..]);
      case Remove(eid) =>
        RemoveRefines(ss, eid);
        WithoutKeeps(Edges(ss), eid, eid);
        RunRefines(Removed(ss, eid), ops[1..]);
    }
  }

  /** All segments are full but the last, which is not empty, and they are numbered from 0. */
  ghost predicate Packed(ss: seq<Segment>)
  {
    forall i :: 0 <= i < |ss| ==> ss[i].seqNo == i && if i < |ss| - 1 then ss[i].n == CHUNK else 1 <= ss[i].n <= CHUNK
  }

  /** Edges that are only added fill one segment after the other. */
  lemma {:induction false} AppendsPack(ss: seq<Segment>, ops: seq<Op>)
    requires AllAligned(ss) && Rising(ss) && Packed(ss) && forall op :: op in ops ==> op.Append?
    ensures Packed(Stored(ss, ops))
    decreases |ops|
  {
    if ops != [] {
      assert ops[0] in ops && forall op :: op in ops[1..] ==> op in ops;
      StoredAppend(ss, ops[0].nbr, ops[0].eid);
      AppendsPack(Appended(ss, ops[0].nbr, ops[0].eid), ops[1..]);
    }
  }

  // ---------------------------------------------------------------- the table

  function Degree(ss: seq<Segment>): nat
  {
    if ss == [] then 0 else ss[0].n + Degree(ss[1..])
  }

  lemma {:induction false} DegreeIsLength(ss: seq<Segment>)
    requires AllAligned(ss)
    ensures Degree(ss) == |Edges(ss)|
  {
    if ss != [] {
      DegreeIsLength(ss[1..]);
    }
  }

  lemma {:induction false} DegreeSnoc(ss: seq<Segment>, i: nat)
    requires i < |ss|
    ensures Degree(ss[..i + 1]) == Degree(ss[..i]) + ss[i].n
  {
    if i == 0 {
      assert ss[..1][1..] == [];
    } else {
      DegreeSnoc(ss[1..], i - 1);
      assert ss[..i + 1][1..] == ss[1..][..i] && ss[..i][1..] == ss[1..][..i - 1];
    }
  }

  /** The adjacency table: the segments of each key, in the order of their numbers. */
  class AdjacencyTable {
    var rows: map<Key, seq<Segment>>

    ghost predicate Valid()
      reads this
    {
      forall k :: k in rows ==> Sound(rows[k])
    }

    function Segments(k: Key): seq<Segment>
      reads this
    {
      if k in rows then rows[k] else []
    }

    ghost function EdgesOf(k: Key): seq<Edge>
      requires Valid()
      reads this
    {
      Edges(Segments(k))
    }

    constructor ()
      ensures Valid() && forall k :: EdgesOf(k) == []
    {
      rows := map[];
    }

    method AppendEdge(k: Key, nbr: int, eid: int)
      requires Valid() && !Live(EdgesOf(k), eid)
      modifies this
      ensures Valid() && EdgesOf(k) == old(EdgesOf(k)) + [Edge(nbr, eid)]
      ensures Segments(k) == Appended(old(Segments(k)), nbr, eid)
      ensures forall other :: other != k ==> Segments(other) == old(Segments(other))
    {
      var ss := Segments(k);
      AppendRefines(ss, nbr, eid);
      var next := Grown(ss, nbr, eid);
      rows := rows[k := next];
    }

    /** The segments with the edge in the tail, or in a new one after it. */
    static method Grown(ss: seq<Segment>, nbr: int, eid: int) returns (next: seq<Segment>)
      ensures next == Appended(ss, nbr, eid)
    {
      if ss != [] && ss[|ss| - 1].n < CHUNK {
        var t := ss[|ss| - 1];
        next := ss[|ss| - 1 := Segment(t.seqNo, t.n + 1, t.nbr + [nbr], t.eid + [eid])];
      } else {
        var number := if ss == [] then 0 else ss[|ss| - 1].seqNo + 1;
        next := ss + [Segment(number, 1, [nbr], [eid])];
      }
    }

    /** Removes the edge where there is one; emptied segments go. */
    method RemoveEdge(k: Key, eid: int)
      requires Valid()
      modifies this
      ensures Valid() && EdgesOf(k) == Without(old(EdgesOf(k)), eid) && !Live(EdgesOf(k), eid)
      ensures forall other :: other != k ==> Segments(other) == old(Segments(other))
    {
      var ss := Segments(k);
      RemoveRefines(ss, eid);
      WithoutKeeps(Edges(ss), eid, eid);
      if k in rows {
        rows := rows[k := Removed(ss, eid)];
      }
    }

    /** `og_degree`: the sum of the segments' counts. */
    method DegreeOf(k: Key) returns (d: nat)
      requires Valid()
      ensures d == |EdgesOf(k)|
    {
      var ss := Segments(k);
      d := 0;
      for i := 0 to |ss|
        invariant d == Degree(ss[..i])
      {
        DegreeSnoc(ss, i);
        d := d + ss[i].n;
      }
      assert ss[..|ss|] == ss;
      DegreeIsLength(ss);
    }
  }
}
