/** The distance behind "did you mean": the two-row loop, the recursion it computes, and its meaning. */
module EditDistance {
  import opened Sequences

  function Min3(a: nat, b: nat, c: nat): nat
  {
    var m := if a <= b then a else b;
    if m <= c then m else c
  }

  function Cost(x: char, y: char): nat
  {
    if x == y then 0 else 1
  }

  function Init<T>(s: seq<T>): seq<T>
    requires |s| > 0
  {
    s[..|s| - 1]
  }

  /** The recursive Levenshtein distance, on prefixes. */
  function Distance(a: seq<char>, b: seq<char>): nat
    decreases |a| + |b|
  {
    if a == [] then |b|
    else if b == [] then |a|
    else
      Min3(Distance(Init(a), b) + 1,
           Distance(a, Init(b)) + 1,
           Distance(Init(a), Init(b)) + Cost(Last(a), Last(b)))
  }

  lemma DistanceAt(a: seq<char>, b: seq<char>, i: nat, j: nat, d: nat, up: nat, left: nat, diagonal: nat)
    requires i < |a| && j < |b| && d == Distance(a[..i + 1], b[..j + 1])
    requires up == Distance(a[..i], b[..j + 1]) && left == Distance(a[..i + 1], b[..j]) && diagonal == Distance(a[..i], b[..j])
    ensures d == Min3(up + 1, left + 1, diagonal + Cost(a[i], b[j]))
  {
    PrefixInit(a, i);
    PrefixInit(b, j);
    DistanceStep(a[..i + 1], b[..j + 1], d, up, left, diagonal);
  }

  lemma PrefixInit(s: seq<char>, i: nat)
    requires i < |s|
    ensures Init(s[..i + 1]) == s[..i] && Last(s[..i + 1]) == s[i]
  {
  }

  /** The recursion, its four values named. */
  lemma DistanceStep(p: seq<char>, q: seq<char>, d: nat, up: nat, left: nat, diagonal: nat)
    requires p != [] && q != [] && d == Distance(p, q)
    requires up == Distance(Init(p), q) && left == Distance(p, Init(q)) && diagonal == Distance(Init(p), Init(q))
    ensures d == Min3(up + 1, left + 1, diagonal + Cost(Last(p), Last(q)))
  {
  }

  /** Row `i` of the distance matrix, up to column `upto`. */
  ghost predicate Row(row: array<nat>, a: seq<char>, b: seq<char>, i: nat, upto: nat)
    reads row
    requires i <= |a| && upto <= |b|
  {
    row.Length == |b| + 1 && forall j :: 0 <= j <= upto ==> row[j] == Distance(a[..i], b[..j])
  }

  /** `edit_distance`: two row buffers, filled and swapped. */
  method EditDistance(a: seq<char>, b: seq<char>) returns (d: nat)
    ensures d == Distance(a, b)
  {
    if a == [] {
      return |b|;
    }
    if b == [] {
      return |a|;
    }
    var prev := new nat[|b| + 1](j => j);
    var cur := new nat[|b| + 1](_ => 0);
    assert a[..0] == [];
    for i := 0 to |a|
      invariant prev != cur && fresh(prev) && fresh(cur)
      invariant Row(prev, a, b, i, |b|) && cur.Length == |b| + 1
    {
      FillRow(a, b, i, prev, cur);
      prev, cur := cur, prev;
    }
    assert a[..|a|] == a && b[..|b|] == b;
    d := prev[|b|];
  }

  lemma CellIsDistance(prev: array<nat>, cur: array<nat>, a: seq<char>, b: seq<char>, i: nat, j: nat)
    requires i < |a| && j < |b| && Row(prev, a, b, i, |b|) && Row(cur, a, b, i + 1, j)
    ensures Min3(prev[j + 1] + 1, cur[j] + 1, prev[j] + Cost(a[i], b[j])) == Distance(a[..i + 1], b[..j + 1])
  {
    RowAt(prev, a, b, i, |b|, j + 1);
    RowAt(prev, a, b, i, |b|, j);
    RowAt(cur, a, b, i + 1, j, j);
    DistanceAt(a, b, i, j, Distance(a[..i + 1], b[..j + 1]), prev[j + 1], cur[j], prev[j]);
  }

  lemma RowAt(row: array<nat>, a: seq<char>, b: seq<char>, i: nat, upto: nat, j: nat)
    requires i <= |a| && j <= upto <= |b| && Row(row, a, b, i, upto)
    ensures row[j] == Distance(a[..i], b[..j])
  {
  }

  /** The inner loop: the next row from the one before it. */
  method FillRow(a: seq<char>, b: seq<char>, i: nat, prev: array<nat>, cur: array<nat>)
    requires i < |a| && prev != cur && cur.Length == |b| + 1
    requires Row(prev, a, b, i, |b|)
    modifies cur
    ensures Row(cur, a, b, i + 1, |b|)
  {
    cur[0] := i + 1;
    DistanceEmpty(a[..i + 1]);
    assert b[..0] == [];
    for j := 0 to |b|
      invariant Row(cur, a, b, i + 1, j)
    {
      var cell := Min3(prev[j + 1] + 1, cur[j] + 1, prev[j] + Cost(a[i], b[j]));
      CellIsDistance(prev, cur, a, b, i, j);
      cur[j + 1] := cell;
    }
  }

  // ---------------------------------------------------------------- a metric

  lemma {:induction false} DistanceSymmetric(a: seq<char>, b: seq<char>)
    ensures Distance(a, b) == Distance(b, a)
    decreases |a| + |b|
  {
    if a != [] && b != [] {
      DistanceSymmetric(Init(a), b);
      DistanceSymmetric(a, Init(b));
      DistanceSymmetric(Init(a), Init(b));
    }
  }

  lemma {:induction false} DistanceSelf(a: seq<char>)
    ensures Distance(a, a) == 0
  {
    if a != [] {
      DistanceSelf(Init(a));
    }
  }

  lemma {:induction false} DistanceZero(a: seq<char>, b: seq<char>)
    ensures Distance(a, b) == 0 <==> a == b
    decreases |a| + |b|
  {
    if a == b {
      DistanceSelf(a);
    } else if a != [] && b != [] {
      DistanceZero(Init(a), Init(b));
      assert a == Init(a) + [Last(a)] && b == Init(b) + [Last(b)];
    }
  }

  lemma {:induction false} DistanceEmpty(a: seq<char>)
    ensures Distance(a, []) == |a|
  {
  }

  /** Dropping the last character of one side costs at most one edit. */
  lemma DistanceDrop(a: seq<char>, b: seq<char>)
    ensures a != [] ==> Distance(a, b) <= Distance(Init(a), b) + 1
    ensures b != [] ==> Distance(a, b) <= Distance(a, Init(b)) + 1
    ensures a != [] && b != [] ==> Distance(a, b) <= Distance(Init(a), Init(b)) + Cost(Last(a), Last(b))
  {
    if a == [] || b == [] {
      DistanceEmpty(a);
      if a != [] { DistanceEmpty(Init(a)); }
    }
  }

  lemma {:induction false} DistanceLengths(a: seq<char>, b: seq<char>)
    ensures |a| <= Distance(a, b) + |b| && |b| <= Distance(a, b) + |a|
    decreases |a| + |b|
  {
    if a != [] && b != [] {
      DistanceLengths(Init(a), b);
      DistanceLengths(a, Init(b));
      DistanceLengths(Init(a), Init(b));
    }
  }

  lemma {:induction false} DistanceUpper(a: seq<char>, b: seq<char>)
    ensures Distance(a, b) <= |a| + |b|
    decreases |a| + |b|
  {
    if a != [] && b != [] {
      DistanceUpper(Init(a), b);
    }
  }

  lemma {:induction false} Triangle(a: seq<char>, b: seq<char>, c: seq<char>)
    ensures Distance(a, c) <= Distance(a, b) + Distance(b, c)
    decreases |a| + |b| + |c|
  {
    DistanceDrop(a, c);
    DistanceEmpty(a);
    if a == [] || c == [] || b == [] {
      DistanceLengths(b, c);
      DistanceLengths(a, b);
      DistanceUpper(a, c);
      DistanceEmpty(a);
    } else {
      if Distance(a, b) == Distance(Init(a), b) + 1 {
        Triangle(Init(a), b, c);
      } else if Distance(b, c) == Distance(b, Init(c)) + 1 {
        Triangle(a, b, Init(c));
      } else if Distance(a, b) == Distance(a, Init(b)) + 1 {
        if Distance(b, c) == Distance(Init(b), c) + 1 {
          Triangle(a, Init(b), c);
        } else {
          Triangle(a, Init(b), Init(c));
        }
      } else if Distance(b, c) == Distance(Init(b), c) + 1 {
        Triangle(Init(a), Init(b), c);
      } else {
        Triangle(Init(a), Init(b), Init(c));
      }
    }
  }

  // ---------------------------------------------------------------- meaning

  /** `t` comes from `s` by inserting, deleting or replacing one character. */
  ghost predicate OneEdit(s: seq<char>, t: seq<char>)
  {
    exists u: seq<char>, v: seq<char>, x: seq<char>, y: seq<char> ::
      s == u + x + v && t == u + y + v && |x| <= 1 && |y| <= 1 && x != y
  }

  ghost predicate Neighbours(chain: seq<seq<char>>, i: nat)
    requires i + 1 < |chain|
  {
    OneEdit(chain[i], chain[i + 1])
  }

  /** A list of strings in which each comes from the one before by one edit. */
  ghost predicate Edits(chain: seq<seq<char>>)
  {
    forall i: nat :: i + 1 < |chain| ==> Neighbours(chain, i)
  }

  lemma {:induction false} CommonSuffix(a: seq<char>, b: seq<char>, v: seq<char>)
    ensures Distance(a + v, b + v) <= Distance(a, b)
  {
    if v == [] {
      assert a + v == a && b + v == b;
    } else {
      CommonSuffix(a, b, Init(v));
      assert Init(a + v) == a + Init(v) && Init(b + v) == b + Init(v);
      DistanceDrop(a + v, b + v);
    }
  }

  lemma NearEnds(u: seq<char>, x: seq<char>, y: seq<char>)
    requires |x| <= 1 && |y| <= 1
    ensures Distance(u + x, u + y) <= 1
  {
    DistanceSelf(u);
    if x == [] && y == [] {
      assert u + x == u && u + y == u;
    } else if x == [] {
      assert u + x == u && Init(u + y) == u;
      DistanceDrop(u, u + y);
    } else if y == [] {
      assert u + y == u && Init(u + x) == u;
      DistanceDrop(u + x, u);
    } else {
      assert Init(u + x) == u && Init(u + y) == u;
      DistanceDrop(u + x, u + y);
    }
  }

  lemma OneEditIsNear(s: seq<char>, t: seq<char>)
    requires OneEdit(s, t)
    ensures Distance(s, t) <= 1
  {
    var u: seq<char>, v: seq<char>, x: seq<char>, y: seq<char> :|
      s == u + x + v && t == u + y + v && |x| <= 1 && |y| <= 1 && x != y;
    CommonSuffix(u + x, u + y, v);
    NearEnds(u, x, y);
  }

  /** No chain of edits is shorter than the distance. */
  lemma {:induction false} EditsBoundDistance(chain: seq<seq<char>>)
    requires |chain| > 0 && Edits(chain)
    ensures Distance(chain[0], Last(chain)) <= |chain| - 1
  {
    if |chain| == 1 {
      DistanceSelf(chain[0]);
    } else {
      var n := |chain| - 1;
      assert Edits(Init(chain)) by {
        forall i: nat | i + 1 < n ensures Neighbours(Init(chain), i) {
          assert Neighbours(chain, i);
        }
      }
      EditsBoundDistance(Init(chain));
      assert Neighbours(chain, n - 1);
      OneEditIsNear(Last(Init(chain)), Last(chain));
      Triangle(chain[0], Last(Init(chain)), Last(chain));
    }
  }

  ghost function Suffixed(chain: seq<seq<char>>, v: seq<char>): seq<seq<char>>
  {
    seq(|chain|, i requires 0 <= i < |chain| => chain[i] + v)
  }

  lemma SuffixedEdits(chain: seq<seq<char>>, v: seq<char>)
    requires Edits(chain)
    ensures Edits(Suffixed(chain, v))
  {
    var out := Suffixed(chain, v);
    forall i: nat | i + 1 < |out| ensures Neighbours(out, i) {
      var s, t := chain[i], chain[i + 1];
      assert Neighbours(chain, i);
      var u: seq<char>, w: seq<char>, x: seq<char>, y: seq<char> :|
        s == u + x + w && t == u + y + w && |x| <= 1 && |y| <= 1 && x != y;
      assert out[i] == u + x + (w + v) && out[i + 1] == u + y + (w + v);
    }
  }

  lemma LastEdit(u: seq<char>, x: seq<char>, y: seq<char>)
    requires |x| <= 1 && |y| <= 1 && x != y
    ensures OneEdit(u + x, u + y)
  {
    var v: seq<char> := [];
    assert u + x == u + x + v && u + y == u + y + v;
  }

  lemma EditsExtend(chain: seq<seq<char>>, t: seq<char>)
    requires |chain| > 0 && Edits(chain) && OneEdit(Last(chain), t)
    ensures Edits(chain + [t])
  {
    var out := chain + [t];
    forall i: nat | i + 1 < |out| ensures Neighbours(out, i) {
      if i + 1 < |chain| {
        assert Neighbours(chain, i);
      }
    }
  }

  lemma EditsPrepend(s: seq<char>, chain: seq<seq<char>>)
    requires |chain| > 0 && Edits(chain) && OneEdit(s, chain[0])
    ensures Edits([s] + chain)
  {
    var out := [s] + chain;
    forall i: nat | i + 1 < |out| ensures Neighbours(out, i) {
      if i == 0 {
        assert out[0] == s && out[1] == chain[0];
      } else {
        assert Neighbours(chain, i - 1);
        assert out[i] == chain[i - 1] && out[i + 1] == chain[i];
      }
    }
  }

  /** Dropping or adding the last character is one edit. */
  lemma InitEdits(s: seq<char>)
    requires s != []
    ensures OneEdit(Init(s), s) && OneEdit(s, Init(s))
  {
    LastEdit(Init(s), [], [Last(s)]);
    LastEdit(Init(s), [Last(s)], []);
    assert Init(s) + [] == Init(s) && Init(s) + [Last(s)] == s;
  }

  /** A chain of exactly that many edits exists. */
  lemma {:induction false} DistanceReached(a: seq<char>, b: seq<char>) returns (chain: seq<seq<char>>)
    ensures |chain| == Distance(a, b) + 1 && Edits(chain)
    ensures chain[0] == a && Last(chain) == b
    decreases |a| + |b|, 1
  {
    DistanceEmpty(a);
    if b != [] && Distance(a, b) == Distance(a, Init(b)) + 1 {
      var before := DistanceReached(a, Init(b));
      InitEdits(b);
      EditsExtend(before, b);
      chain := before + [b];
    } else if a != [] && Distance(a, b) == Distance(Init(a), b) + 1 {
      var after := DistanceReached(Init(a), b);
      InitEdits(a);
      EditsPrepend(a, after);
      chain := [a] + after;
    } else if a == [] && b == [] {
      chain := [a];
    } else {
      chain := ReachedDiagonal(a, b);
    }
  }

  lemma {:induction false} ReachedDiagonal(a: seq<char>, b: seq<char>) returns (chain: seq<seq<char>>)
    requires a != [] && b != [] && Distance(a, b) == Distance(Init(a), Init(b)) + Cost(Last(a), Last(b))
    ensures |chain| == Distance(a, b) + 1 && Edits(chain)
    ensures chain[0] == a && Last(chain) == b
    decreases |a| + |b|, 0
  {
    var inner := DistanceReached(Init(a), Init(b));
    chain := ReplaceLast(a, b, inner);
  }

  /** Append the last characters to a chain between the shorter strings. */
  lemma ReplaceLast(a: seq<char>, b: seq<char>, inner: seq<seq<char>>) returns (chain: seq<seq<char>>)
    requires a != [] && b != [] && |inner| > 0 && Edits(inner)
    requires inner[0] == Init(a) && Last(inner) == Init(b)
    ensures |chain| == |inner| + Cost(Last(a), Last(b)) && Edits(chain)
    ensures chain[0] == a && Last(chain) == b
  {
    SuffixedEdits(inner, [Last(a)]);
    chain := Suffixed(inner, [Last(a)]);
    assert chain[0] == inner[0] + [Last(a)] == a;
    assert Last(chain) == Last(inner) + [Last(a)];
    if Last(a) == Last(b) {
      assert Init(b) + [Last(b)] == b;
    } else {
      LastEdit(Init(b), [Last(a)], [Last(b)]);
      assert Init(b) + [Last(b)] == b;
      EditsExtend(chain, b);
      chain := chain + [b];
    }
  }
}
