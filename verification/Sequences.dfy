/** Facts about sequences that the type-hierarchy and query modules share. */
module Sequences {

  ghost predicate NoDup<T>(s: seq<T>)
  {
    forall i, j :: 0 <= i < j < |s| ==> s[i] != s[j]
  }

  function Last<T>(s: seq<T>): T
    requires |s| > 0
  {
    s[|s| - 1]
  }

  lemma Assoc<T>(a: seq<T>, b: seq<T>, c: seq<T>)
    ensures (a + b) + c == a + (b + c)
  {
  }

  lemma ConcatTail<T>(a: seq<T>, b: seq<T>)
    requires a != []
    ensures (a + b)[0] == a[0] && (a + b)[1..] == a[1..] + b
  {
  }

  /** Two row lists hold the same rows, whatever their order and multiplicity. */
  ghost predicate SameSet<T>(a: seq<T>, b: seq<T>)
  {
    && (forall x :: x in a ==> x in b)
    && (forall x :: x in b ==> x in a)
  }

  predicate Ordered(s: seq<int>)
  {
    forall i, j :: 0 <= i < j < |s| ==> s[i] <= s[j]
  }

  function Insert(x: int, s: seq<int>): (r: seq<int>)
    ensures multiset(r) == multiset(s) + multiset{x}
    ensures forall y :: y in r <==> y == x || y in s
  {
    if s == [] then [x]
    else if x <= s[0] then [x] + s
    else
      assert s == [s[0]] + s[1..];
      [s[0]] + Insert(x, s[1..])
  }

  lemma {:induction false} InsertOrdered(x: int, s: seq<int>)
    requires Ordered(s)
    ensures Ordered(Insert(x, s))
  {
    if s != [] && s[0] < x {
      InsertOrdered(x, s[1..]);
      var t := Insert(x, s[1..]);
      assert forall y :: y in t ==> s[0] <= y;
      assert forall j :: 0 <= j < |t| ==> t[j] in t;
    }
  }

  /** `sort_unstable` on a vector of type ids. */
  function Ascending(s: seq<int>): (r: seq<int>)
    ensures Ordered(r) && multiset(r) == multiset(s)
  {
    if s == [] then []
    else
      assert s == [s[0]] + s[1..];
      InsertOrdered(s[0], Ascending(s[1..]));
      Insert(s[0], Ascending(s[1..]))
  }

  lemma NoDupByCount<T>(s: seq<T>)
    ensures NoDup(s) <==> forall x :: x in s ==> multiset(s)[x] == 1
  {
    if NoDup(s) {
      forall x | x in s ensures multiset(s)[x] == 1 {
        var i :| 0 <= i < |s| && s[i] == x;
        CountOnce(s, i);
      }
    } else {
      var i, j :| 0 <= i < j < |s| && s[i] == s[j];
      CountTwice(s, i, j);
    }
  }

  lemma CountOnce<T>(s: seq<T>, i: nat)
    requires NoDup(s) && i < |s|
    ensures multiset(s)[s[i]] == 1
  {
    var before, after := s[..i], s[i + 1..];
    assert s == before + [s[i]] + after;
    assert s[i] !in before && s[i] !in after;
  }

  lemma CountTwice<T>(s: seq<T>, i: nat, j: nat)
    requires i < j < |s| && s[i] == s[j]
    ensures multiset(s)[s[i]] >= 2
  {
    var before, after := s[..j], s[j..];
    assert s == before + after;
    assert before[i] == s[i] && before[i] in before;
    assert after[0] == s[i] && after[0] in after;
  }

  lemma AscendingKeeps(s: seq<int>)
    ensures |Ascending(s)| == |s|
    ensures forall x :: x in Ascending(s) <==> x in s
    ensures NoDup(s) ==> NoDup(Ascending(s))
  {
    var r := Ascending(s);
    assert |multiset(r)| == |multiset(s)|;
    forall x ensures x in r <==> x in s {
      assert x in r <==> x in multiset(r);
    }
    NoDupByCount(s);
    NoDupByCount(r);
  }
}
