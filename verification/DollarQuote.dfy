/** The quoting of a statement into the gateway's own SQL, and how PostgreSQL reads it back. */
module DollarQuote {
  import opened Options

  // ---------------------------------------------------------------- the code

  function Decimal(n: nat): (r: string)
    ensures |r| > 0 && n < Pow10(|r|) && forall c :: c in r ==> '0' <= c <= '9'
  {
    var last := [['0', '1', '2', '3', '4', '5', '6', '7', '8', '9'][n % 10]];
    if n < 10 then last else Decimal(n / 10) + last
  }

  function Pow10(n: nat): (r: nat)
    ensures r > 0
  {
    if n == 0 then 1 else 10 * Pow10(n - 1)
  }

  lemma {:induction false} Pow10Grows(a: nat, b: nat)
    requires a <= b
    ensures Pow10(a) <= Pow10(b)
  {
    if a < b {
      Pow10Grows(a, b - 1);
    }
  }

  /** The tags in the order they are tried. */
  function Tag(n: nat): string
  {
    if n == 0 then "$ogq$" else "$ogq" + Decimal(n) + "$"
  }

  predicate OccursAt(t: string, s: string, i: int)
  {
    0 <= i && i + |t| <= |s| && s[i..i + |t|] == t
  }

  predicate Occurs(t: string, s: string)
  {
    exists i :: 0 <= i <= |s| && OccursAt(t, s, i)
  }

  /** A tag that occurs in a text is no longer than the text, so its number is below this bound. */
  lemma OccursIsShort(n: nat, s: string)
    requires Occurs(Tag(n), s)
    ensures n < Pow10(|s|)
  {
    if n > 0 {
      Pow10Grows(|Decimal(n)|, |s|);
    }
  }

  /** The first tag from `n` on that does not occur in the text. */
  function FirstFree(s: string, n: nat): (k: nat)
    ensures n <= k && !Occurs(Tag(k), s) && forall j :: n <= j < k ==> Occurs(Tag(j), s)
    decreases Pow10(|s|) - n
  {
    if Occurs(Tag(n), s) then
      OccursIsShort(n, s);
      FirstFree(s, n + 1)
    else n
  }

  function Quoted(s: string): string
  {
    Tag(FirstFree(s, 0)) + s + Tag(FirstFree(s, 0))
  }

  method Quote(s: string) returns (r: string)
    ensures r == Quoted(s)
    ensures exists k :: r == Tag(k) + s + Tag(k) && !Occurs(Tag(k), s)
  {
    var n := 0;
    while Occurs(Tag(n), s)
      invariant FirstFree(s, 0) == FirstFree(s, n)
      decreases Pow10(|s|) - n
    {
      OccursIsShort(n, s);
      n := n + 1;
    }
    r := Tag(n) + s + Tag(n);
  }

  // ---------------------------------------------------------------- the server

  /** Where `t` occurs first from `i` on. */
  function FirstAt(t: string, s: string, i: nat): (r: Option<nat>)
    requires i <= |s|
    ensures r.Some? ==> i <= r.value && OccursAt(t, s, r.value) && forall j :: i <= j < r.value ==> !OccursAt(t, s, j)
    ensures r.None? ==> forall j :: i <= j <= |s| ==> !OccursAt(t, s, j)
    decreases |s| - i
  {
    if OccursAt(t, s, i) then Some(i) else if i == |s| then None else FirstAt(t, s, i + 1)
  }

  /** A dollar-quoted constant at the start of a text, and what is after it: its tag runs from the first dollar to the
      second, its content to the first place where the tag occurs again. */
  function ReadQuoted(text: string): Option<(string, string)>
  {
    if text == "" || text[0] != '$' then None
    else
      match FirstAt("$", text, 1)
      case None => None
      case Some(d) => ReadContent(text[..d + 1], text[d + 1..])
  }

  function ReadContent(tag: string, text: string): Option<(string, string)>
  {
    match FirstAt(tag, text, 0)
    case None => None
    case Some(e) => Some((text[..e], text[e + |tag|..]))
  }

  // ---------------------------------------------------------------- quoted and read back

  lemma TagShape(n: nat)
    ensures |Tag(n)| >= 5 && Tag(n)[0] == '$' && Tag(n)[|Tag(n)| - 1] == '$'
    ensures forall i :: 0 < i < |Tag(n)| - 1 ==> Tag(n)[i] != '$'
  {
    if n > 0 {
      var d := Decimal(n);
      assert Tag(n) == "$ogq" + d + "$";
      forall i | 0 < i < |Tag(n)| - 1 ensures Tag(n)[i] != '$' {
        if i >= 4 {
          assert Tag(n)[i] == d[i - 4] && d[i - 4] in d;
        }
      }
    }
  }

  predicate EndsWith(s: string, t: string)
  {
    |t| <= |s| && s[|s| - |t|..] == t
  }

  /** A tag put behind a text it does not occur in occurs earlier only where the text ends with all of the tag but its
      last dollar, which the first dollar of the tag put behind completes. */
  lemma EarlierExactly(t: string, s: string, p: nat)
    requires |t| >= 2 && t[0] == '$' && t[|t| - 1] == '$' && (forall i :: 0 < i < |t| - 1 ==> t[i] != '$')
    requires !Occurs(t, s) && p < |s|
    ensures OccursAt(t, s + t, p) <==> p == |s| - |t| + 1 && EndsWith(s, t[..|t| - 1])
  {
    var all, k := s + t, |s| - p;
    if OccursAt(t, all, p) {
      if k >= |t| {
        assert s[p..p + |t|] == all[p..p + |t|];
        assert OccursAt(t, s, p);
        assert false;
      }
      assert t[k] == all[p..p + |t|][k] == all[|s|] == t[0];
      assert k == |t| - 1;
      assert s[p..] == all[p..p + |t|][..k] == t[..k];
    }
    if p == |s| - |t| + 1 && EndsWith(s, t[..|t| - 1]) {
      assert all[p..p + |t|] == s[p..] + [t[0]];
      assert t == t[..|t| - 1] + [t[0]];
    }
  }

  lemma OccursBefore(t: string, text: string, after: string, p: nat)
    requires p + |t| <= |text|
    ensures OccursAt(t, text + after, p) <==> OccursAt(t, text, p)
  {
    assert (text + after)[p..p + |t|] == text[p..p + |t|];
  }

  /** The tag is read to its second dollar. */
  lemma TagIsRead(n: nat, text: string, rest: string)
    requires text == Tag(n) + rest
    ensures FirstAt("$", text, 1) == Some(|Tag(n)| - 1) && text[..|Tag(n)|] == Tag(n)
  {
    var t := Tag(n);
    TagShape(n);
    assert OccursAt("$", text, |t| - 1) by {
      assert text[|t| - 1..|t|] == [t[|t| - 1]];
    }
    forall i | 1 <= i < |t| - 1 ensures !OccursAt("$", text, i) {
      assert text[i..i + 1][0] == t[i];
    }
  }

  /** Where the content ends, for the server. */
  function End(s: string, t: string): nat
    requires t != ""
  {
    if EndsWith(s, t[..|t| - 1]) then |s| - (|t| - 1) else |s|
  }

  lemma ClosesThere(s: string, t: string, rest: string, p: nat)
    requires |t| >= 2 && t[0] == '$' && t[|t| - 1] == '$' && (forall i :: 0 < i < |t| - 1 ==> t[i] != '$')
    requires !Occurs(t, s) && p <= |s|
    ensures OccursAt(t, s + t + rest, p) <==> p == |s| || p == End(s, t)
  {
    OccursBefore(t, s + t, rest, p);
    if p < |s| {
      EarlierExactly(t, s, p);
    } else {
      assert (s + t)[p..p + |t|] == t;
    }
  }

  lemma ClosedAt(s: string, t: string, rest: string, text: string)
    requires |t| >= 2 && t[0] == '$' && t[|t| - 1] == '$' && (forall i :: 0 < i < |t| - 1 ==> t[i] != '$')
    requires !Occurs(t, s) && text == s + t + rest
    ensures FirstAt(t, text, 0) == Some(End(s, t))
  {
    ClosesThere(s, t, rest, End(s, t));
    forall j | 0 <= j < End(s, t) ensures !OccursAt(t, text, j) {
      ClosesThere(s, t, rest, j);
    }
  }

  lemma ContentRead(s: string, t: string, rest: string, text: string)
    requires |t| >= 2 && text == s + t + rest && FirstAt(t, text, 0) == Some(End(s, t))
    ensures ReadContent(t, text) ==
      if EndsWith(s, t[..|t| - 1]) then Some((s[..|s| - (|t| - 1)], t[1..] + rest)) else Some((s, rest))
  {
    var e := End(s, t);
    assert text[..e] == s[..e];
    if e < |s| {
      assert text[e + |t|..] == t[1..] + rest;
    } else {
      assert text[e + |t|..] == rest && s[..e] == s;
    }
  }

  lemma TagThenContent(t: string, text: string)
    requires |t| >= 2 && t[0] == '$' && FirstAt("$", t + text, 1) == Some(|t| - 1)
    ensures ReadQuoted(t + text) == ReadContent(t, text)
  {
    var all := t + text;
    assert all[0] == '$' && all[..|t|] == t && all[|t|..] == text;
  }

  lemma ReadBack(n: nat, s: string, rest: string, t: string, text: string)
    requires t == Tag(n) && !Occurs(t, s) && text == s + t + rest
    ensures ReadQuoted(t + text) ==
      if EndsWith(s, t[..|t| - 1]) then Some((s[..|s| - (|t| - 1)], t[1..] + rest)) else Some((s, rest))
  {
    TagShape(n);
    TagIsRead(n, t + text, text);
    TagThenContent(t, text);
    ClosedAt(s, t, rest, text);
    ContentRead(s, t, rest, text);
  }

  /** The server reads a quoted text back whole unless it ends with the chosen tag short of its last dollar.  Then the
      closing tag begins too early: the end of the text is lost, and most of the tag is left over as SQL. */
  lemma ReadBackExactly(s: string, rest: string, t: string)
    requires t == Tag(FirstFree(s, 0))
    ensures ReadQuoted(Quoted(s) + rest) ==
      if EndsWith(s, t[..|t| - 1]) then Some((s[..|s| - (|t| - 1)], t[1..] + rest)) else Some((s, rest))
  {
    var text := s + t + rest;
    QuotedThen(s, t, rest);
    ReadBack(FirstFree(s, 0), s, rest, t, text);
  }

  lemma QuotedThen(s: string, t: string, rest: string)
    ensures (t + s + t) + rest == t + (s + t + rest)
  {
  }

  /** A query that ends with a parameter called `ogq` is cut off before it. */
  lemma ParameterIsCutOff(rest: string)
    ensures ReadQuoted(Quoted("RETURN $ogq") + rest) == Some(("RETURN ", "ogq$" + rest))
  {
    var s, t := "RETURN $ogq", Tag(0);
    forall i | 0 <= i <= |s| ensures !OccursAt(t, s, i) {
      if i + 5 <= |s| {
        assert s[i..i + 5][0] == s[i] && s[i..i + 5][4] == s[i + 4];
      }
    }
    assert FirstFree(s, 0) == 0;
    assert s[7..] == t[..4] && s[..7] == "RETURN " && t[1..] == "ogq$";
    ReadBackExactly(s, rest, t);
  }
}
