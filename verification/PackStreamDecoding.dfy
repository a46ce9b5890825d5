/** What the decoder makes of bytes no encoder of ours wrote: dictionaries in any order, wider forms, cut-off input. */
module PackStreamDecoding {
  import opened Utf8
  import opened PackStream
  import opened PackStreamRoundTrip
  import opened PackStreamResults

  // ---------------------------------------------------------------- dictionaries in any order

  /** `x` is the last entry sent under its key. */
  ghost predicate LastSent(entries: seq<Pair>, x: Pair)
  {
    exists i :: 0 <= i < |entries| && entries[i] == x && NotAfter(entries, i, x.key)
  }

  ghost predicate NotAfter(entries: seq<Pair>, i: int, k: Bytes)
  {
    forall j :: 0 <= j < |entries| && i < j ==> entries[j].key != k
  }

  lemma LastOfTail(e: Pair, rest: seq<Pair>, x: Pair)
    ensures LastSent([e] + rest, x) <==> LastSent(rest, x) || (x == e && NotAfter(rest, -1, x.key))
  {
    var all := [e] + rest;
    if LastSent(rest, x) {
      var i :| 0 <= i < |rest| && rest[i] == x && NotAfter(rest, i, x.key);
      AfterShifts(e, rest, i, x.key);
      assert all[i + 1] == x;
    }
    AfterShifts(e, rest, -1, x.key);
    if x == e && NotAfter(rest, -1, x.key) {
      assert all[0] == x;
    }
    if LastSent(all, x) {
      var i :| 0 <= i < |all| && all[i] == x && NotAfter(all, i, x.key);
      AfterShifts(e, rest, i - 1, x.key);
      assert i > 0 ==> rest[i - 1] == x;
    }
  }

  lemma AfterShifts(e: Pair, rest: seq<Pair>, i: int, k: Bytes)
    requires i >= -1
    ensures NotAfter([e] + rest, i + 1, k) <==> NotAfter(rest, i, k)
  {
    var all := [e] + rest;
    assert forall j :: 0 < j < |all| ==> all[j] == rest[j - 1];
    assert forall j :: 0 <= j < |rest| ==> rest[j] == all[j + 1];
  }

  /** An entry put into a sorted dictionary takes the place of the one with its key, and leaves the others. */
  lemma {:induction false} InsertMembers(m: seq<Pair>, k: Bytes, v: Value, x: Pair)
    requires Sorted(m)
    ensures x in InsertPair(m, k, v) <==> x == Pair(k, v) || (x in m && x.key != k)
    decreases |m|
  {
    if m != [] {
      assert m == [m[0]] + m[1..];
      if Below(k, m[0].key) {
        if x in m && x.key == k {
          NoneBelow(m, k, x);
        }
      } else if m[0].key == k {
        if x in m[1..] && x.key == k {
          OnlyOnce(m, x);
        }
      } else {
        InsertMembers(m[1..], k, v, x);
      }
    }
  }

  /** A key below the first key of a sorted dictionary is not in it. */
  lemma NoneBelow(m: seq<Pair>, k: Bytes, x: Pair)
    requires Sorted(m) && m != [] && Below(k, m[0].key) && x in m
    ensures x.key != k
  {
    var i :| 0 <= i < |m| && m[i] == x;
    BelowIrreflexive(k);
    if i > 0 {
      BelowTransitive(k, m[0].key, x.key);
    }
  }

  lemma OnlyOnce(m: seq<Pair>, x: Pair)
    requires Sorted(m) && m != [] && x in m[1..]
    ensures x.key != m[0].key
  {
    var i :| 0 <= i < |m[1..]| && m[1..][i] == x;
    assert Below(m[0].key, m[i + 1].key);
    BelowIrreflexive(x.key);
  }

  lemma {:induction false} InsertedMembers(made: seq<Pair>, rest: seq<Pair>, x: Pair)
    requires Sorted(made)
    ensures Sorted(Inserted(made, rest))
    ensures x in Inserted(made, rest) <==> LastSent(rest, x) || (x in made && NotAfter(rest, -1, x.key))
    decreases |rest|
  {
    if rest != [] {
      var e, others := rest[0], rest[1..];
      assert rest == [e] + others;
      InsertSorted(made, e.key, e.val);
      InsertMembers(made, e.key, e.val, x);
      InsertedMembers(InsertPair(made, e.key, e.val), others, x);
      LastOfTail(e, others, x);
      assert NotAfter(rest, -1, x.key) <==> NotAfter(others, -1, x.key) && e.key != x.key by {
        assert forall j :: 0 < j < |rest| ==> rest[j] == others[j - 1];
        assert forall j :: 0 <= j < |others| ==> others[j] == rest[j + 1];
      }
    }
  }

  /** A dictionary's entries may come in any order and repeat their keys: what is read is sorted, and its entries are the
      last ones sent under each key, none missing and none more. */
  lemma AnyOrderReads(buf: Bytes, pos: nat, depth: nat, entries: seq<Pair>)
    requires |entries| < 0x1_0000_0000 && PairsPlain(entries) && PairsTiny(entries) && depth + 1 + NestPairs(entries) <= MAX_DEPTH
    requires At(buf, pos, EncHeader(|entries|, 0xA0, 0xD8) + EncPairs(entries))
    ensures var r := Dec(buf, pos, depth);
      && r.Ok? && r.pos == pos + |EncHeader(|entries|, 0xA0, 0xD8) + EncPairs(entries)|
      && r.value.Map? && Sorted(r.value.m)
      && forall x :: x in r.value.m <==> LastSent(entries, x)
  {
    var r, es := Dec(buf, pos, depth), EncPairs(entries);
    var p := HeaderThenBody(buf, pos, |entries|, 0xA0, 0xD8, es, EncHeader(|entries|, 0xA0, 0xD8) + es);
    var m := Inserted([], entries);
    DictReads(buf, pos, depth, entries, p, m, r);
    assert r.value.m == m;
    AllLastSent(entries, m);
  }

  lemma AllLastSent(entries: seq<Pair>, m: seq<Pair>)
    requires m == Inserted([], entries)
    ensures Sorted(m) && forall x :: x in m <==> LastSent(entries, x)
  {
    var none: seq<Pair> := [];
    InsertedMembers(none, entries, Pair([], Null));
    forall x ensures x in m <==> LastSent(entries, x) {
      InsertedMembers(none, entries, x);
    }
  }

  lemma DictReads(buf: Bytes, pos: nat, depth: nat, entries: seq<Pair>, p: nat, m: seq<Pair>, r: Res<Value>)
    requires m == Inserted([], entries)
    requires PairsPlain(entries) && PairsTiny(entries) && depth + 1 + NestPairs(entries) <= MAX_DEPTH && pos <= |buf|
    requires DecHead(buf, pos) == Ok(DictOf(|entries|), p) && At(buf, p, EncPairs(entries)) && r == Dec(buf, pos, depth)
    ensures r == Ok(Map(m), p + |EncPairs(entries)|)
  {
    var w := DecPairs(buf, p, |entries|, depth + 1, []);
    DecEncPairs(buf, p, depth + 1, [], entries, w);
    DecDict(buf, pos, depth, |entries|, p, w, r);
  }

  /** Each key of the dictionary read was sent, and each key sent is there, once. */
  lemma KeysAreKept(entries: seq<Pair>, m: seq<Pair>, k: Bytes)
    requires Sorted(m) && forall x :: x in m <==> LastSent(entries, x)
    ensures (exists x :: x in m && x.key == k) <==> exists e :: e in entries && e.key == k
    ensures forall x, y :: x in m && y in m && x.key == y.key ==> x == y
  {
    if e :| e in entries && e.key == k {
      var i := LastWith(entries, k);
      assert LastSent(entries, entries[i]);
    }
    forall x, y | x in m && y in m && x.key == y.key ensures x == y {
      var i :| 0 <= i < |entries| && entries[i] == x && NotAfter(entries, i, x.key);
      var j :| 0 <= j < |entries| && entries[j] == y && NotAfter(entries, j, y.key);
    }
  }

  lemma {:induction false} LastWith(entries: seq<Pair>, k: Bytes) returns (i: nat)
    requires exists e :: e in entries && e.key == k
    ensures i < |entries| && entries[i].key == k && NotAfter(entries, i, k)
  {
    var n := |entries| - 1;
    if entries[n].key == k {
      i := n;
    } else {
      var e :| e in entries && e.key == k;
      var j :| 0 <= j < |entries| && entries[j] == e;
      assert entries[..n][j] == e;
      i := LastWith(entries[..n], k);
      assert forall j :: 0 <= j < n ==> entries[..n][j] == entries[j];
    }
  }

  // ---------------------------------------------------------------- what is refused

  /** `r` comes of the `n` entries from `pos` on. */
  ghost predicate PairsAt(buf: Bytes, pos: nat, n: nat, depth: nat, m: seq<Pair>, r: Res<seq<Pair>>)
  {
    pos <= |buf| && r == DecPairs(buf, pos, n, depth, m)
  }

  lemma EntryOver(cut: Bytes, pos: nat, n: nat, depth: nat, m: seq<Pair>, k: Bytes, p: nat, v: Value, q: nat,
                  next: seq<Pair>, s: Res<seq<Pair>>)
    requires p <= |cut| && q <= |cut| && n > 0 && PairsAt(cut, pos, n, depth, m, s)
    requires Dec(cut, pos, depth) == Ok(Str(k), p) && Dec(cut, p, depth) == Ok(v, q) && next == InsertPair(m, k, v)
    ensures PairsAt(cut, q, n - 1, depth, next, s)
  {
    DecPair(cut, pos, n, depth, m, Dec(cut, pos, depth), Dec(cut, p, depth), s);
  }

  /** The dictionary at `pos`, from its entries. */
  lemma DictAt(buf: Bytes, pos: nat, depth: nat, n: nat, p: nat, r: Res<Value>) returns (w: Res<seq<Pair>>)
    requires pos < p <= |buf| && depth < MAX_DEPTH && DecHead(buf, pos) == Ok(DictOf(n), p) && r == Dec(buf, pos, depth)
    ensures PairsAt(buf, p, n, depth + 1, [], w)
    ensures r == if w.Ok? then Ok(Map(w.value), w.pos) else Fail(w.error)
  {
    w := DecPairs(buf, p, n, depth + 1, []);
    DecDict(buf, pos, depth, n, p, w, r);
  }

  /** The bytes that start no value. */
  predicate StartsNothing(m: byte)
  {
    0xC4 <= m <= 0xC7 || 0xCC <= m <= 0xCF || m == 0xD3 || m == 0xD7 || 0xDB <= m <= 0xEF
  }

  lemma UnknownExactly(buf: Bytes, pos: nat, depth: nat)
    requires pos < |buf|
    ensures StartsNothing(buf[pos]) ==> Dec(buf, pos, depth) == Fail(UnknownMarker(buf[pos]))
    ensures !StartsNothing(buf[pos]) ==> DecHead(buf, pos).Ok? || DecHead(buf, pos) == Fail(ShortRead)
  {
  }

  /** A dictionary ends at the first key that is no string, whatever was sent before it. */
  lemma {:induction false} KeyStops(buf: Bytes, pos: nat, n: nat, depth: nat, made: seq<Pair>, entries: seq<Pair>, v: Value,
                                    r: Res<seq<Pair>>)
    requires PairsPlain(entries) && PairsTiny(entries) && depth + NestPairs(entries) <= MAX_DEPTH && n > |entries|
    requires Plain(v) && Tiny(v) && !v.Str? && depth + Nest(v) <= MAX_DEPTH
    requires At(buf, pos, EncPairs(entries)) && At(buf, pos + |EncPairs(entries)|, Enc(v))
    ensures PairsAt(buf, pos, n, depth, made, r) ==> r == Fail(NonStringKey(v))
    decreases |entries|
  {
    if !PairsAt(buf, pos, n, depth, made, r) {
    } else if entries == [] {
      DecEnc(buf, pos, depth, v);
      NoKey(buf, pos, n, depth, made, v, r);
    } else {
      var q, next := PastFirst(buf, pos, n, depth, made, entries, r);
      KeyStops(buf, q, n - 1, depth, next, entries[1..], v, r);
    }
  }

  lemma PastFirst(buf: Bytes, pos: nat, n: nat, depth: nat, made: seq<Pair>, entries: seq<Pair>, r: Res<seq<Pair>>)
      returns (q: nat, next: seq<Pair>)
    requires PairsPlain(entries) && PairsTiny(entries) && depth + NestPairs(entries) <= MAX_DEPTH && entries != [] && n > 0
    requires At(buf, pos, EncPairs(entries)) && PairsAt(buf, pos, n, depth, made, r)
    ensures pos + |EncPairs(entries)| == q + |EncPairs(entries[1..])| && At(buf, q, EncPairs(entries[1..]))
    ensures PairsAt(buf, q, n - 1, depth, next, r)
  {
    var e := entries[0];
    var p, end := PairBytes(buf, pos, entries);
    EntryReads(buf, pos, depth, e, p, end);
    q, next := end, InsertPair(made, e.key, e.val);
    EntryOver(buf, pos, n, depth, made, e.key, p, e.val, q, next, r);
  }

  lemma NoKey(buf: Bytes, pos: nat, n: nat, depth: nat, made: seq<Pair>, v: Value, r: Res<seq<Pair>>)
    requires n > 0 && PairsAt(buf, pos, n, depth, made, r)
    requires Dec(buf, pos, depth).Ok? && Dec(buf, pos, depth).value == v && !v.Str?
    ensures r == Fail(NonStringKey(v))
  {
  }

  /** A dictionary of `n` entries, by its head, that sends some good ones and then such a key. */
  lemma KeyRefused(buf: Bytes, pos: nat, depth: nat, n: nat, p: nat, entries: seq<Pair>, v: Value, r: Res<Value>)
    requires pos < p <= |buf| && DecHead(buf, pos) == Ok(DictOf(n), p) && r == Dec(buf, pos, depth)
    requires PairsPlain(entries) && PairsTiny(entries) && depth + 1 + NestPairs(entries) <= MAX_DEPTH && n > |entries|
    requires Plain(v) && Tiny(v) && !v.Str? && depth + 1 + Nest(v) <= MAX_DEPTH
    requires At(buf, p, EncPairs(entries)) && At(buf, p + |EncPairs(entries)|, Enc(v))
    ensures r == Fail(NonStringKey(v))
  {
    var w := DictAt(buf, pos, depth, n, p, r);
    KeyStops(buf, p, n, depth + 1, [], entries, v, w);
  }

  // ---------------------------------------------------------------- wider forms

  /** A string may be any bytes: what is no UTF-8 is read as `from_utf8_lossy` reads it. */
  lemma AnyBytesRead(buf: Bytes, pos: nat, depth: nat, s: Bytes, sent: Bytes, r: Res<Value>)
    requires |s| < 0x1_0000_0000 && sent == EncHeader(|s|, 0x80, 0xD0) + s && At(buf, pos, sent) && r == Dec(buf, pos, depth)
    ensures r == Ok(Str(Lossy(s)), pos + |sent|)
  {
    var p := HeaderThenBody(buf, pos, |s|, 0x80, 0xD0, s, sent);
    BytesAt(buf, pos, depth, s, p, r);
  }

  lemma BytesAt(buf: Bytes, pos: nat, depth: nat, s: Bytes, p: nat, r: Res<Value>)
    requires pos <= |buf| && DecHead(buf, pos) == Ok(StrOf(|s|), p) && At(buf, p, s) && r == Dec(buf, pos, depth)
    ensures r == Ok(Str(Lossy(s)), p + |s|)
  {
  }

  /** A length may come in more bytes than it needs. */
  lemma AnyWidthReads(buf: Bytes, pos: nat, len: nat, step: nat, k: nat, tiny: byte, base: byte)
    requires (tiny == 0x80 && base == 0xD0) || (tiny == 0x90 && base == 0xD4) || (tiny == 0xA0 && base == 0xD8)
    requires step <= 2 && k == (if step == 0 then 1 else if step == 1 then 2 else 4)
    requires len < Pow256(k) && At(buf, pos, [base + step] + Be(len, k))
    ensures DecHead(buf, pos) == Ok(HeadFor(tiny, len), pos + 1 + k)
  {
    AtByte(buf, pos, base + step, Be(len, k));
    SizeReads(buf, pos + 1, len, step, k);
  }

  // ---------------------------------------------------------------- cut-off input

  /** `r`, read from the whole input, as read from its first `n` bytes. */
  function UpTo<T>(r: Res<T>, n: nat): Res<T>
    requires r.Ok?
  {
    if r.pos <= n then r else Fail(ShortRead)
  }

  ghost predicate CutFrom(cut: Bytes, buf: Bytes)
  {
    |cut| <= |buf| && cut == buf[..|cut|]
  }

  lemma CutTake(buf: Bytes, cut: Bytes, pos: nat, n: nat)
    requires CutFrom(cut, buf) && Take(buf, pos, n).Ok?
    ensures Take(cut, pos, n) == UpTo(Take(buf, pos, n), |cut|)
  {
    if pos + n <= |cut| {
      assert cut[pos..pos + n] == buf[pos..pos + n];
    }
  }

  lemma CutString(buf: Bytes, cut: Bytes, pos: nat, n: nat)
    requires CutFrom(cut, buf) && pos <= |cut|
    ensures DecStr(buf, pos, n).Ok? ==> DecStr(cut, pos, n) == UpTo(DecStr(buf, pos, n), |cut|)
  {
    if Take(buf, pos, n).Ok? {
      CutTake(buf, cut, pos, n);
    }
  }

  lemma CutSized(buf: Bytes, cut: Bytes, pos: nat, m: byte)
    requires CutFrom(cut, buf) && (0xD0 <= m <= 0xD2 || 0xD4 <= m <= 0xD6 || 0xD8 <= m <= 0xDA) && Sized(buf, pos, m).Ok?
    ensures Sized(cut, pos, m) == UpTo(Sized(buf, pos, m), |cut|)
  {
    var step := if m <= 0xD2 then m - 0xD0 else if m <= 0xD6 then m - 0xD4 else m - 0xD8;
    CutTake(buf, cut, pos, if step == 0 then 1 else if step == 1 then 2 else 4);
  }

  lemma CutHead(buf: Bytes, cut: Bytes, pos: nat)
    requires CutFrom(cut, buf) && pos <= |cut| && DecHead(buf, pos).Ok?
    ensures DecHead(cut, pos) == UpTo(DecHead(buf, pos), |cut|)
  {
    if pos < |cut| {
      var m := buf[pos];
      assert cut[pos] == m;
      if m == 0xC1 {
        CutTake(buf, cut, pos + 1, 8);
      } else if m == 0xC8 {
        CutTake(buf, cut, pos + 1, 1);
      } else if m == 0xC9 {
        CutTake(buf, cut, pos + 1, 2);
      } else if m == 0xCA {
        CutTake(buf, cut, pos + 1, 4);
      } else if m == 0xCB {
        CutTake(buf, cut, pos + 1, 8);
      } else if 0xD0 <= m <= 0xD2 || 0xD4 <= m <= 0xD6 || 0xD8 <= m <= 0xDA {
        CutSized(buf, cut, pos + 1, m);
      }
    }
  }

  /** The head is beyond the cut: so is the value. */
  lemma HeadCut(cut: Bytes, pos: nat, depth: nat, r: Res<Value>)
    requires pos <= |cut| && DecHead(cut, pos) == Fail(ShortRead) && r == Dec(cut, pos, depth)
    ensures r == Fail(ShortRead)
  {
  }

  lemma {:induction false} CutValue(buf: Bytes, cut: Bytes, pos: nat, depth: nat, r: Res<Value>, s: Res<Value>)
    requires CutFrom(cut, buf) && pos <= |cut| && depth <= MAX_DEPTH
    requires r == Dec(buf, pos, depth) && r.Ok? && s == Dec(cut, pos, depth)
    ensures s == UpTo(r, |cut|)
    decreases |buf| - pos, 0, 0
  {
    var h := DecHead(buf, pos);
    CutHead(buf, cut, pos);
    if h.pos > |cut| {
      HeadCut(cut, pos, depth, s);
    } else {
      CutBody(buf, cut, pos, depth, h.value, h.pos, r, s);
    }
  }

  lemma {:induction false} CutBody(buf: Bytes, cut: Bytes, pos: nat, depth: nat, h: Head, p: nat, r: Res<Value>, s: Res<Value>)
    requires CutFrom(cut, buf) && pos < p <= |cut| && depth <= MAX_DEPTH
    requires DecHead(buf, pos) == Ok(h, p) == DecHead(cut, pos)
    requires r == Dec(buf, pos, depth) && r.Ok? && s == Dec(cut, pos, depth)
    ensures s == UpTo(r, |cut|)
    decreases |buf| - p, 3 + match h case ListOf(n) => n case DictOf(n) => n case _ => 0
  {
    match h
    case Scalar(v) => DecScalar(buf, pos, depth, v, p, r); DecScalar(cut, pos, depth, v, p, s);
    case StrOf(n) =>
      CutString(buf, cut, p, n);
      DecString(buf, pos, depth, n, p, r);
      DecString(cut, pos, depth, n, p, s);
    case ListOf(n) =>
      DecDeep(buf, pos, depth, h, p, r);
      CutList(buf, cut, pos, depth, n, p, r, s);
    case DictOf(n) =>
      DecDeep(buf, pos, depth, h, p, r);
      CutDict(buf, cut, pos, depth, n, p, r, s);
    case StructOf(n) =>
      DecDeep(buf, pos, depth, h, p, r);
      CutStruct(buf, cut, pos, depth, n, p, r, s);
  }

  lemma {:induction false} CutList(buf: Bytes, cut: Bytes, pos: nat, depth: nat, n: nat, p: nat, r: Res<Value>, s: Res<Value>)
    requires CutFrom(cut, buf) && pos < p <= |cut| && depth < MAX_DEPTH
    requires DecHead(buf, pos) == Ok(ListOf(n), p) == DecHead(cut, pos)
    requires r == Dec(buf, pos, depth) && r.Ok? && s == Dec(cut, pos, depth)
    ensures s == UpTo(r, |cut|)
    decreases |buf| - p, 2 + n
  {
    var w, x := DecMany(buf, p, n, depth + 1), DecMany(cut, p, n, depth + 1);
    DecList(buf, pos, depth, n, p, w, r);
    DecList(cut, pos, depth, n, p, x, s);
    CutMany(buf, cut, p, n, depth + 1, w, x);
  }

  lemma {:induction false} CutDict(buf: Bytes, cut: Bytes, pos: nat, depth: nat, n: nat, p: nat, r: Res<Value>, s: Res<Value>)
    requires CutFrom(cut, buf) && pos < p <= |cut| && depth < MAX_DEPTH
    requires DecHead(buf, pos) == Ok(DictOf(n), p) == DecHead(cut, pos)
    requires r == Dec(buf, pos, depth) && r.Ok? && s == Dec(cut, pos, depth)
    ensures s == UpTo(r, |cut|)
    decreases |buf| - p, 2 + n
  {
    var w := DictAt(buf, pos, depth, n, p, r);
    var x := DictAt(cut, pos, depth, n, p, s);
    CutPairs(buf, cut, p, n, depth + 1, [], w, x);
  }

  lemma {:induction false} CutStruct(buf: Bytes, cut: Bytes, pos: nat, depth: nat, n: nat, p: nat, r: Res<Value>, s: Res<Value>)
    requires CutFrom(cut, buf) && pos < p <= |cut| && depth < MAX_DEPTH
    requires DecHead(buf, pos) == Ok(StructOf(n), p) == DecHead(cut, pos)
    requires r == Dec(buf, pos, depth) && r.Ok? && s == Dec(cut, pos, depth)
    ensures s == UpTo(r, |cut|)
    decreases |buf| - p, 2
  {
    var w := FieldsRead(buf, pos, depth, n, p, r);
    if p < |cut| {
      var x := DecMany(cut, p + 1, n, depth + 1);
      DecStructure(cut, pos, depth, n, p, x, s);
      CutMany(buf, cut, p + 1, n, depth + 1, w, x);
    } else {
      NoSignature(cut, pos, depth, n, p, s);
    }
  }

  lemma FieldsRead(buf: Bytes, pos: nat, depth: nat, n: nat, p: nat, r: Res<Value>) returns (w: Res<seq<Value>>)
    requires pos < p <= |buf| && depth < MAX_DEPTH && DecHead(buf, pos) == Ok(StructOf(n), p) && r == Dec(buf, pos, depth) && r.Ok?
    ensures p < |buf| && w == DecMany(buf, p + 1, n, depth + 1) && w.Ok? && r == Ok(Struct(buf[p], w.value), w.pos)
  {
    w := DecMany(buf, p + 1, n, depth + 1);
    DecStructure(buf, pos, depth, n, p, w, r);
  }

  lemma NoSignature(cut: Bytes, pos: nat, depth: nat, n: nat, p: nat, s: Res<Value>)
    requires pos < p == |cut| && depth < MAX_DEPTH && DecHead(cut, pos) == Ok(StructOf(n), p) && s == Dec(cut, pos, depth)
    ensures s == Fail(ShortRead)
  {
  }

  lemma {:induction false} CutMany(buf: Bytes, cut: Bytes, pos: nat, n: nat, depth: nat, r: Res<seq<Value>>, s: Res<seq<Value>>)
    requires CutFrom(cut, buf) && pos <= |cut| && depth <= MAX_DEPTH
    requires r == DecMany(buf, pos, n, depth) && r.Ok? && s == DecMany(cut, pos, n, depth)
    ensures s == UpTo(r, |cut|)
    decreases |buf| - pos, 1 + n
  {
    if n > 0 {
      var x, y := Dec(buf, pos, depth), Dec(cut, pos, depth);
      var xs := if x.Ok? then DecMany(buf, x.pos, n - 1, depth) else r;
      DecNext(buf, pos, n, depth, x, xs, r);
      CutValue(buf, cut, pos, depth, x, y);
      var ys := if y.Ok? then DecMany(cut, y.pos, n - 1, depth) else s;
      DecNext(cut, pos, n, depth, y, ys, s);
      if y.Ok? {
        CutMany(buf, cut, x.pos, n - 1, depth, xs, ys);
      }
    }
  }

  lemma {:induction false} CutPairs(buf: Bytes, cut: Bytes, pos: nat, n: nat, depth: nat, m: seq<Pair>,
                                    r: Res<seq<Pair>>, s: Res<seq<Pair>>)
    requires CutFrom(cut, buf) && pos <= |cut| && depth <= MAX_DEPTH && r.Ok?
    ensures PairsAt(buf, pos, n, depth, m, r) && PairsAt(cut, pos, n, depth, m, s) ==> s == UpTo(r, |cut|)
    decreases |buf| - pos, 1 + n
  {
    if PairsAt(buf, pos, n, depth, m, r) && PairsAt(cut, pos, n, depth, m, s) {
      if n == 0 {
        NoPairs(buf, cut, pos, depth, m, r, s);
      } else {
        var over, q, next := CutNext(buf, cut, pos, n, depth, m, r, s);
        if over {
          CutPairs(buf, cut, q, n - 1, depth, next, r, s);
        }
      }
    }
  }

  /** The cut is in the first entry, or behind it. */
  lemma {:induction false} CutNext(buf: Bytes, cut: Bytes, pos: nat, n: nat, depth: nat, m: seq<Pair>,
                                   r: Res<seq<Pair>>, s: Res<seq<Pair>>) returns (over: bool, q: nat, next: seq<Pair>)
    requires CutFrom(cut, buf) && pos <= |cut| && depth <= MAX_DEPTH && n > 0
    requires PairsAt(buf, pos, n, depth, m, r) && r.Ok? && PairsAt(cut, pos, n, depth, m, s)
    ensures !over ==> s == UpTo(r, |cut|)
    ensures over ==> pos < q <= |cut| && PairsAt(buf, q, n - 1, depth, next, r) && PairsAt(cut, q, n - 1, depth, next, s)
    decreases |buf| - pos, 0, 2
  {
    var k, p, v, e, more := EntryRead(buf, pos, n, depth, m, r);
    CutEntry(buf, cut, pos, depth, Str(k), p, v, e);
    over, q, next := e <= |cut|, e, more;
    if over {
      EntryOver(cut, pos, n, depth, m, k, p, v, q, next, s);
    } else {
      EntryCut(cut, pos, n, depth, m, k, p, v, q, s);
    }
  }

  lemma EntryRead(buf: Bytes, pos: nat, n: nat, depth: nat, m: seq<Pair>, r: Res<seq<Pair>>)
      returns (k: Bytes, p: nat, v: Value, q: nat, next: seq<Pair>)
    requires n > 0 && PairsAt(buf, pos, n, depth, m, r) && r.Ok?
    ensures pos < p < q <= |buf| && q <= r.pos && Dec(buf, pos, depth) == Ok(Str(k), p) && Dec(buf, p, depth) == Ok(v, q)
    ensures next == InsertPair(m, k, v) && PairsAt(buf, q, n - 1, depth, next, r)
  {
    k, p, v, q, next := PairRead(buf, pos, n, depth, m, r);
  }

  lemma NoPairs(buf: Bytes, cut: Bytes, pos: nat, depth: nat, m: seq<Pair>, r: Res<seq<Pair>>, s: Res<seq<Pair>>)
    requires |cut| <= |buf| && PairsAt(buf, pos, 0, depth, m, r) && PairsAt(cut, pos, 0, depth, m, s)
    ensures r.Ok? && s == UpTo(r, |cut|)
  {
  }

  lemma EntryCut(cut: Bytes, pos: nat, n: nat, depth: nat, m: seq<Pair>, k: Bytes, p: nat, v: Value, q: nat, s: Res<seq<Pair>>)
    requires |cut| < q && n > 0 && PairsAt(cut, pos, n, depth, m, s)
    requires Dec(cut, pos, depth) == UpTo(Ok(Str(k), p), |cut|) && (p <= |cut| ==> Dec(cut, p, depth) == UpTo(Ok(v, q), |cut|))
    ensures s == Fail(ShortRead)
  {
    PairCut(cut, pos, n, depth, m, Dec(cut, pos, depth), s);
  }

  lemma {:induction false} CutEntry(buf: Bytes, cut: Bytes, pos: nat, depth: nat, k: Value, p: nat, v: Value, q: nat)
    requires CutFrom(cut, buf) && pos <= |cut| && depth <= MAX_DEPTH
    requires pos < p < q <= |buf| && Dec(buf, pos, depth) == Ok(k, p) && Dec(buf, p, depth) == Ok(v, q)
    ensures Dec(cut, pos, depth) == UpTo(Ok(k, p), |cut|)
    ensures p <= |cut| ==> Dec(cut, p, depth) == UpTo(Ok(v, q), |cut|)
    ensures q <= |cut| ==> Dec(cut, pos, depth) == Ok(k, p) && Dec(cut, p, depth) == Ok(v, q)
    decreases |buf| - pos, 0, 1
  {
    CutValue(buf, cut, pos, depth, Ok(k, p), Dec(cut, pos, depth));
    if p <= |cut| {
      CutValue(buf, cut, p, depth, Ok(v, q), Dec(cut, p, depth));
    }
  }

  lemma PairCut(cut: Bytes, pos: nat, n: nat, depth: nat, m: seq<Pair>, x: Res<Value>, s: Res<seq<Pair>>)
    requires pos <= |cut| && n > 0 && x == Dec(cut, pos, depth) && s == DecPairs(cut, pos, n, depth, m)
    requires x == Fail(ShortRead) || (x.Ok? && x.value.Str? && Dec(cut, x.pos, depth) == Fail(ShortRead))
    ensures s == Fail(ShortRead)
  {
  }

  /** Input that ends before the value does is a short read, wherever it is cut; from its end on nothing more is looked at. */
  lemma CutOffIsShort(buf: Bytes, pos: nat, n: nat)
    requires pos <= n <= |buf| && Dec(buf, pos, 0).Ok?
    ensures Dec(buf[..n], pos, 0) == if n < Dec(buf, pos, 0).pos then Fail(ShortRead) else Dec(buf, pos, 0)
  {
    CutValue(buf, buf[..n], pos, 0, Dec(buf, pos, 0), Dec(buf[..n], pos, 0));
  }
}
