/**
 Decoding what was encoded.

 Encodings are followed through the buffer with `At`: these bytes stand at this
 position.  Headers come first, one lemma for each width, then one lemma for each
 way the decoder can go on from a header, with the results of its recursive calls
 named; the round trip itself then only follows the shape of the value.  Where a
 value nests too deep the error is the same on every path, because everything read
 before the first container that is too deep is read correctly; so success and
 failure are proved together, and the result holds at any depth and whatever bytes
 follow.  Keys of a dictionary come in order, so inserting them one by one appends
 them, which is all that is needed of the map the decoder builds.
 */
module PackStreamRoundTrip {
  import opened Utf8
  import opened PackStream

  // ---------------------------------------------------------------- numbers

  lemma PowValues()
    ensures Pow256(1) == 0x100 && Pow256(2) == 0x1_0000 && Pow256(4) == 0x1_0000_0000 && Pow256(8) == 0x1_0000_0000_0000_0000
  {
    assert Pow256(1) == 256 * Pow256(0);
    assert Pow256(3) == 256 * Pow256(2);
    assert Pow256(5) == 256 * Pow256(4);
    assert Pow256(7) == 256 * Pow256(6);
  }

  lemma {:induction false} NatBe(n: nat, k: nat)
    requires n < Pow256(k)
    ensures Nat(Be(n, k)) == n
  {
    if k > 0 {
      NatBe(n / 256, k - 1);
      var b := Be(n, k);
      assert b[k - 1] == Digit(n, 0) == n % 256;
      assert forall i :: 0 <= i < k - 1 ==> b[i] == Digit(n, k - 1 - i) == Digit(n / 256, k - 2 - i);
      assert b[..k - 1] == Be(n / 256, k - 1);
    }
  }

  lemma SignedBe(i: int, k: nat)
    requires k > 0 && 0 <= 2 * i + Pow256(k) < 2 * Pow256(k)
    ensures SignedInt(BeInt(i, k)) == i
  {
    var p: int := Pow256(k);
    assert i % p == if i < 0 then i + p else i by {
      if i < 0 { assert (i + p) % p == i % p by { ModAdd(i, p); } SmallMod(i + p, p); } else { SmallMod(i, p); }
    }
    NatBe(i % p, k);
  }

  lemma SmallMod(a: int, p: int)
    requires 0 <= a < p
    ensures a % p == a
  {
  }

  lemma ModAdd(i: int, p: int)
    requires p > 0 && -p <= i < 0
    ensures (i + p) % p == i % p
  {
    if i == -p {
      assert (-p) % p == 0 by { assert -p == p * -1; }
    } else {
      SmallMod(i + p, p);
      assert i == p * -1 + (i + p);
    }
  }

  // ---------------------------------------------------------------- reading what was written

  /** The bytes `b` stand at `pos`. */
  ghost predicate At(buf: Bytes, pos: nat, b: Bytes)
  {
    pos + |b| <= |buf| && buf[pos..pos + |b|] == b
  }

  lemma AtSplit(buf: Bytes, pos: nat, a: Bytes, b: Bytes)
    requires At(buf, pos, a + b)
    ensures At(buf, pos, a) && At(buf, pos + |a|, b)
  {
    var all := buf[pos..pos + |a + b|];
    assert buf[pos..pos + |a|] == all[..|a|] == a;
    assert buf[pos + |a|..pos + |a| + |b|] == all[|a|..] == b;
  }

  lemma AtByte(buf: Bytes, pos: nat, m: byte, b: Bytes)
    requires At(buf, pos, [m] + b)
    ensures pos < |buf| && buf[pos] == m && At(buf, pos + 1, b)
  {
    AtSplit(buf, pos, [m], b);
    assert buf[pos..pos + 1][0] == m;
  }

  lemma WideReads(buf: Bytes, pos: nat, i: int, k: nat)
    requires k > 0 && At(buf, pos, BeInt(i, k)) && 0 <= 2 * i + Pow256(k) < 2 * Pow256(k)
    ensures Wide(buf, pos, k) == Ok(Scalar(Int(i)), pos + k)
  {
    SignedBe(i, k);
  }

  /** A wide integer behind its marker. */
  lemma MarkedReads(buf: Bytes, pos: nat, marker: byte, i: int, k: nat)
    requires (marker == 0xC8 && k == 1) || (marker == 0xC9 && k == 2) || (marker == 0xCA && k == 4) || (marker == 0xCB && k == 8)
    requires At(buf, pos, [marker] + BeInt(i, k)) && 0 <= 2 * i + Pow256(k) < 2 * Pow256(k)
    ensures DecHead(buf, pos) == Ok(Scalar(Int(i)), pos + 1 + k)
  {
    AtByte(buf, pos, marker, BeInt(i, k));
    WideReads(buf, pos + 1, i, k);
  }

  lemma IntReads(buf: Bytes, pos: nat, i: int)
    requires -0x8000_0000_0000_0000 <= i < 0x8000_0000_0000_0000 && At(buf, pos, EncInt(i))
    ensures DecHead(buf, pos) == Ok(Scalar(Int(i)), pos + |EncInt(i)|)
  {
    PowValues();
    if -16 <= i <= 127 {
      SmallReads(buf, pos, i);
    } else if -128 <= i <= 127 {
      assert BeInt(i, 1) == [i % 256] by { assert Digit(i % 256, 0) == i % 256; }
      assert EncInt(i) == [0xC8] + BeInt(i, 1);
      MarkedReads(buf, pos, 0xC8, i, 1);
    } else if -32_768 <= i <= 32_767 {
      MarkedReads(buf, pos, 0xC9, i, 2);
    } else if -2_147_483_648 <= i <= 2_147_483_647 {
      MarkedReads(buf, pos, 0xCA, i, 4);
    } else {
      MarkedReads(buf, pos, 0xCB, i, 8);
    }
  }

  lemma SmallReads(buf: Bytes, pos: nat, i: int)
    requires -16 <= i <= 127 && At(buf, pos, [i % 256])
    ensures DecHead(buf, pos) == Ok(Scalar(Int(i)), pos + 1)
  {
    assert i % 256 == if i < 0 then i + 256 else i;
    AtByte(buf, pos, i % 256, []);
  }

  function HeadFor(tiny: byte, n: nat): Head
  {
    if tiny == 0x80 then StrOf(n) else if tiny == 0x90 then ListOf(n) else DictOf(n)
  }

  lemma SizeReads(buf: Bytes, pos: nat, len: nat, step: nat, k: nat)
    requires k == (if step == 0 then 1 else if step == 1 then 2 else 4)
    requires At(buf, pos, Be(len, k)) && len < Pow256(k)
    ensures Size(buf, pos, step) == Ok(len, pos + k)
  {
    NatBe(len, k);
  }

  lemma HeaderReads(buf: Bytes, pos: nat, len: nat, tiny: byte, base: byte)
    requires (tiny == 0x80 && base == 0xD0) || (tiny == 0x90 && base == 0xD4) || (tiny == 0xA0 && base == 0xD8)
    requires len < 0x1_0000_0000 && At(buf, pos, EncHeader(len, tiny, base))
    ensures DecHead(buf, pos) == Ok(HeadFor(tiny, len), pos + |EncHeader(len, tiny, base)|)
  {
    PowValues();
    if len < 16 {
      AtByte(buf, pos, tiny + len, []);
    } else if len < 256 {
      assert Be(len, 1) == [len] by { assert Digit(len, 0) == len; }
      assert EncHeader(len, tiny, base) == [base] + Be(len, 1);
      AtByte(buf, pos, base, Be(len, 1));
      SizeReads(buf, pos + 1, len, 0, 1);
    } else if len < 65_536 {
      AtByte(buf, pos, base + 1, Be(len, 2));
      SizeReads(buf, pos + 1, len, 1, 2);
    } else {
      AtByte(buf, pos, base + 2, Be(len, 4));
      SizeReads(buf, pos + 1, len, 2, 4);
    }
  }

  // ---------------------------------------------------------------- which values

  ghost predicate Sorted(m: seq<Pair>)
  {
    forall i, j :: 0 <= i < j < |m| ==> Below(m[i].key, m[j].key)
  }

  /** What the value's own types guarantee: 64-bit integers, strings of UTF-8, dictionaries in key order; and no string,
      list or dictionary of 2^32 bytes or members. */
  ghost predicate Plain(v: Value)
    decreases v, 0
  {
    match v
    case Int(i) => -0x8000_0000_0000_0000 <= i < 0x8000_0000_0000_0000
    case Float(bits) => |bits| == 8
    case Str(s) => PlainStr(s)
    case List(xs) => |xs| < 0x1_0000_0000 && AllPlain(xs)
    case Map(m) => |m| < 0x1_0000_0000 && Sorted(m) && PairsPlain(m)
    case Struct(_, fields) => AllPlain(fields)
    case _ => true
  }

  ghost predicate PlainStr(s: Bytes)
  {
    |s| < 0x1_0000_0000 && ValidUtf8(s)
  }

  ghost predicate AllPlain(xs: seq<Value>)
    decreases xs, 1
  {
    xs == [] || (Plain(xs[0]) && AllPlain(xs[1..]))
  }

  ghost predicate PairsPlain(m: seq<Pair>)
    decreases m, 1
  {
    m == [] || (PlainStr(m[0].key) && Plain(m[0].val) && PairsPlain(m[1..]))
  }

  /** No structure of more than 15 fields. */
  ghost predicate Tiny(v: Value)
    decreases v, 0
  {
    match v
    case List(xs) => AllTiny(xs)
    case Map(m) => PairsTiny(m)
    case Struct(_, fields) => |fields| <= 15 && AllTiny(fields)
    case _ => true
  }

  ghost predicate AllTiny(xs: seq<Value>)
    decreases xs, 1
  {
    xs == [] || (Tiny(xs[0]) && AllTiny(xs[1..]))
  }

  ghost predicate PairsTiny(m: seq<Pair>)
    decreases m, 1
  {
    m == [] || (Tiny(m[0].val) && PairsTiny(m[1..]))
  }

  /** How deep containers nest. */
  function Nest(v: Value): nat
    decreases v, 0
  {
    match v
    case List(xs) => 1 + NestAll(xs)
    case Map(m) => 1 + NestPairs(m)
    case Struct(_, fields) => 1 + NestAll(fields)
    case _ => 0
  }

  function NestAll(xs: seq<Value>): nat
    decreases xs, 1
  {
    if xs == [] then 0 else Max(Nest(xs[0]), NestAll(xs[1..]))
  }

  function NestPairs(m: seq<Pair>): nat
    decreases m, 1
  {
    if m == [] then 0 else Max(Nest(m[0].val), NestPairs(m[1..]))
  }

  function Max(a: nat, b: nat): nat
  {
    if a < b then b else a
  }

  // ---------------------------------------------------------------- dictionary order

  lemma {:induction false} BelowIrreflexive(a: Bytes)
    ensures !Below(a, a)
    decreases |a|
  {
    if a != [] { BelowIrreflexive(a[1..]); }
  }

  lemma {:induction false} BelowTransitive(a: Bytes, b: Bytes, c: Bytes)
    requires Below(a, b) && Below(b, c)
    ensures Below(a, c)
    decreases |c|
  {
    if a != [] && a[0] == b[0] == c[0] {
      BelowTransitive(a[1..], b[1..], c[1..]);
    }
  }

  lemma {:induction false} BelowTotal(a: Bytes, b: Bytes)
    ensures Below(a, b) || a == b || Below(b, a)
    decreases |a|
  {
    if a != [] && b != [] && a[0] == b[0] {
      BelowTotal(a[1..], b[1..]);
      assert a == [a[0]] + a[1..] && b == [b[0]] + b[1..];
    }
  }

  /** An entry that comes in order goes to the end. */
  lemma {:induction false} InsertLast(m: seq<Pair>, k: Bytes, v: Value)
    requires forall i :: 0 <= i < |m| ==> Below(m[i].key, k)
    ensures InsertPair(m, k, v) == m + [Pair(k, v)]
    decreases |m|
  {
    if m == [] {
      assert m + [Pair(k, v)] == [Pair(k, v)] + m;
    } else {
      if Below(k, m[0].key) {
        BelowTransitive(k, m[0].key, k);
      }
      BelowIrreflexive(k);
      InsertLast(m[1..], k, v);
      assert m == [m[0]] + m[1..];
    }
  }

  // ---------------------------------------------------------------- one step of the decoder

  lemma DecString(buf: Bytes, pos: nat, depth: nat, n: nat, p: nat, r: Res<Value>)
    requires pos <= |buf| && DecHead(buf, pos) == Ok(StrOf(n), p) && r == Dec(buf, pos, depth)
    ensures r == DecStr(buf, p, n)
  {
  }

  lemma DecScalar(buf: Bytes, pos: nat, depth: nat, v: Value, p: nat, r: Res<Value>)
    requires pos <= |buf| && DecHead(buf, pos) == Ok(Scalar(v), p) && r == Dec(buf, pos, depth)
    ensures r == Ok(v, p)
  {
  }

  lemma DecDeep(buf: Bytes, pos: nat, depth: nat, h: Head, p: nat, r: Res<Value>)
    requires pos <= |buf| && DecHead(buf, pos) == Ok(h, p) && r == Dec(buf, pos, depth) && (h.ListOf? || h.DictOf? || h.StructOf?)
    ensures depth >= MAX_DEPTH ==> r == Fail(TooDeep)
  {
  }

  lemma DecList(buf: Bytes, pos: nat, depth: nat, n: nat, p: nat, w: Res<seq<Value>>, r: Res<Value>)
    requires pos <= |buf| && DecHead(buf, pos) == Ok(ListOf(n), p) && depth < MAX_DEPTH
    requires w == DecMany(buf, p, n, depth + 1) && r == Dec(buf, pos, depth)
    ensures r == if w.Ok? then Ok(List(w.value), w.pos) else Fail(w.error)
  {
  }

  lemma DecDict(buf: Bytes, pos: nat, depth: nat, n: nat, p: nat, w: Res<seq<Pair>>, r: Res<Value>)
    requires pos <= |buf| && DecHead(buf, pos) == Ok(DictOf(n), p) && depth < MAX_DEPTH
    requires w == DecPairs(buf, p, n, depth + 1, []) && r == Dec(buf, pos, depth)
    ensures r == if w.Ok? then Ok(Map(w.value), w.pos) else Fail(w.error)
  {
  }

  lemma DecStructure(buf: Bytes, pos: nat, depth: nat, n: nat, p: nat, w: Res<seq<Value>>, r: Res<Value>)
    requires pos <= |buf| && DecHead(buf, pos) == Ok(StructOf(n), p) && depth < MAX_DEPTH && p < |buf|
    requires w == DecMany(buf, p + 1, n, depth + 1) && r == Dec(buf, pos, depth)
    ensures r == if w.Ok? then Ok(Struct(buf[p], w.value), w.pos) else Fail(w.error)
  {
  }

  lemma DecNext(buf: Bytes, pos: nat, n: nat, depth: nat, x: Res<Value>, xs: Res<seq<Value>>, r: Res<seq<Value>>)
    requires pos <= |buf| && n > 0 && x == Dec(buf, pos, depth) && r == DecMany(buf, pos, n, depth)
    requires x.Ok? ==> xs == DecMany(buf, x.pos, n - 1, depth)
    ensures r == if x.Fail? then Fail(x.error) else if xs.Fail? then Fail(xs.error) else Ok([x.value] + xs.value, xs.pos)
  {
  }

  lemma DecPair(buf: Bytes, pos: nat, n: nat, depth: nat, m: seq<Pair>, k: Res<Value>, v: Res<Value>, r: Res<seq<Pair>>)
    requires pos <= |buf| && n > 0 && k == Dec(buf, pos, depth) && r == DecPairs(buf, pos, n, depth, m)
    requires k.Ok? ==> v == Dec(buf, k.pos, depth)
    ensures k.Ok? && k.value.Str? ==>
      r == if v.Fail? then Fail(v.error) else DecPairs(buf, v.pos, n - 1, depth, InsertPair(m, k.value.s, v.value))
    ensures k.Fail? || !k.value.Str? ==> r.Fail?
  {
  }

  // ---------------------------------------------------------------- the round trip

  /** Decoding gives the value back and stops at its end, whatever follows; or it is nested too deep. */
  lemma {:induction false} DecEnc(buf: Bytes, pos: nat, depth: nat, v: Value)
    requires Plain(v) && Tiny(v) && depth <= MAX_DEPTH && At(buf, pos, Enc(v))
    ensures Dec(buf, pos, depth) == if depth + Nest(v) <= MAX_DEPTH then Ok(v, pos + |Enc(v)|) else Fail(TooDeep)
    decreases v, 0
  {
    match v
    case List(xs) => ListReads(buf, pos, depth, xs, Dec(buf, pos, depth));
    case Map(m) => MapReads(buf, pos, depth, m, Dec(buf, pos, depth));
    case Struct(sig, fields) => StructReads(buf, pos, depth, sig, fields, Dec(buf, pos, depth));
    case Str(s) => StrReads(buf, pos, depth, s, Dec(buf, pos, depth));
    case _ => ScalarReads(buf, pos, depth, v, Dec(buf, pos, depth));
  }

  lemma ScalarReads(buf: Bytes, pos: nat, depth: nat, v: Value, r: Res<Value>)
    requires v.Null? || v.Bool? || v.Int? || v.Float?
    requires Plain(v) && At(buf, pos, Enc(v)) && r == Dec(buf, pos, depth)
    ensures r == Ok(v, pos + |Enc(v)|)
  {
    match v
    case Int(i) => IntReads(buf, pos, i);
    case Null => AtByte(buf, pos, 0xC0, []);
    case Bool(b) => AtByte(buf, pos, if b then 0xC3 else 0xC2, []);
    case Float(bits) => AtByte(buf, pos, 0xC1, bits);
    DecScalar(buf, pos, depth, v, pos + |Enc(v)|, r);
  }

  /** A header and the body behind it. */
  lemma HeaderThenBody(buf: Bytes, pos: nat, len: nat, tiny: byte, base: byte, body: Bytes, enc: Bytes) returns (p: nat)
    requires (tiny == 0x80 && base == 0xD0) || (tiny == 0x90 && base == 0xD4) || (tiny == 0xA0 && base == 0xD8)
    requires len < 0x1_0000_0000 && enc == EncHeader(len, tiny, base) + body && At(buf, pos, enc)
    ensures DecHead(buf, pos) == Ok(HeadFor(tiny, len), p) && At(buf, p, body)
    ensures p + |body| == pos + |enc|
  {
    p := pos + |EncHeader(len, tiny, base)|;
    AtSplit(buf, pos, EncHeader(len, tiny, base), body);
    HeaderReads(buf, pos, len, tiny, base);
  }

  lemma StrReads(buf: Bytes, pos: nat, depth: nat, s: Bytes, r: Res<Value>)
    requires PlainStr(s) && At(buf, pos, EncStr(s)) && r == Dec(buf, pos, depth)
    ensures r == Ok(Str(s), pos + |EncStr(s)|)
  {
    var p := HeaderThenBody(buf, pos, |s|, 0x80, 0xD0, s, EncStr(s));
    DecString(buf, pos, depth, |s|, p, r);
    TextReads(buf, p, s);
  }

  lemma TextReads(buf: Bytes, p: nat, s: Bytes)
    requires ValidUtf8(s) && At(buf, p, s)
    ensures DecStr(buf, p, |s|) == Ok(Str(s), p + |s|)
  {
    LossyKeepsValid(s);
  }

  lemma {:induction false} ListReads(buf: Bytes, pos: nat, depth: nat, xs: seq<Value>, r: Res<Value>)
    requires AllPlain(xs) && AllTiny(xs) && |xs| < 0x1_0000_0000 && depth <= MAX_DEPTH
    requires At(buf, pos, Enc(List(xs))) && r == Dec(buf, pos, depth)
    ensures r == if depth + 1 + NestAll(xs) <= MAX_DEPTH then Ok(List(xs), pos + |Enc(List(xs))|) else Fail(TooDeep)
    decreases xs, 3
  {
    var p := HeaderThenBody(buf, pos, |xs|, 0x90, 0xD4, EncAll(xs), Enc(List(xs)));
    ListBody(buf, pos, depth, xs, p, r);
  }

  lemma {:induction false} ListBody(buf: Bytes, pos: nat, depth: nat, xs: seq<Value>, p: nat, r: Res<Value>)
    requires AllPlain(xs) && AllTiny(xs) && depth <= MAX_DEPTH && pos <= |buf|
    requires DecHead(buf, pos) == Ok(ListOf(|xs|), p) && At(buf, p, EncAll(xs)) && r == Dec(buf, pos, depth)
    ensures r == if depth + 1 + NestAll(xs) <= MAX_DEPTH then Ok(List(xs), p + |EncAll(xs)|) else Fail(TooDeep)
    decreases xs, 2
  {
    DecDeep(buf, pos, depth, ListOf(|xs|), p, r);
    if depth < MAX_DEPTH {
      var w := DecMany(buf, p, |xs|, depth + 1);
      DecEncAll(buf, p, depth + 1, xs, w);
      DecList(buf, pos, depth, |xs|, p, w, r);
    }
  }

  lemma {:induction false} MapReads(buf: Bytes, pos: nat, depth: nat, m: seq<Pair>, r: Res<Value>)
    requires Sorted(m) && PairsPlain(m) && PairsTiny(m) && |m| < 0x1_0000_0000 && depth <= MAX_DEPTH
    requires At(buf, pos, Enc(Map(m))) && r == Dec(buf, pos, depth)
    ensures r == if depth + 1 + NestPairs(m) <= MAX_DEPTH then Ok(Map(m), pos + |Enc(Map(m))|) else Fail(TooDeep)
    decreases m, 3
  {
    var p := HeaderThenBody(buf, pos, |m|, 0xA0, 0xD8, EncPairs(m), Enc(Map(m)));
    InsertedInOrder([], m);
    assert [] + m == m;
    MapBody(buf, pos, depth, m, p, r);
  }

  lemma {:induction false} MapBody(buf: Bytes, pos: nat, depth: nat, m: seq<Pair>, p: nat, r: Res<Value>)
    requires PairsPlain(m) && PairsTiny(m) && depth <= MAX_DEPTH && pos <= |buf| && Inserted([], m) == m
    requires DecHead(buf, pos) == Ok(DictOf(|m|), p) && At(buf, p, EncPairs(m)) && r == Dec(buf, pos, depth)
    ensures r == if depth + 1 + NestPairs(m) <= MAX_DEPTH then Ok(Map(m), p + |EncPairs(m)|) else Fail(TooDeep)
    decreases m, 2
  {
    if depth < MAX_DEPTH {
      DecEncPairs(buf, p, depth + 1, [], m, DecPairs(buf, p, |m|, depth + 1, []));
    }
    DictFrom(buf, pos, depth, m, p, NestPairs(m), p + |EncPairs(m)|, r);
  }

  /** A dictionary from its entries. */
  lemma DictFrom(buf: Bytes, pos: nat, depth: nat, m: seq<Pair>, p: nat, nests: nat, end: nat, r: Res<Value>)
    requires pos <= |buf| && depth <= MAX_DEPTH && DecHead(buf, pos) == Ok(DictOf(|m|), p) && r == Dec(buf, pos, depth)
    requires depth < MAX_DEPTH ==>
      DecPairs(buf, p, |m|, depth + 1, []) == if depth + 1 + nests <= MAX_DEPTH then Ok(m, end) else Fail(TooDeep)
    ensures r == if depth + 1 + nests <= MAX_DEPTH then Ok(Map(m), end) else Fail(TooDeep)
  {
    if depth < MAX_DEPTH {
      DecDict(buf, pos, depth, |m|, p, DecPairs(buf, p, |m|, depth + 1, []), r);
    } else {
      DecDeep(buf, pos, depth, DictOf(|m|), p, r);
    }
  }

  lemma {:induction false} StructReads(buf: Bytes, pos: nat, depth: nat, sig: byte, fields: seq<Value>, r: Res<Value>)
    requires AllPlain(fields) && AllTiny(fields) && |fields| <= 15 && depth <= MAX_DEPTH
    requires At(buf, pos, Enc(Struct(sig, fields))) && r == Dec(buf, pos, depth)
    ensures r == if depth + 1 + NestAll(fields) <= MAX_DEPTH then Ok(Struct(sig, fields), pos + |Enc(Struct(sig, fields))|) else Fail(TooDeep)
    decreases fields, 3
  {
    StructHead(buf, pos, sig, fields, EncAll(fields));
    StructBody(buf, pos, depth, sig, fields, r);
  }

  lemma {:induction false} StructBody(buf: Bytes, pos: nat, depth: nat, sig: byte, fields: seq<Value>, r: Res<Value>)
    requires AllPlain(fields) && AllTiny(fields) && depth <= MAX_DEPTH && pos + 1 < |buf| && buf[pos + 1] == sig
    requires DecHead(buf, pos) == Ok(StructOf(|fields|), pos + 1) && At(buf, pos + 2, EncAll(fields)) && r == Dec(buf, pos, depth)
    ensures r == if depth + 1 + NestAll(fields) <= MAX_DEPTH then Ok(Struct(sig, fields), pos + 2 + |EncAll(fields)|) else Fail(TooDeep)
    decreases fields, 2
  {
    DecDeep(buf, pos, depth, StructOf(|fields|), pos + 1, r);
    if depth < MAX_DEPTH {
      var w := DecMany(buf, pos + 2, |fields|, depth + 1);
      DecEncAll(buf, pos + 2, depth + 1, fields, w);
      DecStructure(buf, pos, depth, |fields|, pos + 1, w, r);
    }
  }

  /** A structure's marker says its field count modulo 16. */
  lemma StructHead(buf: Bytes, pos: nat, sig: byte, fields: seq<Value>, es: Bytes)
    requires At(buf, pos, Enc(Struct(sig, fields))) && es == EncAll(fields)
    ensures DecHead(buf, pos) == Ok(StructOf(|fields| % 16), pos + 1)
    ensures pos + 1 < |buf| && buf[pos + 1] == sig && At(buf, pos + 2, es)
    ensures |Enc(Struct(sig, fields))| == 2 + |es|
  {
    var n := |fields| % 16;
    TwoBytes(buf, pos, 0xB0 + n, sig, es);
    StructMarker(buf, pos, n);
  }

  lemma TwoBytes(buf: Bytes, pos: nat, m: byte, sig: byte, es: Bytes)
    requires At(buf, pos, [m, sig] + es)
    ensures pos + 1 < |buf| && buf[pos] == m && buf[pos + 1] == sig && At(buf, pos + 2, es)
  {
    Regroup(m, sig, es);
    AtByte(buf, pos, m, [sig] + es);
    AtByte(buf, pos + 1, sig, es);
  }

  lemma Regroup(a: byte, b: byte, rest: Bytes)
    ensures [a, b] + rest == [a] + ([b] + rest)
  {
  }

  lemma StructMarker(buf: Bytes, pos: nat, n: nat)
    requires pos < |buf| && n < 16 && buf[pos] == 0xB0 + n
    ensures DecHead(buf, pos) == Ok(StructOf(n), pos + 1)
  {
  }

  lemma {:induction false} DecEncAll(buf: Bytes, pos: nat, depth: nat, xs: seq<Value>, r: Res<seq<Value>>)
    requires AllPlain(xs) && AllTiny(xs) && depth <= MAX_DEPTH && At(buf, pos, EncAll(xs))
    requires r == DecMany(buf, pos, |xs|, depth)
    ensures r == if depth + NestAll(xs) <= MAX_DEPTH then Ok(xs, pos + |EncAll(xs)|) else Fail(TooDeep)
    decreases xs, 1
  {
    if xs != [] {
      var p := AllBytes(buf, pos, xs);
      DecEnc(buf, pos, depth, xs[0]);
      var others := DecMany(buf, p, |xs| - 1, depth);
      DecEncAll(buf, p, depth, xs[1..], others);
      FirstAndRest(buf, pos, depth, xs, p, others, pos + |EncAll(xs)|, Nest(xs[0]), NestAll(xs[1..]), r);
    }
  }

  lemma AllBytes(buf: Bytes, pos: nat, xs: seq<Value>) returns (p: nat)
    requires xs != [] && At(buf, pos, EncAll(xs))
    ensures p == pos + |Enc(xs[0])| <= |buf| && pos + |EncAll(xs)| == p + |EncAll(xs[1..])|
    ensures At(buf, pos, Enc(xs[0])) && At(buf, p, EncAll(xs[1..]))
  {
    p := pos + |Enc(xs[0])|;
    AtSplit(buf, pos, Enc(xs[0]), EncAll(xs[1..]));
  }

  lemma FirstAndRest(buf: Bytes, pos: nat, depth: nat, xs: seq<Value>, p: nat, others: Res<seq<Value>>, end: nat,
                     nest: nat, nests: nat, r: Res<seq<Value>>)
    requires xs != [] && pos <= |buf| && p <= |buf| && r == DecMany(buf, pos, |xs|, depth)
    requires Dec(buf, pos, depth) == if depth + nest <= MAX_DEPTH then Ok(xs[0], p) else Fail(TooDeep)
    requires others == DecMany(buf, p, |xs| - 1, depth)
    requires others == if depth + nests <= MAX_DEPTH then Ok(xs[1..], end) else Fail(TooDeep)
    ensures r == if depth + Max(nest, nests) <= MAX_DEPTH then Ok(xs, end) else Fail(TooDeep)
  {
    DecNext(buf, pos, |xs|, depth, Dec(buf, pos, depth), others, r);
    assert xs == [xs[0]] + xs[1..];
  }

  lemma PairBytes(buf: Bytes, pos: nat, rest: seq<Pair>) returns (p: nat, q: nat)
    requires rest != [] && At(buf, pos, EncPairs(rest))
    ensures p == pos + |EncStr(rest[0].key)| && q == p + |Enc(rest[0].val)| <= |buf|
    ensures pos + |EncPairs(rest)| == q + |EncPairs(rest[1..])|
    ensures At(buf, pos, EncStr(rest[0].key)) && At(buf, p, Enc(rest[0].val)) && At(buf, q, EncPairs(rest[1..]))
  {
    var k, v, es := EncStr(rest[0].key), Enc(rest[0].val), EncPairs(rest[1..]);
    p, q := pos + |k|, pos + |k| + |v|;
    AtSplit(buf, pos, k + v, es);
    AtSplit(buf, pos, k, v);
  }

  /** The entries of `rest` put into `made` one by one. */
  function Inserted(made: seq<Pair>, rest: seq<Pair>): seq<Pair>
    decreases |rest|
  {
    if rest == [] then made else Inserted(InsertPair(made, rest[0].key, rest[0].val), rest[1..])
  }

  /** Entries in order stay in it. */
  lemma {:induction false} InsertedInOrder(made: seq<Pair>, rest: seq<Pair>)
    requires Sorted(made + rest)
    ensures Inserted(made, rest) == made + rest
    decreases |rest|
  {
    if rest == [] {
      assert made + rest == made;
    } else {
      var next := InsertNext(made, rest, made + rest);
      InsertedInOrder(next, rest[1..]);
    }
  }

  lemma {:induction false} DecEncPairs(buf: Bytes, pos: nat, depth: nat, made: seq<Pair>, rest: seq<Pair>, r: Res<seq<Pair>>)
    requires PairsPlain(rest) && PairsTiny(rest) && depth <= MAX_DEPTH && At(buf, pos, EncPairs(rest))
    requires r == DecPairs(buf, pos, |rest|, depth, made)
    ensures r == if depth + NestPairs(rest) <= MAX_DEPTH then Ok(Inserted(made, rest), pos + |EncPairs(rest)|) else Fail(TooDeep)
    decreases rest, 1
  {
    if rest != [] {
      var e, others := rest[0], rest[1..];
      var next := InsertPair(made, e.key, e.val);
      var p, q := PairBytes(buf, pos, rest);
      EntryReads(buf, pos, depth, e, p, q);
      var w := DecPairs(buf, q, |others|, depth, next);
      DecEncPairs(buf, q, depth, next, others, w);
      FirstPair(buf, pos, depth, made, rest, next, Inserted(next, others), p, q, w, pos + |EncPairs(rest)|, Nest(e.val), NestPairs(others), r);
    }
  }

  lemma {:induction false} EntryReads(buf: Bytes, pos: nat, depth: nat, e: Pair, p: nat, q: nat)
    requires PlainStr(e.key) && Plain(e.val) && Tiny(e.val) && depth <= MAX_DEPTH
    requires At(buf, pos, EncStr(e.key)) && At(buf, p, Enc(e.val))
    requires p == pos + |EncStr(e.key)| && q == p + |Enc(e.val)|
    ensures Dec(buf, pos, depth) == Ok(Str(e.key), p)
    ensures Dec(buf, p, depth) == if depth + Nest(e.val) <= MAX_DEPTH then Ok(e.val, q) else Fail(TooDeep)
    decreases e, 1
  {
    StrReads(buf, pos, depth, e.key, Dec(buf, pos, depth));
    DecEnc(buf, p, depth, e.val);
  }

  lemma FirstPair(buf: Bytes, pos: nat, depth: nat, made: seq<Pair>, rest: seq<Pair>, next: seq<Pair>, all: seq<Pair>,
                  p: nat, q: nat, others: Res<seq<Pair>>, end: nat, nest: nat, nests: nat, r: Res<seq<Pair>>)
    requires rest != [] && pos <= |buf| && p <= |buf| && q <= |buf|
    requires next == InsertPair(made, rest[0].key, rest[0].val)
    requires Dec(buf, pos, depth) == Ok(Str(rest[0].key), p)
    requires Dec(buf, p, depth) == if depth + nest <= MAX_DEPTH then Ok(rest[0].val, q) else Fail(TooDeep)
    requires others == DecPairs(buf, q, |rest| - 1, depth, next)
    requires others == if depth + nests <= MAX_DEPTH then Ok(all, end) else Fail(TooDeep)
    requires r == DecPairs(buf, pos, |rest|, depth, made)
    ensures r == if depth + Max(nest, nests) <= MAX_DEPTH then Ok(all, end) else Fail(TooDeep)
  {
    DecPair(buf, pos, |rest|, depth, made, Dec(buf, pos, depth), Dec(buf, p, depth), r);
  }

  lemma InsertNext(made: seq<Pair>, rest: seq<Pair>, all: seq<Pair>) returns (next: seq<Pair>)
    requires rest != [] && all == made + rest && Sorted(all)
    ensures next == InsertPair(made, rest[0].key, rest[0].val) && all == next + rest[1..]
  {
    next := made + [rest[0]];
    assert all[|made|] == rest[0];
    forall i | 0 <= i < |made| ensures Below(made[i].key, rest[0].key) {
      assert all[i] == made[i];
    }
    InsertLast(made, rest[0].key, rest[0].val);
    assert rest[0] == Pair(rest[0].key, rest[0].val);
  }
}
