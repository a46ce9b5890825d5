/** What the encoding and the decoder guarantee. */
module PackStreamResults {
  import opened Utf8
  import opened PackStream
  import opened PackStreamRoundTrip

  // ---------------------------------------------------------------- one value, one encoding

  /** No encoding is the start of another. */
  lemma PrefixFree(v: Value, w: Value)
    requires Plain(v) && Tiny(v) && Nest(v) <= MAX_DEPTH
    requires Plain(w) && Tiny(w) && Nest(w) <= MAX_DEPTH
    requires Enc(v) <= Enc(w)
    ensures v == w
  {
    var buf := Enc(w);
    assert buf[0..|Enc(v)|] == Enc(v) && buf[0..|buf|] == buf;
    DecEnc(buf, 0, 0, v);
    DecEnc(buf, 0, 0, w);
  }

  // ---------------------------------------------------------------- exactly which values come back

  /** A new entry pushes out an earlier one only by taking its place. */
  lemma {:induction false} InsertSize(m: seq<Pair>, k: Bytes, v: Value, x: Pair)
    ensures |InsertPair(m, k, v)| <= |m| + 1
    ensures x in m && |InsertPair(m, k, v)| == |m| + 1 ==> x in InsertPair(m, k, v)
    decreases |m|
  {
    if m != [] && !Below(k, m[0].key) && m[0].key != k {
      InsertSize(m[1..], k, v, x);
      assert m == [m[0]] + m[1..];
    }
  }

  lemma {:induction false} PairsKept(buf: Bytes, pos: nat, n: nat, depth: nat, m: seq<Pair>, x: Pair)
    requires pos <= |buf|
    ensures var r := DecPairs(buf, pos, n, depth, m);
      r.Ok? ==> |r.value| <= |m| + n && (x in m && |r.value| == |m| + n ==> x in r.value)
    decreases n
  {
    var r := DecPairs(buf, pos, n, depth, m);
    if n > 0 && r.Ok? {
      var k, p, v, q, next := PairRead(buf, pos, n, depth, m, r);
      InsertSize(m, k, v, x);
      PairsKept(buf, q, n - 1, depth, next, x);
    }
  }

  /** A value with a structure of 16 fields or more is not what decoding gives. */
  lemma {:induction false} WideIsLost(buf: Bytes, pos: nat, depth: nat, v: Value, r: Res<Value>)
    requires Plain(v) && !Tiny(v) && depth <= MAX_DEPTH && At(buf, pos, Enc(v)) && r == Dec(buf, pos, depth)
    ensures r.Ok? ==> r.value != v
    decreases v, 0
  {
    match v
    case List(xs) =>
      var p := HeaderThenBody(buf, pos, |xs|, 0x90, 0xD4, EncAll(xs), Enc(v));
      WideList(buf, pos, depth, xs, p, r);
    case Map(m) =>
      var p := HeaderThenBody(buf, pos, |m|, 0xA0, 0xD8, EncPairs(m), Enc(v));
      WideMap(buf, pos, depth, m, p, r);
    case Struct(sig, fields) =>
      StructHead(buf, pos, sig, fields, EncAll(fields));
      WideStruct(buf, pos, depth, sig, fields, |fields| % 16, r);
  }

  lemma {:induction false} WideList(buf: Bytes, pos: nat, depth: nat, xs: seq<Value>, p: nat, r: Res<Value>)
    requires AllPlain(xs) && !AllTiny(xs) && depth <= MAX_DEPTH && pos <= |buf|
    requires DecHead(buf, pos) == Ok(ListOf(|xs|), p) && At(buf, p, EncAll(xs)) && r == Dec(buf, pos, depth)
    ensures r.Ok? ==> r.value != List(xs)
    decreases xs, 2
  {
    DecDeep(buf, pos, depth, ListOf(|xs|), p, r);
    if depth < MAX_DEPTH {
      var w := DecMany(buf, p, |xs|, depth + 1);
      WideAmong(buf, p, depth + 1, xs, w);
      DecList(buf, pos, depth, |xs|, p, w, r);
    }
  }

  lemma {:induction false} WideMap(buf: Bytes, pos: nat, depth: nat, m: seq<Pair>, p: nat, r: Res<Value>)
    requires Sorted(m) && PairsPlain(m) && !PairsTiny(m) && depth <= MAX_DEPTH && pos <= |buf|
    requires DecHead(buf, pos) == Ok(DictOf(|m|), p) && At(buf, p, EncPairs(m)) && r == Dec(buf, pos, depth)
    ensures r.Ok? ==> r.value != Map(m)
    decreases m, 2
  {
    DecDeep(buf, pos, depth, DictOf(|m|), p, r);
    if depth < MAX_DEPTH {
      var w := DecPairs(buf, p, |m|, depth + 1, []);
      assert [] + m == m;
      WideInPairs(buf, p, depth + 1, [], m, m, w);
      DecDict(buf, pos, depth, |m|, p, w, r);
    }
  }

  lemma {:induction false} WideStruct(buf: Bytes, pos: nat, depth: nat, sig: byte, fields: seq<Value>, n: nat, r: Res<Value>)
    requires AllPlain(fields) && (|fields| > 15 || !AllTiny(fields)) && depth <= MAX_DEPTH && pos + 1 < |buf|
    requires n <= 15 && (|fields| <= 15 ==> n == |fields|)
    requires DecHead(buf, pos) == Ok(StructOf(n), pos + 1) && At(buf, pos + 2, EncAll(fields)) && r == Dec(buf, pos, depth)
    ensures r.Ok? ==> r.value != Struct(sig, fields)
    decreases fields, 2
  {
    DecDeep(buf, pos, depth, StructOf(n), pos + 1, r);
    if depth < MAX_DEPTH {
      var w := DecMany(buf, pos + 2, n, depth + 1);
      if |fields| <= 15 {
        WideAmong(buf, pos + 2, depth + 1, fields, w);
      }
      DecStructure(buf, pos, depth, n, pos + 1, w, r);
    }
  }

  lemma {:induction false} WideAmong(buf: Bytes, pos: nat, depth: nat, xs: seq<Value>, r: Res<seq<Value>>)
    requires AllPlain(xs) && !AllTiny(xs) && depth <= MAX_DEPTH && At(buf, pos, EncAll(xs)) && r == DecMany(buf, pos, |xs|, depth)
    ensures r.Ok? ==> r.value != xs
    decreases xs, 1
  {
    var p := AllBytes(buf, pos, xs);
    if Tiny(xs[0]) {
      DecEnc(buf, pos, depth, xs[0]);
      WideAmong(buf, p, depth, xs[1..], DecMany(buf, p, |xs| - 1, depth));
      RestDiffers(buf, pos, depth, xs, p, r);
    } else {
      WideIsLost(buf, pos, depth, xs[0], Dec(buf, pos, depth));
      FirstDiffers(buf, pos, depth, xs, r);
    }
  }

  lemma RestDiffers(buf: Bytes, pos: nat, depth: nat, xs: seq<Value>, p: nat, r: Res<seq<Value>>)
    requires xs != [] && pos <= |buf| && p <= |buf| && r == DecMany(buf, pos, |xs|, depth)
    requires Dec(buf, pos, depth).Ok? ==> Dec(buf, pos, depth) == Ok(xs[0], p)
    requires DecMany(buf, p, |xs| - 1, depth).Ok? ==> DecMany(buf, p, |xs| - 1, depth).value != xs[1..]
    ensures r.Ok? ==> r.value != xs
  {
    var x, others := Dec(buf, pos, depth), DecMany(buf, p, |xs| - 1, depth);
    DecNext(buf, pos, |xs|, depth, x, others, r);
    NotThose(xs, x, others, r);
  }

  lemma FirstDiffers(buf: Bytes, pos: nat, depth: nat, xs: seq<Value>, r: Res<seq<Value>>)
    requires xs != [] && pos <= |buf| && r == DecMany(buf, pos, |xs|, depth)
    requires Dec(buf, pos, depth).Ok? ==> Dec(buf, pos, depth).value != xs[0]
    ensures r.Ok? ==> r.value != xs
  {
    var x := Dec(buf, pos, depth);
    var others := if x.Ok? then DecMany(buf, x.pos, |xs| - 1, depth) else r;
    DecNext(buf, pos, |xs|, depth, x, others, r);
    NotThose(xs, x, others, r);
  }

  lemma NotThose(xs: seq<Value>, x: Res<Value>, others: Res<seq<Value>>, r: Res<seq<Value>>)
    requires xs != [] && (x.Ok? && others.Ok? ==> x.value != xs[0] || others.value != xs[1..])
    requires r == if x.Fail? then Fail(x.error) else if others.Fail? then Fail(others.error) else Ok([x.value] + others.value, others.pos)
    ensures r.Ok? ==> r.value != xs
  {
    if x.Ok? && others.Ok? {
      ConsParts(x.value, others.value);
    }
  }

  lemma ConsParts(x: Value, xs: seq<Value>)
    ensures ([x] + xs)[0] == x && ([x] + xs)[1..] == xs
  {
  }

  /** One value per key. */
  lemma SortedOnce(m: seq<Pair>, x: Pair, y: Pair)
    requires Sorted(m) && x in m && y in m && x.key == y.key
    ensures x == y
  {
    var i :| 0 <= i < |m| && m[i] == x;
    var j :| 0 <= j < |m| && m[j] == y;
    if i < j {
      SortedApart(m, i, j);
    } else if j < i {
      SortedApart(m, j, i);
    }
  }

  lemma SortedApart(m: seq<Pair>, i: nat, j: nat)
    requires Sorted(m) && i < j < |m|
    ensures m[i].key != m[j].key
  {
    BelowIrreflexive(m[i].key);
  }

  lemma {:induction false} WideInPairs(buf: Bytes, pos: nat, depth: nat, made: seq<Pair>, rest: seq<Pair>, all: seq<Pair>, r: Res<seq<Pair>>)
    requires all == made + rest && Sorted(all) && PairsPlain(rest) && !PairsTiny(rest)
    requires depth <= MAX_DEPTH && At(buf, pos, EncPairs(rest)) && r == DecPairs(buf, pos, |rest|, depth, made)
    ensures r.Ok? ==> r.value != all
    decreases rest, 1
  {
    var p, q := PairBytes(buf, pos, rest);
    StrReads(buf, pos, depth, rest[0].key, Dec(buf, pos, depth));
    if Tiny(rest[0].val) {
      var next := InsertNext(made, rest, all);
      DecEnc(buf, p, depth, rest[0].val);
      var others := DecPairs(buf, q, |rest| - 1, depth, next);
      WideInPairs(buf, q, depth, next, rest[1..], all, others);
      RightEntry(buf, pos, depth, made, rest, next, all, p, q, others, r);
    } else {
      WideIsLost(buf, p, depth, rest[0].val, Dec(buf, p, depth));
      WrongValue(buf, pos, depth, made, rest, all, p, r);
    }
  }

  lemma RightEntry(buf: Bytes, pos: nat, depth: nat, made: seq<Pair>, rest: seq<Pair>, next: seq<Pair>, all: seq<Pair>,
                   p: nat, q: nat, others: Res<seq<Pair>>, r: Res<seq<Pair>>)
    requires rest != [] && pos <= |buf| && p <= |buf| && q <= |buf|
    requires next == InsertPair(made, rest[0].key, rest[0].val)
    requires Dec(buf, pos, depth) == Ok(Str(rest[0].key), p)
    requires Dec(buf, p, depth).Ok? ==> Dec(buf, p, depth) == Ok(rest[0].val, q)
    requires others == DecPairs(buf, q, |rest| - 1, depth, next) && (others.Ok? ==> others.value != all)
    requires r == DecPairs(buf, pos, |rest|, depth, made)
    ensures r.Ok? ==> r.value != all
  {
    DecPair(buf, pos, |rest|, depth, made, Dec(buf, pos, depth), Dec(buf, p, depth), r);
  }

  lemma WrongValue(buf: Bytes, pos: nat, depth: nat, made: seq<Pair>, rest: seq<Pair>, all: seq<Pair>, p: nat, r: Res<seq<Pair>>)
    requires rest != [] && all == made + rest && Sorted(all) && pos <= |buf| && p <= |buf|
    requires Dec(buf, pos, depth) == Ok(Str(rest[0].key), p)
    requires Dec(buf, p, depth).Ok? ==> Dec(buf, p, depth).value != rest[0].val
    requires r == DecPairs(buf, pos, |rest|, depth, made)
    ensures r.Ok? ==> r.value != all
  {
    var v := Dec(buf, p, depth);
    DecPair(buf, pos, |rest|, depth, made, Dec(buf, pos, depth), v, r);
    if v.Ok? {
      WrongEntry(buf, v.pos, depth, made, rest, all, v.value, r);
    }
  }

  /** A wrong value under a key stays, or the dictionary ends up too small. */
  lemma WrongEntry(buf: Bytes, pos: nat, depth: nat, made: seq<Pair>, rest: seq<Pair>, all: seq<Pair>, v: Value, r: Res<seq<Pair>>)
    requires rest != [] && all == made + rest && Sorted(all) && pos <= |buf| && v != rest[0].val
    requires r == DecPairs(buf, pos, |rest| - 1, depth, InsertPair(made, rest[0].key, v))
    ensures r.Ok? ==> r.value != all
  {
    var k := rest[0].key;
    BeforeFirst(made, rest, all);
    InsertLast(made, k, v);
    PairsKept(buf, pos, |rest| - 1, depth, made + [Pair(k, v)], Pair(k, v));
    assert Pair(k, v) in made + [Pair(k, v)];
    assert rest[0] == all[|made|];
    if r.Ok? && r.value == all {
      SortedOnce(all, Pair(k, v), rest[0]);
    }
  }

  lemma BeforeFirst(made: seq<Pair>, rest: seq<Pair>, all: seq<Pair>)
    requires rest != [] && all == made + rest && Sorted(all)
    ensures forall i :: 0 <= i < |made| ==> Below(made[i].key, rest[0].key)
  {
    assert all[|made|] == rest[0];
    forall i | 0 <= i < |made| ensures Below(made[i].key, rest[0].key) {
      assert all[i] == made[i];
    }
  }

  /** A value comes back, whatever bytes follow it, exactly if no structure in it has more than 15 fields and it nests
      no deeper than 64. */
  lemma RoundTripsExactly(v: Value, rest: Bytes)
    requires Plain(v)
    ensures Dec(Enc(v) + rest, 0, 0) == Ok(v, |Enc(v)|) <==> Tiny(v) && Nest(v) <= 64
  {
    var buf := Enc(v) + rest;
    assert buf[0..|Enc(v)|] == Enc(v);
    if Tiny(v) {
      DecEnc(buf, 0, 0, v);
    } else {
      WideIsLost(buf, 0, 0, v, Dec(buf, 0, 0));
    }
  }

  // ---------------------------------------------------------------- any bytes at all

  lemma {:induction false} NatBound(b: Bytes)
    ensures Nat(b) < Pow256(|b|)
  {
    if b != [] {
      NatBound(b[..|b| - 1]);
    }
  }

  lemma ScalarIsPlain(buf: Bytes, pos: nat)
    requires var h := DecHead(buf, pos); h.Ok? && h.value.Scalar?
    ensures var v := DecHead(buf, pos).value.v; Plain(v) && Tiny(v) && Nest(v) == 0
  {
    PowValues();
    var m := buf[pos];
    if m == 0xC8 {
      NatBound(buf[pos + 1..pos + 2]);
    } else if m == 0xC9 {
      NatBound(buf[pos + 1..pos + 3]);
    } else if m == 0xCA {
      NatBound(buf[pos + 1..pos + 5]);
    } else if m == 0xCB {
      NatBound(buf[pos + 1..pos + 9]);
    }
  }

  lemma StructIsTiny(buf: Bytes, pos: nat)
    requires var h := DecHead(buf, pos); h.Ok? && h.value.StructOf?
    ensures DecHead(buf, pos).value.n <= 15
  {
  }

  /** A message short enough that no length in it can overflow 32 bits, even with every byte replaced. */
  predicate Short(buf: Bytes)
  {
    3 * |buf| < 0x1_0000_0000
  }

  lemma TextIsPlain(buf: Bytes, pos: nat, n: nat)
    requires Short(buf) && pos <= |buf| && DecStr(buf, pos, n).Ok?
    ensures PlainStr(DecStr(buf, pos, n).value.s)
  {
    LossyIsValid(buf[pos..pos + n]);
  }

  lemma {:induction false} InsertSorted(m: seq<Pair>, k: Bytes, v: Value)
    requires Sorted(m)
    ensures Sorted(InsertPair(m, k, v))
    ensures forall x :: x in InsertPair(m, k, v) ==> x == Pair(k, v) || x in m
    decreases |m|
  {
    if m == [] {
    } else if Below(k, m[0].key) {
      var out := [Pair(k, v)] + m;
      forall j | 0 < j < |out| ensures Below(k, out[j].key) {
        if j > 1 { BelowTransitive(k, m[0].key, m[j - 1].key); }
      }
    } else if m[0].key != k {
      BelowTotal(k, m[0].key);
      InsertSorted(m[1..], k, v);
      var rest := InsertPair(m[1..], k, v);
      forall j | 0 <= j < |rest| ensures Below(m[0].key, rest[j].key) {
        assert rest[j] in rest;
      }
    }
  }

  lemma {:induction false} InsertPlain(m: seq<Pair>, k: Bytes, v: Value)
    requires PairsPlain(m) && PairsTiny(m) && PlainStr(k) && Plain(v) && Tiny(v)
    ensures var out := InsertPair(m, k, v); PairsPlain(out) && PairsTiny(out) && NestPairs(out) <= Max(NestPairs(m), Nest(v))
    decreases |m|
  {
    if m == [] || Below(k, m[0].key) {
      PairsCons(Pair(k, v), m);
    } else if m[0].key == k {
      PairsCons(Pair(k, v), m[1..]);
    } else {
      InsertPlain(m[1..], k, v);
      PairsCons(m[0], InsertPair(m[1..], k, v));
    }
  }

  lemma InsertIsSound(m: seq<Pair>, k: Bytes, v: Value, out: seq<Pair>)
    requires out == InsertPair(m, k, v) && Sorted(m) && PairsPlain(m) && PairsTiny(m) && PlainStr(k) && Plain(v) && Tiny(v)
    ensures Sorted(out) && PairsPlain(out) && PairsTiny(out) && NestPairs(out) <= Max(NestPairs(m), Nest(v)) && |out| <= |m| + 1
  {
    InsertSorted(m, k, v);
    InsertPlain(m, k, v);
    InsertSize(m, k, v, Pair(k, v));
  }

  lemma PairsCons(x: Pair, m: seq<Pair>)
    requires PlainStr(x.key) && Plain(x.val) && Tiny(x.val) && PairsPlain(m) && PairsTiny(m)
    ensures PairsPlain([x] + m) && PairsTiny([x] + m) && NestPairs([x] + m) == Max(Nest(x.val), NestPairs(m))
  {
    assert ([x] + m)[1..] == m;
  }

  lemma AllCons(x: Value, xs: seq<Value>)
    requires Plain(x) && Tiny(x) && AllPlain(xs) && AllTiny(xs)
    ensures AllPlain([x] + xs) && AllTiny([x] + xs) && NestAll([x] + xs) == Max(Nest(x), NestAll(xs))
  {
    assert ([x] + xs)[1..] == xs;
  }

  /** Whatever decodes is a value of the types, nested at most 64 deep, and would come back if encoded again. */
  lemma {:induction false} DecodedIsSound(buf: Bytes, pos: nat, depth: nat, r: Res<Value>)
    requires Short(buf) && pos <= |buf| && depth <= MAX_DEPTH && r == Dec(buf, pos, depth) && r.Ok?
    ensures Plain(r.value) && Tiny(r.value) && depth + Nest(r.value) <= MAX_DEPTH
    decreases |buf| - pos, 0
  {
    var h := DecHead(buf, pos);
    match h.value
    case Scalar(v) => ScalarIsPlain(buf, pos); DecScalar(buf, pos, depth, v, h.pos, r);
    case StrOf(n) => DecString(buf, pos, depth, n, h.pos, r); TextIsPlain(buf, h.pos, n);
    case ListOf(n) =>
      DecDeep(buf, pos, depth, h.value, h.pos, r);
      ListIsSound(buf, pos, depth, n, h.pos, r);
    case DictOf(n) =>
      DecDeep(buf, pos, depth, h.value, h.pos, r);
      DictIsSound(buf, pos, depth, n, h.pos, r);
    case StructOf(n) =>
      DecDeep(buf, pos, depth, h.value, h.pos, r);
      StructIsTiny(buf, pos);
      StructureIsSound(buf, pos, depth, n, h.pos, r);
  }

  lemma {:induction false} ListIsSound(buf: Bytes, pos: nat, depth: nat, n: nat, p: nat, r: Res<Value>)
    requires Short(buf) && pos < p <= |buf| && depth < MAX_DEPTH && DecHead(buf, pos) == Ok(ListOf(n), p)
    requires r == Dec(buf, pos, depth) && r.Ok?
    ensures Plain(r.value) && Tiny(r.value) && depth + Nest(r.value) <= MAX_DEPTH
    decreases |buf| - p, 2 + n
  {
    var w := DecMany(buf, p, n, depth + 1);
    DecList(buf, pos, depth, n, p, w, r);
    ManyAreSound(buf, p, n, depth + 1, w);
  }

  lemma {:induction false} DictIsSound(buf: Bytes, pos: nat, depth: nat, n: nat, p: nat, r: Res<Value>)
    requires Short(buf) && pos < p <= |buf| && depth < MAX_DEPTH && DecHead(buf, pos) == Ok(DictOf(n), p)
    requires r == Dec(buf, pos, depth) && r.Ok?
    ensures Plain(r.value) && Tiny(r.value) && depth + Nest(r.value) <= MAX_DEPTH
    decreases |buf| - p, 2 + n
  {
    var w := DecPairs(buf, p, n, depth + 1, []);
    DecDict(buf, pos, depth, n, p, w, r);
    PairsAreSound(buf, p, n, depth + 1, [], w);
  }

  lemma {:induction false} StructureIsSound(buf: Bytes, pos: nat, depth: nat, n: nat, p: nat, r: Res<Value>)
    requires Short(buf) && pos < p <= |buf| && depth < MAX_DEPTH && DecHead(buf, pos) == Ok(StructOf(n), p) && n <= 15
    requires r == Dec(buf, pos, depth) && r.Ok?
    ensures Plain(r.value) && Tiny(r.value) && depth + Nest(r.value) <= MAX_DEPTH
    decreases |buf| - p, 0
  {
    if p < |buf| {
      var w := DecMany(buf, p + 1, n, depth + 1);
      DecStructure(buf, pos, depth, n, p, w, r);
      ManyAreSound(buf, p + 1, n, depth + 1, w);
    }
  }

  lemma {:induction false} ManyAreSound(buf: Bytes, pos: nat, n: nat, depth: nat, r: Res<seq<Value>>)
    requires Short(buf) && pos <= |buf| && depth <= MAX_DEPTH && r == DecMany(buf, pos, n, depth) && r.Ok?
    ensures AllPlain(r.value) && AllTiny(r.value) && depth + NestAll(r.value) <= MAX_DEPTH && |r.value| == n <= |buf|
    decreases |buf| - pos, 1 + n
  {
    if n > 0 {
      var x := Dec(buf, pos, depth);
      var xs := if x.Ok? then DecMany(buf, x.pos, n - 1, depth) else r;
      DecNext(buf, pos, n, depth, x, xs, r);
      DecodedIsSound(buf, pos, depth, x);
      ManyAreSound(buf, x.pos, n - 1, depth, xs);
      AllCons(x.value, xs.value);
    }
  }

  lemma PairRead(buf: Bytes, pos: nat, n: nat, depth: nat, m: seq<Pair>, r: Res<seq<Pair>>)
      returns (k: Bytes, p: nat, v: Value, q: nat, next: seq<Pair>)
    requires pos <= |buf| && n > 0 && r == DecPairs(buf, pos, n, depth, m) && r.Ok?
    ensures pos < p < q <= |buf| && Dec(buf, pos, depth) == Ok(Str(k), p) && Dec(buf, p, depth) == Ok(v, q)
    ensures next == InsertPair(m, k, v) && r == DecPairs(buf, q, n - 1, depth, next)
  {
    var x := Dec(buf, pos, depth);
    var y := if x.Ok? then Dec(buf, x.pos, depth) else x;
    DecPair(buf, pos, n, depth, m, x, y, r);
    k, p, v, q := x.value.s, x.pos, y.value, y.pos;
    next := InsertPair(m, k, v);
  }

  lemma {:induction false} PairsAreSound(buf: Bytes, pos: nat, n: nat, depth: nat, m: seq<Pair>, r: Res<seq<Pair>>)
    requires Short(buf) && pos <= |buf| && depth <= MAX_DEPTH && r == DecPairs(buf, pos, n, depth, m) && r.Ok?
    requires Sorted(m) && PairsPlain(m) && PairsTiny(m) && depth + NestPairs(m) <= MAX_DEPTH
    ensures Sorted(r.value) && PairsPlain(r.value) && PairsTiny(r.value) && depth + NestPairs(r.value) <= MAX_DEPTH
    ensures |r.value| <= |m| + n && n <= |buf|
    decreases |buf| - pos, 1 + n
  {
    if n > 0 {
      var k, p, v, q, next := PairRead(buf, pos, n, depth, m, r);
      DecodedIsSound(buf, pos, depth, Dec(buf, pos, depth));
      DecodedIsSound(buf, p, depth, Dec(buf, p, depth));
      InsertIsSound(m, k, v, next);
      PairsAreSound(buf, q, n - 1, depth, next, r);
    }
  }

  /** Whatever is read can be written and read again. */
  lemma DecodedRoundTrips(buf: Bytes, pos: nat, rest: Bytes)
    requires Short(buf) && pos <= |buf| && Dec(buf, pos, 0).Ok?
    ensures var v := Dec(buf, pos, 0).value; Dec(Enc(v) + rest, 0, 0) == Ok(v, |Enc(v)|)
  {
    var r := Dec(buf, pos, 0);
    DecodedIsSound(buf, pos, 0, r);
    RoundTripsExactly(r.value, rest);
  }
}
