/**
 The encoder over its output vector, and the decoder over its buffer, position and
 depth.

 Each method of the decoder agrees with the function that specifies it: on success
 it returns that function's value with `pos` at its end and `depth` as it was, on a
 failure the same error.  What decoding means, and that it undoes encoding, is
 proved about the functions; here the loops are shown to compute them, never to read
 past the buffer, never to reserve room that the bytes left could not fill, and to
 end.
 */
module PackStreamCodec {
  import opened Sequences
  import opened Utf8
  import opened PackStream
  import opened PackStreamRoundTrip

  // ---------------------------------------------------------------- encode

  lemma {:induction false} EncAllSnoc(xs: seq<Value>, i: nat)
    requires i < |xs|
    ensures EncAll(xs[..i + 1]) == EncAll(xs[..i]) + Enc(xs[i])
  {
    if i == 0 {
      assert xs[..1][1..] == [];
    } else {
      EncAllSnoc(xs[1..], i - 1);
      assert xs[..i + 1][1..] == xs[1..][..i] && xs[..i][1..] == xs[1..][..i - 1];
      Assoc(Enc(xs[0]), EncAll(xs[1..][..i - 1]), Enc(xs[i]));
    }
  }

  lemma {:induction false} EncPairsSnoc(m: seq<Pair>, i: nat)
    requires i < |m|
    ensures EncPairs(m[..i + 1]) == EncPairs(m[..i]) + (EncStr(m[i].key) + Enc(m[i].val))
  {
    if i == 0 {
      assert m[..1][1..] == [];
    } else {
      EncPairsSnoc(m[1..], i - 1);
      assert m[..i + 1][1..] == m[1..][..i] && m[..i][1..] == m[1..][..i - 1];
      Assoc(EncStr(m[0].key) + Enc(m[0].val), EncPairs(m[1..][..i - 1]), EncStr(m[i].key) + Enc(m[i].val));
    }
  }

  lemma Pushed(out: Bytes, a: byte, b: byte, rest: Bytes)
    ensures ((out + [a]) + [b]) + rest == out + ([a, b] + rest)
  {
  }

  /** `encode` appends to `out`. */
  class Writer {
    var out: Bytes

    constructor ()
      ensures out == []
    {
      out := [];
    }

    method Encode(v: Value)
      modifies this
      ensures out == old(out) + Enc(v)
      decreases v, 0
    {
      match v
      case Null => out := out + [0xC0];
      case Bool(b) => out := out + [if b then 0xC3 else 0xC2];
      case Float(bits) =>
        Assoc(out, [0xC1], bits);
        out := out + [0xC1];
        out := out + bits;
      case Int(i) => EncodeInt(i);
      case Str(s) => EncodeStr(s);
      case List(xs) =>
        Assoc(out, EncHeader(|xs|, 0x90, 0xD4), EncAll(xs));
        EncodeHeader(|xs|, 0x90, 0xD4);
        EncodeAll(xs);
      case Map(m) =>
        Assoc(out, EncHeader(|m|, 0xA0, 0xD8), EncPairs(m));
        EncodeHeader(|m|, 0xA0, 0xD8);
        EncodePairs(m);
      case Struct(sig, fields) =>
        ghost var marker := 0xB0 + |fields| % 16;
        Pushed(out, marker, sig, EncAll(fields));
        out := out + [0xB0 + |fields| % 16];
        out := out + [sig];
        EncodeAll(fields);
    }

    method EncodeAll(xs: seq<Value>)
      modifies this
      ensures out == old(out) + EncAll(xs)
      decreases xs, 1
    {
      var i := 0;
      while i < |xs|
        invariant 0 <= i <= |xs|
        invariant out == old(out) + EncAll(xs[..i])
      {
        EncAllSnoc(xs, i);
        Assoc(old(out), EncAll(xs[..i]), Enc(xs[i]));
        Encode(xs[i]);
        i := i + 1;
      }
      assert xs[..i] == xs;
    }

    method EncodePairs(m: seq<Pair>)
      modifies this
      ensures out == old(out) + EncPairs(m)
      decreases m, 1
    {
      var i := 0;
      while i < |m|
        invariant 0 <= i <= |m|
        invariant out == old(out) + EncPairs(m[..i])
      {
        EncPairsSnoc(m, i);
        Assoc(old(out), EncPairs(m[..i]), EncStr(m[i].key) + Enc(m[i].val));
        Assoc(out, EncStr(m[i].key), Enc(m[i].val));
        EncodeStr(m[i].key);
        Encode(m[i].val);
        i := i + 1;
      }
      assert m[..i] == m;
    }

    method EncodeStr(s: Bytes)
      modifies this
      ensures out == old(out) + EncStr(s)
    {
      EncodeHeader(|s|, 0x80, 0xD0);
      out := out + s;
    }

    method EncodeInt(i: int)
      modifies this
      ensures out == old(out) + EncInt(i)
    {
      if -16 <= i <= 127 {
        out := out + [i % 256];
      } else if -128 <= i <= 127 {
        out := out + [0xC8, i % 256];
      } else if -32_768 <= i <= 32_767 {
        out := out + ([0xC9] + BeInt(i, 2));
      } else if -2_147_483_648 <= i <= 2_147_483_647 {
        out := out + ([0xCA] + BeInt(i, 4));
      } else {
        out := out + ([0xCB] + BeInt(i, 8));
      }
    }

    method EncodeHeader(len: nat, tiny: byte, base: byte)
      requires tiny <= 240 && base <= 250
      modifies this
      ensures out == old(out) + EncHeader(len, tiny, base)
    {
      if len < 16 {
        out := out + [tiny + len];
      } else if len < 256 {
        out := out + [base, len];
      } else if len < 65_536 {
        out := out + ([base + 1] + Be(len, 2));
      } else {
        out := out + ([base + 2] + Be(len, 4));
      }
    }
  }

  // ---------------------------------------------------------------- decode

  datatype Result<+T> = Good(value: T) | Bad(error: Error)

  /** What the specification's result means for a reader now at `pos`. */
  ghost predicate Agrees<T>(r: Result<T>, spec: Res<T>, pos: nat, depth: nat, depth0: nat)
  {
    match spec
    case Ok(v, p) => r == Good(v) && pos == p && depth == depth0
    case Fail(e) => r == Bad(e)
  }

  /** The values read so far, then the rest. */
  ghost function Then(xs: seq<Value>, rest: Res<seq<Value>>): Res<seq<Value>>
  {
    if rest.Ok? then Ok(xs + rest.value, rest.pos) else rest
  }

  lemma ManyTurn(buf: Bytes, pos: nat, n: nat, depth: nat, xs: seq<Value>, x: Res<Value>)
    requires pos <= |buf| && n > 0 && x == Dec(buf, pos, depth)
    ensures x.Ok? ==> Then(xs, DecMany(buf, pos, n, depth)) == Then(xs + [x.value], DecMany(buf, x.pos, n - 1, depth))
    ensures x.Fail? ==> Then(xs, DecMany(buf, pos, n, depth)) == Fail(x.error)
  {
    if x.Ok? {
      var rest := DecMany(buf, x.pos, n - 1, depth);
      DecNext(buf, pos, n, depth, x, rest, DecMany(buf, pos, n, depth));
      if rest.Ok? {
        assert xs + ([x.value] + rest.value) == (xs + [x.value]) + rest.value;
      }
    }
  }

  lemma ManyDone(buf: Bytes, pos: nat, depth: nat, xs: seq<Value>)
    requires pos <= |buf|
    ensures Then(xs, DecMany(buf, pos, 0, depth)) == Ok(xs, pos)
  {
    assert xs + [] == xs;
  }

  class Reader {
    const buf: Bytes
    var pos: nat
    var depth: nat

    ghost predicate Valid()
      reads this
    {
      pos <= |buf| && depth <= MAX_DEPTH
    }

    constructor (buf: Bytes)
      ensures this.buf == buf && pos == 0 && depth == 0 && Valid()
    {
      this.buf, pos, depth := buf, 0, 0;
    }

    /** True if one more container may be entered. */
    method Enter() returns (ok: bool)
      requires Valid()
      modifies this`depth
      ensures depth == old(depth) + 1 && ok == (old(depth) < MAX_DEPTH)
    {
      depth := depth + 1;
      ok := depth <= MAX_DEPTH;
    }

    /** Room for no more members than there are bytes left to hold them. */
    function Reserve(n: nat, bytesEach: nat): (room: nat)
      reads this
      ensures room <= n && (pos <= |buf| ==> room <= |buf| - pos)
      ensures bytesEach <= 1 && pos <= |buf| && n <= |buf| - pos ==> room == n
    {
      var left := if pos <= |buf| then |buf| - pos else 0;
      var each := if bytesEach < 1 then 1 else bytesEach;
      Quotient(left, each);
      if n < left / each then n else left / each
    }

    method TakeBytes(n: nat) returns (r: Result<Bytes>)
      requires pos <= |buf|
      modifies this`pos
      ensures pos <= |buf| && Agrees(r, Take(buf, old(pos), n), pos, depth, depth)
      ensures r.Bad? ==> pos == old(pos)
    {
      var end := pos + n;
      if end > |buf| {
        return Bad(ShortRead);
      }
      r := Good(buf[pos..end]);
      pos := end;
    }

    method ReadWide(k: nat) returns (r: Result<Head>)
      requires pos <= |buf| && k > 0
      modifies this`pos
      ensures pos <= |buf| && Agrees(r, Wide(buf, old(pos), k), pos, depth, depth)
    {
      var b := TakeBytes(k);
      r := if b.Good? then Good(Scalar(Int(SignedInt(b.value)))) else Bad(b.error);
    }

    method ReadSize(m: byte, base: byte) returns (r: Result<nat>)
      requires pos <= |buf| && m >= base
      modifies this`pos
      ensures pos <= |buf| && Agrees(r, Size(buf, old(pos), m - base), pos, depth, depth)
    {
      var b := TakeBytes(if m == base then 1 else if m == base + 1 then 2 else 4);
      r := if b.Good? then Good(Nat(b.value)) else Bad(b.error);
    }

    method ReadSized(m: byte) returns (r: Result<Head>)
      requires pos <= |buf| && (0xD0 <= m <= 0xD2 || 0xD4 <= m <= 0xD6 || 0xD8 <= m <= 0xDA)
      modifies this`pos
      ensures pos <= |buf| && Agrees(r, Sized(buf, old(pos), m), pos, depth, depth)
    {
      var n := ReadSize(m, if m <= 0xD2 then 0xD0 else if m <= 0xD6 then 0xD4 else 0xD8);
      if n.Bad? {
        return Bad(n.error);
      }
      r := Good(if m <= 0xD2 then StrOf(n.value) else if m <= 0xD6 then ListOf(n.value) else DictOf(n.value));
    }

    /** The marker and what belongs to it. */
    method ReadHead() returns (r: Result<Head>)
      requires pos <= |buf|
      modifies this`pos
      ensures pos <= |buf| && Agrees(r, DecHead(buf, old(pos)), pos, depth, depth)
    {
      if pos == |buf| {
        return Bad(ShortRead);
      }
      var m := buf[pos];
      pos := pos + 1;
      if m == 0xC0 {
        r := Good(Scalar(Null));
      } else if m == 0xC2 || m == 0xC3 {
        r := Good(Scalar(Bool(m == 0xC3)));
      } else if m == 0xC1 {
        var b := TakeBytes(8);
        r := if b.Good? then Good(Scalar(Float(b.value))) else Bad(b.error);
      } else if 0xC8 <= m <= 0xCB {
        r := ReadWide(if m == 0xC8 then 1 else if m == 0xC9 then 2 else if m == 0xCA then 4 else 8);
      } else if m <= 0x7F {
        r := Good(Scalar(Int(m)));
      } else if m >= 0xF0 {
        r := Good(Scalar(Int(m as int - 256)));
      } else if m <= 0x8F {
        r := Good(StrOf(m - 0x80));
      } else if m <= 0x9F {
        r := Good(ListOf(m - 0x90));
      } else if m <= 0xAF {
        r := Good(DictOf(m - 0xA0));
      } else if m <= 0xBF {
        r := Good(StructOf(m - 0xB0));
      } else if 0xD0 <= m <= 0xD2 || 0xD4 <= m <= 0xD6 || 0xD8 <= m <= 0xDA {
        r := ReadSized(m);
      } else {
        r := Bad(UnknownMarker(m));
      }
    }

    /** One value: what the bytes at `pos` say, and on success `pos` at its end and `depth` as before. */
    method ReadValue() returns (r: Result<Value>)
      requires Valid()
      modifies this
      ensures pos <= |buf| && Agrees(r, Dec(buf, old(pos), old(depth)), pos, depth, old(depth))
      decreases |buf| - pos, 0, 0
    {
      var head := ReadHead();
      if head.Bad? {
        return Bad(head.error);
      }
      match head.value
      case Scalar(v) => r := Good(v);
      case StrOf(n) => r := ReadString(n);
      case ListOf(n) => r := ReadList(n);
      case DictOf(n) => r := ReadDict(n);
      case StructOf(n) => r := ReadStruct(n);
    }

    method ReadString(n: nat) returns (r: Result<Value>)
      requires Valid()
      modifies this`pos
      ensures pos <= |buf| && Agrees(r, DecStr(buf, old(pos), n), pos, depth, depth)
    {
      var b := TakeBytes(n);
      r := if b.Good? then Good(Str(Lossy(b.value))) else Bad(b.error);
    }

    /** The loop over the members of a list or a structure. */
    method ReadMany(n: nat) returns (r: Result<seq<Value>>)
      requires Valid()
      modifies this
      ensures pos <= |buf| && Agrees(r, DecMany(buf, old(pos), n, old(depth)), pos, depth, old(depth))
      decreases |buf| - pos, 1
    {
      var room := Reserve(n, 1);
      var xs: seq<Value>, i := [], 0;
      ghost var whole := DecMany(buf, pos, n, depth);
      assert Then(xs, whole) == whole by {
        if whole.Ok? { assert [] + whole.value == whole.value; }
      }
      while i < n
        invariant 0 <= i <= n && old(pos) <= pos <= |buf| && depth == old(depth)
        invariant whole == Then(xs, DecMany(buf, pos, n - i, depth))
      {
        ManyTurn(buf, pos, n - i, depth, xs, Dec(buf, pos, depth));
        var x := ReadValue();
        if x.Bad? {
          return Bad(x.error);
        }
        xs := xs + [x.value];
        i := i + 1;
      }
      ManyDone(buf, pos, depth, xs);
      assert |xs| == n == room;
      r := Good(xs);
    }

    method ReadList(n: nat) returns (r: Result<Value>)
      requires Valid()
      modifies this
      ensures pos <= |buf|
      ensures Agrees(r, if old(depth) >= MAX_DEPTH then Fail(TooDeep)
                        else match DecMany(buf, old(pos), n, old(depth) + 1) { case Ok(xs, q) => Ok(List(xs), q) case Fail(e) => Fail(e) },
                     pos, depth, old(depth))
      decreases |buf| - pos, 2
    {
      var ok := Enter();
      if !ok {
        return Bad(TooDeep);
      }
      var xs := ReadMany(n);
      if xs.Bad? {
        return Bad(xs.error);
      }
      depth := depth - 1;
      r := Good(List(xs.value));
    }

    method ReadStruct(n: nat) returns (r: Result<Value>)
      requires Valid()
      modifies this
      ensures pos <= |buf|
      ensures Agrees(r, if old(depth) >= MAX_DEPTH then Fail(TooDeep)
                        else if old(pos) == |buf| then Fail(ShortRead)
                        else match DecMany(buf, old(pos) + 1, n, old(depth) + 1) {
                               case Ok(xs, q) => Ok(Struct(buf[old(pos)], xs), q) case Fail(e) => Fail(e) },
                     pos, depth, old(depth))
      decreases |buf| - pos, 2
    {
      var ok := Enter();
      if !ok {
        return Bad(TooDeep);
      }
      var sig := TakeBytes(1);
      if sig.Bad? {
        return Bad(sig.error);
      }
      var xs := ReadMany(n);
      if xs.Bad? {
        return Bad(xs.error);
      }
      depth := depth - 1;
      r := Good(Struct(sig.value[0], xs.value));
    }

    method ReadDict(n: nat) returns (r: Result<Value>)
      requires Valid()
      modifies this
      ensures pos <= |buf|
      ensures Agrees(r, if old(depth) >= MAX_DEPTH then Fail(TooDeep)
                        else match DecPairs(buf, old(pos), n, old(depth) + 1, []) { case Ok(m, q) => Ok(Map(m), q) case Fail(e) => Fail(e) },
                     pos, depth, old(depth))
      decreases |buf| - pos, 2
    {
      var ok := Enter();
      if !ok {
        return Bad(TooDeep);
      }
      var m := ReadPairs(n);
      if m.Bad? {
        return Bad(m.error);
      }
      depth := depth - 1;
      r := Good(Map(m.value));
    }

    /** The loop over the entries of a dictionary. */
    method ReadPairs(n: nat) returns (r: Result<seq<Pair>>)
      requires Valid()
      modifies this
      ensures pos <= |buf| && Agrees(r, DecPairs(buf, old(pos), n, old(depth), []), pos, depth, old(depth))
      decreases |buf| - pos, 1
    {
      var m: seq<Pair> := [];
      var left: nat := n;
      ghost var whole := DecPairs(buf, pos, n, depth, []);
      while left > 0
        invariant left <= n && old(pos) <= pos <= |buf| && depth == old(depth)
        invariant whole == DecPairs(buf, pos, left, depth, m)
      {
        var next := ReadEntry(m, left, whole);
        if next.Bad? {
          return Bad(next.error);
        }
        m, left := next.value, left - 1;
      }
      r := Good(m);
      assert whole == Ok(m, pos) by {
        PairsDone(buf, pos, depth, m);
      }
    }

    /** One turn of the loop: the next entry, put into the dictionary. */
    method ReadEntry(m: seq<Pair>, ghost left: nat, ghost whole: Res<seq<Pair>>) returns (r: Result<seq<Pair>>)
      requires Valid() && left > 0 && whole == DecPairs(buf, pos, left, depth, m)
      modifies this
      ensures pos <= |buf| && (r.Bad? ==> whole == Fail(r.error))
      ensures r.Good? ==> old(pos) < pos && depth == old(depth) && whole == DecPairs(buf, pos, left - 1, depth, r.value)
      decreases |buf| - pos, 0, 2
    {
      ghost var e := DecEntry(buf, pos, depth);
      PairTurn(buf, pos, left, depth, m, whole, e);
      var entry := ReadPair();
      r := if entry.Good? then Good(InsertPair(m, entry.value.key, entry.value.val)) else Bad(entry.error);
    }

    /** A key, which has to be a string, and its value. */
    method ReadPair() returns (r: Result<Pair>)
      requires Valid()
      modifies this
      ensures pos <= |buf| && Agrees(r, DecEntry(buf, old(pos), old(depth)), pos, depth, old(depth))
      decreases |buf| - pos, 0, 1
    {
      var k := ReadValue();
      if k.Bad? {
        return Bad(k.error);
      }
      if !k.value.Str? {
        return Bad(NonStringKey(k.value));
      }
      var v := ReadValue();
      if v.Bad? {
        return Bad(v.error);
      }
      r := Good(Pair(k.value.s, v.value));
    }
  }

  ghost function DecEntry(buf: Bytes, pos: nat, depth: nat): (r: Res<Pair>)
    requires pos <= |buf|
    ensures r.Ok? ==> pos < r.pos <= |buf|
  {
    var k := Dec(buf, pos, depth);
    if k.Fail? then Fail(k.error)
    else if !k.value.Str? then Fail(NonStringKey(k.value))
    else
      var v := Dec(buf, k.pos, depth);
      if v.Fail? then Fail(v.error) else Ok(Pair(k.value.s, v.value), v.pos)
  }

  lemma PairsDone(buf: Bytes, pos: nat, depth: nat, m: seq<Pair>)
    requires pos <= |buf|
    ensures DecPairs(buf, pos, 0, depth, m) == Ok(m, pos)
  {
  }

  lemma PairCases(buf: Bytes, pos: nat, n: nat, depth: nat, m: seq<Pair>, whole: Res<seq<Pair>>, k: Res<Value>)
    requires pos <= |buf| && n > 0 && whole == DecPairs(buf, pos, n, depth, m) && k == Dec(buf, pos, depth)
    ensures k.Fail? ==> whole == Fail(k.error)
    ensures k.Ok? && !k.value.Str? ==> whole == Fail(NonStringKey(k.value))
  {
  }

  lemma PairTurn(buf: Bytes, pos: nat, n: nat, depth: nat, m: seq<Pair>, whole: Res<seq<Pair>>, e: Res<Pair>)
    requires pos <= |buf| && n > 0 && whole == DecPairs(buf, pos, n, depth, m) && e == DecEntry(buf, pos, depth)
    ensures e.Fail? ==> whole == Fail(e.error)
    ensures e.Ok? ==> whole == DecPairs(buf, e.pos, n - 1, depth, InsertPair(m, e.value.key, e.value.val))
  {
    var k := Dec(buf, pos, depth);
    PairCases(buf, pos, n, depth, m, whole, k);
    if k.Ok? {
      DecPair(buf, pos, n, depth, m, k, Dec(buf, k.pos, depth), whole);
    }
  }

  lemma Quotient(left: nat, each: nat)
    requires each >= 1
    ensures left / each <= left
  {
    var q := left / each;
    Grows(q, each);
    assert q * each <= left;
  }

  lemma {:induction false} Grows(q: nat, each: nat)
    requires each >= 1
    ensures q * each >= q
  {
    if each > 1 {
      Grows(q, each - 1);
      assert q * each == q * (each - 1) + q;
    }
  }
}
