/** The byte tables of UTF-8 against the code points they encode. */
module Utf8Scalars {
  import opened Utf8

  /** A Unicode scalar value: a code point that is no surrogate. */
  predicate Scalar(c: int)
  {
    0 <= c < 0xD800 || 0xE000 <= c < 0x11_0000
  }

  /** Its encoding: six bits to a byte, from the last one up. */
  function Encode(c: int): Bytes
    requires Scalar(c)
  {
    if c < 0x80 then [c]
    else if c < 0x800 then [0xC0 + c / 64, 0x80 + c % 64]
    else if c < 0x1_0000 then [0xE0 + c / 64 / 64, 0x80 + c / 64 % 64, 0x80 + c % 64]
    else [0xF0 + c / 64 / 64 / 64, 0x80 + c / 64 / 64 % 64, 0x80 + c / 64 % 64, 0x80 + c % 64]
  }

  function EncodeAll(cs: seq<int>): Bytes
    requires forall i :: 0 <= i < |cs| ==> Scalar(cs[i])
  {
    if cs == [] then [] else Encode(cs[0]) + EncodeAll(cs[1..])
  }

  /** The first `k` bytes of `b` begin the encoding of a scalar. */
  ghost predicate Begins(b: Bytes, k: nat)
  {
    exists c :: BeginsWith(b, k, c)
  }

  ghost predicate BeginsWith(b: Bytes, k: nat, c: int)
  {
    Scalar(c) && k <= |b| && k <= |Encode(c)| && b[..k] == Encode(c)[..k]
  }

  lemma EncodedStarts(c: int, rest: Bytes)
    requires Scalar(c)
    ensures var b := Encode(c) + rest; Starts(b) && Good(b) == |Encode(c)|
  {
    var e, b := Encode(c), Encode(c) + rest;
    assert forall i :: 0 <= i < |e| ==> b[i] == e[i];
  }

  lemma SixBits(a: nat, d: nat)
    requires d < 64
    ensures (a * 64 + d) / 64 == a && (a * 64 + d) % 64 == d
  {
  }

  lemma TwoBytes(w: int, x: int) returns (c: int)
    requires 0xC2 <= w < 0xE0 && 0x80 <= x < 0xC0
    ensures Scalar(c) && Encode(c) == [w, x]
  {
    c := (w - 0xC0) * 64 + (x - 0x80);
    SixBits(w - 0xC0, x - 0x80);
  }

  lemma ThreeBytes(w: int, x: int, y: int) returns (c: int)
    requires 0xE0 <= w < 0xF0 && 0 <= x < 256 && SecondOk(w, x) && 0x80 <= y < 0xC0
    ensures Scalar(c) && Encode(c) == [w, x, y]
  {
    var a := (w - 0xE0) * 64 + (x - 0x80);
    c := a * 64 + (y - 0x80);
    SixBits(w - 0xE0, x - 0x80);
    SixBits(a, y - 0x80);
  }

  lemma FourBytes(w: int, x: int, y: int, z: int) returns (c: int)
    requires 0xF0 <= w < 0xF5 && 0 <= x < 256 && SecondOk(w, x) && 0x80 <= y < 0xC0 && 0x80 <= z < 0xC0
    ensures Scalar(c) && Encode(c) == [w, x, y, z]
  {
    var a := (w - 0xF0) * 64 + (x - 0x80);
    var d := a * 64 + (y - 0x80);
    c := d * 64 + (z - 0x80);
    SixBits(w - 0xF0, x - 0x80);
    SixBits(a, y - 0x80);
    SixBits(d, z - 0x80);
  }

  /** The scalar a well-formed start stands for. */
  lemma StartIsEncoded(b: Bytes) returns (c: int)
    requires Starts(b)
    ensures Scalar(c) && Good(b) <= |b| && b[..Good(b)] == Encode(c)
  {
    var n := Good(b);
    if n == 1 {
      c := b[0];
    } else if n == 2 {
      c := TwoBytes(b[0], b[1]);
    } else if n == 3 {
      c := ThreeBytes(b[0], b[1], b[2]);
    } else {
      c := FourBytes(b[0], b[1], b[2], b[3]);
    }
  }

  /** Valid UTF-8 is what encodes a list of scalars. */
  lemma {:induction false} ValidIsEncoded(b: Bytes) returns (cs: seq<int>)
    requires ValidUtf8(b)
    ensures (forall i :: 0 <= i < |cs| ==> Scalar(cs[i])) && EncodeAll(cs) == b
    decreases |b|
  {
    if b == [] {
      cs := [];
    } else {
      var c := StartIsEncoded(b);
      var rest := ValidIsEncoded(b[Good(b)..]);
      cs := [c] + rest;
      assert cs[1..] == rest;
      assert b == b[..Good(b)] + b[Good(b)..];
    }
  }

  lemma {:induction false} EncodedIsValid(cs: seq<int>)
    requires forall i :: 0 <= i < |cs| ==> Scalar(cs[i])
    ensures ValidUtf8(EncodeAll(cs))
  {
    if cs != [] {
      var e, rest := Encode(cs[0]), EncodeAll(cs[1..]);
      EncodedStarts(cs[0], rest);
      EncodedIsValid(cs[1..]);
      assert (e + rest)[|e|..] == rest;
    }
  }

  ghost predicate Encodes(cs: seq<int>, b: Bytes)
  {
    (forall i :: 0 <= i < |cs| ==> Scalar(cs[i])) && EncodeAll(cs) == b
  }

  lemma ValidExactly(b: Bytes)
    ensures ValidUtf8(b) <==> exists cs :: Encodes(cs, b)
  {
    if ValidUtf8(b) {
      var cs := ValidIsEncoded(b);
      assert Encodes(cs, b);
    }
    if cs :| Encodes(cs, b) {
      EncodedIsValid(cs);
    }
  }

  // ---------------------------------------------------------------- the ill-formed

  /** `k` bytes begin a character and no more do. */
  ghost predicate Longest(b: Bytes, k: nat)
  {
    k <= |b| && Begins(b, k) && (k == |b| || !Begins(b, k + 1))
  }

  /** A scalar that begins with the good part. */
  lemma GoodBegins(b: Bytes)
    requires b != [] && !Starts(b)
    ensures Good(b) <= |b| && Begins(b, Good(b))
  {
    var n, w := Good(b), b[0];
    var x: int := if n > 1 then b[1] else if w == 0xE0 then 0xA0 else if w == 0xF0 then 0x90 else 0x80;
    var y: int := if n > 2 then b[2] else 0x80;
    var c := 0;
    if Lead(w) == 2 {
      c := TwoBytes(w, x);
    } else if Lead(w) == 3 {
      c := ThreeBytes(w, x, y);
    } else if Lead(w) == 4 {
      c := FourBytes(w, x, y, 0x80);
    }
    assert BeginsWith(b, n, c);
  }

  lemma GoodIsAll(b: Bytes, c: int)
    requires b != [] && !Starts(b) && Good(b) < |b|
    ensures !BeginsWith(b, Good(b) + 1, c)
  {
    if BeginsWith(b, Good(b) + 1, c) {
      var k := Good(b) + 1;
      assert forall i :: 0 <= i < k ==> b[i] == b[..k][i] == Encode(c)[i];
    }
  }

  lemma StretchIsLongest(b: Bytes, k: nat)
    requires b != [] && !Starts(b)
    ensures Longest(b, k) <==> k == Good(b)
  {
    GoodBegins(b);
    if Good(b) < |b| && Begins(b, Good(b) + 1) {
      var c :| BeginsWith(b, Good(b) + 1, c);
      GoodIsAll(b, c);
    }
    if Longest(b, k) && k < Good(b) {
      Shorter(b, k + 1, Good(b));
    }
    if Longest(b, k) && k > Good(b) {
      Shorter(b, Good(b) + 1, k);
    }
  }

  lemma Shorter(b: Bytes, j: nat, k: nat)
    requires j <= k <= |b| && Begins(b, k)
    ensures Begins(b, j)
  {
    var c :| BeginsWith(b, k, c);
    assert b[..j] == b[..k][..j] == Encode(c)[..k][..j] == Encode(c)[..j];
    assert BeginsWith(b, j, c);
  }

  /** What `from_utf8_lossy` makes of any bytes: a character stays, and where none stands the longest run that begins one,
      or else one byte, becomes a single replacement character. */
  lemma LossyExactly(b: Bytes, c: int, k: nat)
    ensures Scalar(c) && Encode(c) <= b ==> Lossy(b) == Encode(c) + Lossy(b[|Encode(c)|..])
    ensures b != [] && Longest(b, k) && (forall d :: Scalar(d) ==> !(Encode(d) <= b)) ==>
      Lossy(b) == [0xEF, 0xBF, 0xBD] + Lossy(b[if k == 0 then 1 else k..])
    ensures Lossy([]) == []
  {
    if Scalar(c) && Encode(c) <= b {
      EncodedStarts(c, b[|Encode(c)|..]);
      assert b == Encode(c) + b[|Encode(c)|..];
    }
    if b != [] && Longest(b, k) {
      if Starts(b) {
        var d := StartIsEncoded(b);
        assert Encode(d) <= b;
      } else {
        StretchIsLongest(b, k);
      }
    }
  }
}
