/** UTF-8 as bytes: what a string may hold, and what `String::from_utf8_lossy` makes of bytes that are not one. */
module Utf8 {

  type byte = b: int | 0 <= b < 256

  type Bytes = seq<byte>

  /** How many bytes a character starting with `b` takes; 0 if none starts so. */
  function Lead(b: byte): nat
  {
    if b < 0x80 then 1
    else if b < 0xC2 then 0
    else if b < 0xE0 then 2
    else if b < 0xF0 then 3
    else if b < 0xF5 then 4
    else 0
  }

  predicate Continues(b: byte)
  {
    0x80 <= b < 0xC0
  }

  /** The second byte: overlong forms, surrogates and code points past the last are shut out. */
  predicate SecondOk(lead: byte, b: byte)
  {
    if lead == 0xE0 then 0xA0 <= b < 0xC0
    else if lead == 0xED then 0x80 <= b < 0xA0
    else if lead == 0xF0 then 0x90 <= b < 0xC0
    else if lead == 0xF4 then 0x80 <= b < 0x90
    else Continues(b)
  }

  /** How far a character goes on well from the start of `b`. */
  function Good(b: Bytes): nat
    requires b != []
  {
    var n := Lead(b[0]);
    if n <= 1 then n
    else if |b| < 2 || !SecondOk(b[0], b[1]) then 1
    else if n == 2 || |b| < 3 || !Continues(b[2]) then 2
    else if n == 3 || |b| < 4 || !Continues(b[3]) then 3
    else 4
  }

  /** A whole character starts `b`. */
  predicate Starts(b: Bytes)
  {
    b != [] && Lead(b[0]) > 0 && Good(b) == Lead(b[0])
  }

  predicate ValidUtf8(b: Bytes)
    decreases |b|
  {
    b == [] || (Starts(b) && Good(b) <= |b| && ValidUtf8(b[Good(b)..]))
  }

  const REPLACEMENT: Bytes := [0xEF, 0xBF, 0xBD]

  /** Each ill-formed stretch, as long as it went well, becomes one replacement character. */
  function Lossy(b: Bytes): Bytes
    decreases |b|
  {
    if b == [] then []
    else if Starts(b) then b[..Good(b)] + Lossy(b[Good(b)..])
    else
      var n := if Good(b) == 0 then 1 else Good(b);
      REPLACEMENT + Lossy(b[n..])
  }

  lemma {:induction false} LossyKeepsValid(b: Bytes)
    requires ValidUtf8(b)
    ensures Lossy(b) == b
    decreases |b|
  {
    if b != [] {
      LossyKeepsValid(b[Good(b)..]);
      assert b == b[..Good(b)] + b[Good(b)..];
    }
  }

  /** A character is recognised by its own bytes, whatever follows. */
  lemma StartsAlone(b: Bytes, rest: Bytes)
    requires Starts(b)
    ensures var c := b[..Good(b)]; Starts(c + rest) && Good(c + rest) == Good(b) == |c|
  {
    var c := b[..Good(b)];
    assert forall i :: 0 <= i < |c| ==> (c + rest)[i] == b[i];
  }

  lemma ValidStep(b: Bytes, rest: Bytes)
    requires Starts(b) && ValidUtf8(rest)
    ensures ValidUtf8(b[..Good(b)] + rest)
  {
    var c := b[..Good(b)];
    StartsAlone(b, rest);
    assert (c + rest)[|c|..] == rest;
  }

  /** Whatever the bytes, what is read is a string. */
  lemma {:induction false} LossyIsValid(b: Bytes)
    ensures ValidUtf8(Lossy(b))
    ensures |Lossy(b)| <= 3 * |b|
    decreases |b|
  {
    if b != [] {
      if Starts(b) {
        LossyIsValid(b[Good(b)..]);
        ValidStep(b, Lossy(b[Good(b)..]));
      } else {
        var n := if Good(b) == 0 then 1 else Good(b);
        LossyIsValid(b[n..]);
        assert Starts(REPLACEMENT) && Good(REPLACEMENT) == 3 && REPLACEMENT[..3] == REPLACEMENT;
        ValidStep(REPLACEMENT, Lossy(b[n..]));
      }
    }
  }
}
