/** PackStream: the values Bolt carries, their encoding, and the decoder. */
module PackStream {
  import opened Utf8

  datatype Value =
    | Null
    | Bool(b: bool)
    | Int(i: int)
    | Float(bits: Bytes)
    | Str(s: Bytes)
    | List(xs: seq<Value>)
    | Map(m: seq<Pair>)
    | Struct(sig: byte, fields: seq<Value>)

  datatype Pair = Pair(key: Bytes, val: Value)

  function Pow256(k: nat): (r: nat)
    ensures r > 0
  {
    if k == 0 then 1 else 256 * Pow256(k - 1)
  }

  /** The byte of `n` with `j` bytes below it. */
  function Digit(n: nat, j: nat): byte
  {
    if j == 0 then n % 256 else Digit(n / 256, j - 1)
  }

  /** The last `k` bytes of `n`, big-endian: a cast to `k` bytes and its bytes. */
  function Be(n: nat, k: nat): (r: Bytes)
    ensures |r| == k
  {
    seq(k, i requires 0 <= i < k => Digit(n, k - 1 - i))
  }

  function Nat(b: Bytes): nat
  {
    if b == [] then 0 else 256 * Nat(b[..|b| - 1]) + b[|b| - 1]
  }

  /** Two's complement in `k` bytes. */
  function BeInt(i: int, k: nat): (r: Bytes)
    ensures |r| == k
  {
    Be(i % Pow256(k), k)
  }

  function SignedInt(b: Bytes): int
  {
    if 2 * Nat(b) < Pow256(|b|) then Nat(b) else Nat(b) - Pow256(|b|)
  }

  // ---------------------------------------------------------------- encoding

  function EncHeader(len: nat, tiny: byte, base: byte): Bytes
    requires tiny <= 240 && base <= 250
  {
    if len < 16 then [tiny + len]
    else if len < 256 then [base, len]
    else if len < 65_536 then [base + 1] + Be(len, 2)
    else [base + 2] + Be(len, 4)
  }

  function EncInt(i: int): Bytes
  {
    if -16 <= i <= 127 then [i % 256]
    else if -128 <= i <= 127 then [0xC8, i % 256]
    else if -32_768 <= i <= 32_767 then [0xC9] + BeInt(i, 2)
    else if -2_147_483_648 <= i <= 2_147_483_647 then [0xCA] + BeInt(i, 4)
    else [0xCB] + BeInt(i, 8)
  }

  function EncStr(s: Bytes): Bytes
  {
    EncHeader(|s|, 0x80, 0xD0) + s
  }

  /** The encoding; a structure's field count is cut to four bits. */
  function Enc(v: Value): Bytes
    decreases v, 0
  {
    match v
    case Null => [0xC0]
    case Bool(b) => if b then [0xC3] else [0xC2]
    case Float(bits) => [0xC1] + bits
    case Int(i) => EncInt(i)
    case Str(s) => EncStr(s)
    case List(xs) => EncHeader(|xs|, 0x90, 0xD4) + EncAll(xs)
    case Map(m) => EncHeader(|m|, 0xA0, 0xD8) + EncPairs(m)
    case Struct(sig, fields) => [0xB0 + |fields| % 16, sig] + EncAll(fields)
  }

  function EncAll(xs: seq<Value>): Bytes
    decreases xs, 1
  {
    if xs == [] then [] else Enc(xs[0]) + EncAll(xs[1..])
  }

  function EncPairs(m: seq<Pair>): Bytes
    decreases m, 1
  {
    if m == [] then [] else EncStr(m[0].key) + Enc(m[0].val) + EncPairs(m[1..])
  }

  // ---------------------------------------------------------------- dictionaries

  /** The order of strings: byte by byte. */
  predicate Below(a: Bytes, b: Bytes)
    decreases |b|
  {
    b != [] && (a == [] || a[0] < b[0] || (a[0] == b[0] && Below(a[1..], b[1..])))
  }

  /** `BTreeMap::insert`. */
  function InsertPair(m: seq<Pair>, k: Bytes, v: Value): seq<Pair>
    decreases |m|
  {
    if m == [] || Below(k, m[0].key) then [Pair(k, v)] + m
    else if m[0].key == k then [Pair(k, v)] + m[1..]
    else [m[0]] + InsertPair(m[1..], k, v)
  }

  // ---------------------------------------------------------------- decoding

  const MAX_DEPTH: nat := 64

  datatype Error = ShortRead | TooDeep | UnknownMarker(marker: byte) | NonStringKey(found: Value)

  datatype Res<+T> = Ok(value: T, pos: nat) | Fail(error: Error)

  function Take(buf: Bytes, pos: nat, n: nat): (r: Res<Bytes>)
    ensures r.Ok? ==> r.pos == pos + n <= |buf| && |r.value| == n
  {
    if pos + n > |buf| then Fail(ShortRead) else Ok(buf[pos..pos + n], pos + n)
  }

  /** The length after a marker, in one, two or four bytes. */
  function Size(buf: Bytes, pos: nat, step: nat): (r: Res<nat>)
    ensures r.Ok? ==> pos < r.pos <= |buf|
  {
    match Take(buf, pos, if step == 0 then 1 else if step == 1 then 2 else 4)
    case Ok(b, p) => Ok(Nat(b), p)
    case Fail(e) => Fail(e)
  }

  /** What a marker and the bytes that belong to it announce. */
  datatype Head = Scalar(v: Value) | StrOf(n: nat) | ListOf(n: nat) | DictOf(n: nat) | StructOf(n: nat)

  function Wide(buf: Bytes, pos: nat, k: nat): (r: Res<Head>)
    requires k > 0
    ensures r.Ok? ==> pos < r.pos <= |buf|
  {
    match Take(buf, pos, k)
    case Ok(b, p) => Ok(Scalar(Int(SignedInt(b))), p)
    case Fail(e) => Fail(e)
  }

  function Sized(buf: Bytes, pos: nat, m: byte): (r: Res<Head>)
    requires 0xD0 <= m <= 0xD2 || 0xD4 <= m <= 0xD6 || 0xD8 <= m <= 0xDA
    ensures r.Ok? ==> pos < r.pos <= |buf|
  {
    if m <= 0xD2 then match Size(buf, pos, m - 0xD0) { case Ok(n, p) => Ok(StrOf(n), p) case Fail(e) => Fail(e) }
    else if m <= 0xD6 then match Size(buf, pos, m - 0xD4) { case Ok(n, p) => Ok(ListOf(n), p) case Fail(e) => Fail(e) }
    else match Size(buf, pos, m - 0xD8) { case Ok(n, p) => Ok(DictOf(n), p) case Fail(e) => Fail(e) }
  }

  function DecHead(buf: Bytes, pos: nat): (r: Res<Head>)
    ensures r.Ok? ==> pos < r.pos <= |buf|
  {
    if pos >= |buf| then Fail(ShortRead)
    else
      var m, p := buf[pos], pos + 1;
      if m == 0xC0 then Ok(Scalar(Null), p)
      else if m == 0xC2 then Ok(Scalar(Bool(false)), p)
      else if m == 0xC3 then Ok(Scalar(Bool(true)), p)
      else if m == 0xC1 then match Take(buf, p, 8) { case Ok(b, q) => Ok(Scalar(Float(b)), q) case Fail(e) => Fail(e) }
      else if m == 0xC8 then Wide(buf, p, 1)
      else if m == 0xC9 then Wide(buf, p, 2)
      else if m == 0xCA then Wide(buf, p, 4)
      else if m == 0xCB then Wide(buf, p, 8)
      else if m <= 0x7F then Ok(Scalar(Int(m)), p)
      else if m >= 0xF0 then Ok(Scalar(Int(m as int - 256)), p)
      else if m <= 0x8F then Ok(StrOf(m - 0x80), p)
      else if m <= 0x9F then Ok(ListOf(m - 0x90), p)
      else if m <= 0xAF then Ok(DictOf(m - 0xA0), p)
      else if m <= 0xBF then Ok(StructOf(m - 0xB0), p)
      else if 0xD0 <= m <= 0xD2 || 0xD4 <= m <= 0xD6 || 0xD8 <= m <= 0xDA then Sized(buf, p, m)
      else Fail(UnknownMarker(m))
  }

  /** The value at `pos`, `depth` containers deep. */
  function Dec(buf: Bytes, pos: nat, depth: nat): (r: Res<Value>)
    requires pos <= |buf|
    ensures r.Ok? ==> pos < r.pos <= |buf|
    decreases |buf| - pos, 0
  {
    match DecHead(buf, pos)
    case Fail(e) => Fail(e)
    case Ok(Scalar(v), p) => Ok(v, p)
    case Ok(StrOf(n), p) => DecStr(buf, p, n)
    case Ok(ListOf(n), p) =>
      if depth >= MAX_DEPTH then Fail(TooDeep)
      else match DecMany(buf, p, n, depth + 1) { case Ok(xs, q) => Ok(List(xs), q) case Fail(e) => Fail(e) }
    case Ok(DictOf(n), p) =>
      if depth >= MAX_DEPTH then Fail(TooDeep)
      else match DecPairs(buf, p, n, depth + 1, []) { case Ok(m, q) => Ok(Map(m), q) case Fail(e) => Fail(e) }
    case Ok(StructOf(n), p) =>
      if depth >= MAX_DEPTH then Fail(TooDeep)
      else if p == |buf| then Fail(ShortRead)
      else match DecMany(buf, p + 1, n, depth + 1) { case Ok(xs, q) => Ok(Struct(buf[p], xs), q) case Fail(e) => Fail(e) }
  }

  function DecStr(buf: Bytes, pos: nat, n: nat): (r: Res<Value>)
    requires pos <= |buf|
    ensures r.Ok? ==> r.value.Str? && pos <= r.pos <= |buf|
  {
    match Take(buf, pos, n)
    case Ok(b, q) => Ok(Str(Lossy(b)), q)
    case Fail(e) => Fail(e)
  }

  /** `n` values in a row. */
  function DecMany(buf: Bytes, pos: nat, n: nat, depth: nat): (r: Res<seq<Value>>)
    requires pos <= |buf|
    ensures r.Ok? ==> |r.value| == n && pos + n <= r.pos <= |buf|
    decreases |buf| - pos, 1 + n
  {
    if n == 0 then Ok([], pos)
    else match Dec(buf, pos, depth)
      case Fail(e) => Fail(e)
      case Ok(x, p) =>
        match DecMany(buf, p, n - 1, depth)
        case Fail(e) => Fail(e)
        case Ok(xs, q) => Ok([x] + xs, q)
  }

  /** `n` entries, put into a dictionary as they come. */
  function DecPairs(buf: Bytes, pos: nat, n: nat, depth: nat, m: seq<Pair>): (r: Res<seq<Pair>>)
    requires pos <= |buf|
    ensures r.Ok? ==> pos + 2 * n <= r.pos <= |buf|
    decreases |buf| - pos, 1 + n
  {
    if n == 0 then Ok(m, pos)
    else match Dec(buf, pos, depth)
      case Fail(e) => Fail(e)
      case Ok(k, p) =>
        if !k.Str? then Fail(NonStringKey(k))
        else match Dec(buf, p, depth)
          case Fail(e) => Fail(e)
          case Ok(v, q) => DecPairs(buf, q, n - 1, depth, InsertPair(m, k.s, v))
  }
}
