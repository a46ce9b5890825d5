/** Bolt messages in chunks: `write_message`, `read_message`, and everything in between. */
module BoltChunking {
  import opened Sequences
  import opened Utf8
  import opened PackStream
  import opened PackStreamRoundTrip
  import PackStreamCodec

  const MAX_CHUNK: nat := 65_535
  const MAX_MESSAGE: nat := 16 * 1024 * 1024
  const MAX_EMPTY_CHUNKS: nat := 1024

  // ---------------------------------------------------------------- on the wire

  function Chunk(piece: Bytes): Bytes
  {
    Be(|piece|, 2) + piece
  }

  const END: Bytes := [0, 0]

  function Framed(pieces: seq<Bytes>): Bytes
  {
    if pieces == [] then [] else Chunk(pieces[0]) + Framed(pieces[1..])
  }

  function Joined(pieces: seq<Bytes>): Bytes
  {
    if pieces == [] then [] else pieces[0] + Joined(pieces[1..])
  }

  function Noops(k: nat): Bytes
  {
    if k == 0 then [] else END + Noops(k - 1)
  }

  /** Chunks a peer may send: none empty, none longer than its header can say. */
  ghost predicate Chunks(pieces: seq<Bytes>)
  {
    forall i :: 0 <= i < |pieces| ==> 0 < |pieces[i]| <= MAX_CHUNK
  }

  /** `body.chunks(65_535)`. */
  function Split(body: Bytes): (pieces: seq<Bytes>)
    ensures Chunks(pieces)
    decreases |body|
  {
    if body == [] then []
    else if |body| <= MAX_CHUNK then [body]
    else [body[..MAX_CHUNK]] + Split(body[MAX_CHUNK..])
  }

  lemma {:induction false} SplitJoins(body: Bytes)
    ensures Joined(Split(body)) == body && (body != [] ==> Split(body) != [])
    decreases |body|
  {
    if body == [] {
    } else if |body| <= MAX_CHUNK {
      assert [body][1..] == [];
    } else {
      SplitJoins(body[MAX_CHUNK..]);
      assert Split(body)[1..] == Split(body[MAX_CHUNK..]);
      assert body == body[..MAX_CHUNK] + body[MAX_CHUNK..];
    }
  }

  // ---------------------------------------------------------------- reading

  datatype ReadError = Eof | TooManyEmptyChunks | TooLong | Undecodable(error: Error)

  datatype Outcome<+T> = Got(value: T, pos: nat) | Err(error: ReadError)

  /** The reassembly loop, `body` and `empty` as they stand. */
  function ReadBody(s: Bytes, pos: nat, body: Bytes, empty: nat): (r: Outcome<Bytes>)
    ensures r.Got? ==> pos < r.pos <= |s|
    decreases if pos <= |s| then |s| - pos else 0
  {
    if pos + 2 > |s| then Err(Eof)
    else
      var n := Nat(s[pos..pos + 2]);
      if n == 0 then
        if body != [] then Got(body, pos + 2)
        else if empty + 1 > MAX_EMPTY_CHUNKS then Err(TooManyEmptyChunks)
        else ReadBody(s, pos + 2, body, empty + 1)
      else if |body| + n > MAX_MESSAGE then Err(TooLong)
      else if pos + 2 + n > |s| then Err(Eof)
      else ReadBody(s, pos + 2 + n, body + s[pos + 2..pos + 2 + n], empty)
  }

  function ReadMsg(s: Bytes, pos: nat): (r: Outcome<Value>)
    ensures r.Got? ==> pos < r.pos <= |s|
  {
    match ReadBody(s, pos, [], 0)
    case Err(e) => Err(e)
    case Got(body, p) =>
      match Dec(body, 0, 0)
      case Ok(v, _) => Got(v, p)
      case Fail(e) => Err(Undecodable(e))
  }

  // ---------------------------------------------------------------- reassembly

  lemma HeaderNat(n: nat)
    requires n <= MAX_CHUNK
    ensures Nat(Be(n, 2)) == n
  {
    PowValues();
    NatBe(n, 2);
  }

  lemma EndNat()
    ensures Nat(END) == 0
  {
    assert END[..1] == [0] && [0][..0] == [];
    assert Nat([0]) == 256 * Nat([0][..0]) + 0;
  }

  lemma ChunkTurn(s: Bytes, pos: nat, body: Bytes, empty: nat, piece: Bytes, r: Outcome<Bytes>)
    requires 0 < |piece| <= MAX_CHUNK && At(s, pos, Chunk(piece)) && r == ReadBody(s, pos, body, empty)
    ensures r == if |body| + |piece| > MAX_MESSAGE then Err(TooLong) else ReadBody(s, pos + |Chunk(piece)|, body + piece, empty)
  {
    var h := Be(|piece|, 2);
    AtSplit(s, pos, h, piece);
    HeaderNat(|piece|);
  }

  lemma EndTurn(s: Bytes, pos: nat, body: Bytes, empty: nat, r: Outcome<Bytes>)
    requires At(s, pos, END) && r == ReadBody(s, pos, body, empty)
    ensures body != [] ==> r == Got(body, pos + 2)
    ensures body == [] ==> r == if empty + 1 > MAX_EMPTY_CHUNKS then Err(TooManyEmptyChunks) else ReadBody(s, pos + 2, body, empty + 1)
  {
    EndNat();
  }

  lemma {:induction false} PiecesRead(s: Bytes, pos: nat, body: Bytes, empty: nat, pieces: seq<Bytes>)
    requires Chunks(pieces) && At(s, pos, Framed(pieces) + END) && |body| <= MAX_MESSAGE && (body == [] ==> pieces != [])
    ensures ReadBody(s, pos, body, empty)
      == if |body| + |Joined(pieces)| > MAX_MESSAGE then Err(TooLong) else Got(body + Joined(pieces), pos + |Framed(pieces)| + 2)
    decreases |pieces|
  {
    AtSplit(s, pos, Framed(pieces), END);
    var r := ReadBody(s, pos, body, empty);
    if pieces == [] {
      EndTurn(s, pos, body, empty, r);
      assert body + [] == body;
    } else {
      var c, rest := Chunk(pieces[0]), Framed(pieces[1..]);
      Assoc(c, rest, END);
      AtSplit(s, pos, c, rest + END);
      ChunkTurn(s, pos, body, empty, pieces[0], r);
      Assoc(body, pieces[0], Joined(pieces[1..]));
      if |body| + |pieces[0]| <= MAX_MESSAGE {
        PiecesRead(s, pos + |c|, body + pieces[0], empty, pieces[1..]);
      }
    }
  }

  lemma {:induction false} NoopsRead(s: Bytes, pos: nat, empty: nat, k: nat)
    requires At(s, pos, Noops(k)) && empty <= MAX_EMPTY_CHUNKS
    ensures ReadBody(s, pos, [], empty)
      == if empty + k > MAX_EMPTY_CHUNKS then Err(TooManyEmptyChunks) else ReadBody(s, pos + 2 * k, [], empty + k)
    decreases k
  {
    if k > 0 {
      AtSplit(s, pos, END, Noops(k - 1));
      EndTurn(s, pos, [], empty, ReadBody(s, pos, [], empty));
      if empty + 1 <= MAX_EMPTY_CHUNKS {
        NoopsRead(s, pos + 2, empty + 1, k - 1);
      }
    }
  }

  lemma {:induction false} NoopsLength(k: nat)
    ensures |Noops(k)| == 2 * k
  {
    if k > 0 { NoopsLength(k - 1); }
  }

  /** A message on the wire: the no-op chunks before it, and its own chunks. */
  datatype Framing = Framing(noops: nat, pieces: seq<Bytes>)

  function Wire(f: Framing): Bytes
  {
    Noops(f.noops) + (Framed(f.pieces) + END)
  }

  /** However it is cut up, a body is reassembled exactly if it is not too long and not preceded by too many empty chunks. */
  lemma Reassembled(s: Bytes, pos: nat, f: Framing)
    requires Chunks(f.pieces) && f.pieces != [] && At(s, pos, Wire(f))
    ensures ReadBody(s, pos, [], 0)
      == if f.noops > 1024 then Err(TooManyEmptyChunks)
         else if |Joined(f.pieces)| > 16 * 1024 * 1024 then Err(TooLong)
         else Got(Joined(f.pieces), pos + |Wire(f)|)
  {
    var q := pos + 2 * f.noops;
    NoopsLength(f.noops);
    AtSplit(s, pos, Noops(f.noops), Framed(f.pieces) + END);
    NoopsRead(s, pos, 0, f.noops);
    if f.noops <= MAX_EMPTY_CHUNKS {
      PiecesRead(s, q, [], f.noops, f.pieces);
      assert [] + Joined(f.pieces) == Joined(f.pieces);
    }
  }

  /** A stream that ends inside a message that would have been read ends in an error, wherever it is cut; one that ends
      behind it does not change it. */
  lemma {:induction false} CutOffIsEof(s: Bytes, n: nat, pos: nat, body: Bytes, empty: nat)
    requires n <= |s| && ReadBody(s, pos, body, empty).Got?
    ensures ReadBody(s[..n], pos, body, empty) ==
      if n < ReadBody(s, pos, body, empty).pos then Err(Eof) else ReadBody(s, pos, body, empty)
    decreases |s| - pos
  {
    if pos + 2 <= n {
      CutSlice(s, n, pos, pos + 2);
      var k := Nat(s[pos..pos + 2]);
      if k == 0 {
        if body == [] {
          CutOffIsEof(s, n, pos + 2, body, empty + 1);
        }
      } else {
        if pos + 2 + k <= n {
          CutSlice(s, n, pos + 2, pos + 2 + k);
        }
        CutOffIsEof(s, n, pos + 2 + k, body + s[pos + 2..pos + 2 + k], empty);
      }
    }
  }

  lemma CutSlice(s: Bytes, n: nat, i: nat, j: nat)
    requires i <= j <= n <= |s|
    ensures s[..n][i..j] == s[i..j]
  {
  }

  // ---------------------------------------------------------------- conversations

  function WireAll(fs: seq<Framing>): Bytes
  {
    if fs == [] then [] else Wire(fs[0]) + WireAll(fs[1..])
  }

  /** Reading `n` messages one after the other. */
  function ReadAll(s: Bytes, pos: nat, n: nat): Outcome<seq<Value>>
    decreases n
  {
    if n == 0 then Got([], pos)
    else match ReadMsg(s, pos)
      case Err(e) => Err(e)
      case Got(v, p) =>
        match ReadAll(s, p, n - 1)
        case Err(e) => Err(e)
        case Got(vs, q) => Got([v] + vs, q)
  }

  /** A message within the limits of the format and of the reader. */
  ghost predicate Sendable(v: Value)
  {
    Plain(v) && Tiny(v) && Nest(v) <= MAX_DEPTH && |Enc(v)| <= MAX_MESSAGE
  }

  /** Any framing of it. */
  ghost predicate Carries(f: Framing, v: Value)
  {
    Chunks(f.pieces) && Joined(f.pieces) == Enc(v) && f.noops <= MAX_EMPTY_CHUNKS
  }

  ghost predicate AllCarried(fs: seq<Framing>, vs: seq<Value>)
    requires |fs| == |vs|
  {
    vs == [] || (Sendable(vs[0]) && Carries(fs[0], vs[0]) && AllCarried(fs[1..], vs[1..]))
  }

  lemma EncNonEmpty(v: Value)
    ensures |Enc(v)| > 0
  {
  }

  lemma MessageRead(s: Bytes, pos: nat, f: Framing, v: Value)
    requires Sendable(v) && Carries(f, v) && At(s, pos, Wire(f))
    ensures ReadMsg(s, pos) == Got(v, pos + |Wire(f)|)
  {
    EncNonEmpty(v);
    Reassembled(s, pos, f);
    BodyDecodes(v);
  }

  lemma BodyDecodes(v: Value)
    requires Plain(v) && Tiny(v) && Nest(v) <= MAX_DEPTH
    ensures Dec(Enc(v), 0, 0) == Ok(v, |Enc(v)|)
  {
    var e := Enc(v);
    assert e[0..|e|] == e;
    DecEnc(e, 0, 0, v);
  }

  lemma AllTurn(s: Bytes, pos: nat, n: nat, v: Value, p: nat, vs: seq<Value>, q: nat, r: Outcome<seq<Value>>)
    requires n > 0 && r == ReadAll(s, pos, n) && ReadMsg(s, pos) == Got(v, p) && ReadAll(s, p, n - 1) == Got(vs, q)
    ensures r == Got([v] + vs, q)
  {
  }

  lemma WireBytes(s: Bytes, pos: nat, fs: seq<Framing>) returns (p: nat)
    requires fs != [] && At(s, pos, WireAll(fs))
    ensures p == pos + |Wire(fs[0])| && pos + |WireAll(fs)| == p + |WireAll(fs[1..])|
    ensures At(s, pos, Wire(fs[0])) && At(s, p, WireAll(fs[1..]))
  {
    p := pos + |Wire(fs[0])|;
    AtSplit(s, pos, Wire(fs[0]), WireAll(fs[1..]));
  }

  /** Any conversation is read back message by message, in order, with nothing left over. */
  lemma {:induction false} ConversationRead(s: Bytes, pos: nat, fs: seq<Framing>, vs: seq<Value>, r: Outcome<seq<Value>>)
    requires |fs| == |vs| && AllCarried(fs, vs) && At(s, pos, WireAll(fs)) && r == ReadAll(s, pos, |vs|)
    ensures r == Got(vs, pos + |WireAll(fs)|)
    decreases |vs|
  {
    if vs != [] {
      var p := WireBytes(s, pos, fs);
      MessageRead(s, pos, fs[0], vs[0]);
      ConversationRead(s, p, fs[1..], vs[1..], ReadAll(s, p, |vs| - 1));
      AllTurn(s, pos, |vs|, vs[0], p, vs[1..], pos + |WireAll(fs)|, r);
      assert vs == [vs[0]] + vs[1..];
    }
  }

  /** How `write_message` frames a message. */
  function Own(v: Value): Framing
  {
    Framing(0, Split(Enc(v)))
  }

  function OwnAll(vs: seq<Value>): seq<Framing>
  {
    if vs == [] then [] else [Own(vs[0])] + OwnAll(vs[1..])
  }

  ghost predicate AllSendable(vs: seq<Value>)
  {
    vs == [] || (Sendable(vs[0]) && AllSendable(vs[1..]))
  }

  lemma {:induction false} OwnCarries(vs: seq<Value>)
    requires AllSendable(vs)
    ensures |OwnAll(vs)| == |vs| && AllCarried(OwnAll(vs), vs)
  {
    if vs != [] {
      OwnCarries(vs[1..]);
      SplitJoins(Enc(vs[0]));
      assert OwnAll(vs)[1..] == OwnAll(vs[1..]);
    }
  }

  /** What `write_message` writes is what `read_message` reads, message by message, up to 16 MiB each. */
  lemma WrittenIsRead(vs: seq<Value>, rest: Bytes)
    requires AllSendable(vs)
    ensures var wire := WireAll(OwnAll(vs)); ReadAll(wire + rest, 0, |vs|) == Got(vs, |wire|)
  {
    var wire := WireAll(OwnAll(vs));
    var s := wire + rest;
    assert s[0..|wire|] == wire;
    OwnCarries(vs);
    ConversationRead(s, 0, OwnAll(vs), vs, ReadAll(s, 0, |vs|));
  }

  // ---------------------------------------------------------------- the code

  lemma {:induction false} FramedSnoc(pieces: seq<Bytes>, piece: Bytes)
    ensures Framed(pieces + [piece]) == Framed(pieces) + Chunk(piece)
  {
    if pieces == [] {
      assert [piece][1..] == [];
    } else {
      FramedSnoc(pieces[1..], piece);
      assert (pieces + [piece])[1..] == pieces[1..] + [piece];
      assert Chunk(pieces[0]) + (Framed(pieces[1..]) + Chunk(piece)) == (Chunk(pieces[0]) + Framed(pieces[1..])) + Chunk(piece);
    }
  }

  /** The stream written to. */
  class Output {
    var sent: Bytes

    constructor ()
      ensures sent == []
    {
      sent := [];
    }

    method WriteMessage(msg: Value)
      modifies this
      ensures sent == old(sent) + Wire(Own(msg))
    {
      var w := new PackStreamCodec.Writer();
      w.Encode(msg);
      var body := w.out;
      assert body == [] + Enc(msg) == Enc(msg);
      WriteChunks(body);
      Assoc(old(sent), Framed(Split(body)), END);
      sent := sent + END;
      assert Wire(Own(msg)) == Noops(0) + (Framed(Split(body)) + END) == Framed(Split(body)) + END;
    }

    method WriteChunks(body: Bytes)
      modifies this
      ensures sent == old(sent) + Framed(Split(body))
    {
      ghost var pieces := [];
      var i := 0;
      assert body[0..] == body;
      while i < |body|
        invariant 0 <= i <= |body|
        invariant sent == old(sent) + Framed(pieces)
        invariant pieces + Split(body[i..]) == Split(body)
      {
        var n := if |body| - i <= MAX_CHUNK then |body| - i else MAX_CHUNK;
        var chunk := body[i..i + n];
        SplitTurn(body, i, n, pieces);
        FramedSnoc(pieces, chunk);
        Sent(old(sent), Framed(pieces), Be(n, 2), chunk);
        sent := sent + Be(n, 2);
        sent := sent + chunk;
        pieces := pieces + [chunk];
        i := i + n;
      }
      assert body[i..] == [] && pieces + [] == pieces;
    }
  }

  lemma Sent(before: Bytes, framed: Bytes, header: Bytes, chunk: Bytes)
    ensures ((before + framed) + header) + chunk == before + (framed + (header + chunk))
  {
    Assoc(before + framed, header, chunk);
    Assoc(before, framed, header + chunk);
  }

  lemma Concat(a: seq<Bytes>, b: seq<Bytes>, c: seq<Bytes>)
    ensures (a + b) + c == a + (b + c)
  {
  }

  lemma SplitTurn(body: Bytes, i: nat, n: nat, pieces: seq<Bytes>)
    requires i < |body| && n == if |body| - i <= MAX_CHUNK then |body| - i else MAX_CHUNK
    ensures pieces + Split(body[i..]) == (pieces + [body[i..i + n]]) + Split(body[i + n..])
  {
    var b := body[i..];
    assert b[..n] == body[i..i + n] && b[n..] == body[i + n..];
    var first, others := b[..n], b[n..];
    if n == |b| {
      assert first == b && others == [];
      assert Split(b) == [b] && Split(others) == [];
    } else {
      assert Split(b) == [b[..MAX_CHUNK]] + Split(b[MAX_CHUNK..]);
    }
    Concat(pieces, [b[..n]], Split(b[n..]));
  }

  datatype Received<+T> = Whole(value: T) | Refused(error: ReadError)

  /** The stream read from. */
  class Input {
    const bytes: Bytes
    var pos: nat

    constructor (bytes: Bytes)
      ensures this.bytes == bytes && pos == 0
    {
      this.bytes, pos := bytes, 0;
    }

    /** `read_exact`; None at the end of the stream. */
    method ReadExact(n: nat) returns (ok: bool, b: Bytes)
      modifies this
      ensures ok == (old(pos) + n <= |bytes|)
      ensures ok ==> b == bytes[old(pos)..old(pos) + n] && pos == old(pos) + n
    {
      ok, b := pos + n <= |bytes|, [];
      if ok {
        b := bytes[pos..pos + n];
        pos := pos + n;
      }
    }

    method ReadMessage() returns (r: Received<Value>)
      modifies this
      ensures match ReadMsg(bytes, old(pos))
        case Got(v, p) => r == Whole(v) && pos == p
        case Err(e) => r == Refused(e)
    {
      var body: Bytes, empty := [], 0;
      ghost var whole := ReadBody(bytes, pos, [], 0);
      while true
        invariant whole == ReadBody(bytes, pos, body, empty)
        decreases if pos <= |bytes| then |bytes| - pos + 1 else 0
      {
        var ok, hdr := ReadExact(2);
        if !ok {
          return Refused(Eof);
        }
        var n := Nat(hdr);
        if n == 0 {
          if body == [] {
            empty := empty + 1;
            if empty > MAX_EMPTY_CHUNKS {
              return Refused(TooManyEmptyChunks);
            }
            continue;
          }
          break;
        }
        if |body| + n > MAX_MESSAGE {
          return Refused(TooLong);
        }
        var more, chunk := ReadExact(n);
        if !more {
          return Refused(Eof);
        }
        body := body + chunk;
      }
      assert whole == Got(body, pos);
      var reader := new PackStreamCodec.Reader(body);
      var v := reader.ReadValue();
      r := if v.Good? then Whole(v.value) else Refused(Undecodable(v.error));
    }
  }
}
