/** The chunked-body decoder of the command-line client (section 7.1 of RFC 9112),
    on raw bytes. */
module Dechunk {
  import opened Wrappers
  import opened Bytes
  import opened Text

  const CR: byte := 13
  const LF: byte := 10
  const USIZE_LIMIT: nat := 0x1_0000_0000_0000_0000

  predicate CrlfAt(s: seq<byte>, i: nat) {
    i + 1 < |s| && s[i] == CR && s[i + 1] == LF
  }

  /** The first CRLF, if any. */
  function FindCrlf(s: seq<byte>): (r: Option<nat>)
    ensures r.Some? ==> CrlfAt(s, r.value) && forall k | 0 <= k < r.value :: !CrlfAt(s, k)
    ensures r.None? ==> forall k | 0 <= k < |s| :: !CrlfAt(s, k)
  {
    if |s| < 2 then None
    else if CrlfAt(s, 0) then Some(0)
    else
      match FindCrlf(s[1..])
      case None =>
        assert forall k | 1 <= k < |s| :: CrlfAt(s, k) ==> CrlfAt(s[1..], k - 1);
        None
      case Some(n) =>
        assert forall k | 1 <= k < n + 1 :: CrlfAt(s, k) ==> CrlfAt(s[1..], k - 1);
        Some(n + 1)
  }

  /** The bytes of an ASCII text, and back; text outside ASCII is not read as a size. */
  function AsText(s: seq<byte>): Option<string> {
    if forall i | 0 <= i < |s| :: s[i] < 128 then
      Some(seq(|s|, i requires 0 <= i < |s| && s[i] < 128 => s[i] as char))
    else None
  }

  /** The chunk size on a size line; 0 when it does not parse. */
  function SizeOf(line: seq<byte>): nat {
    match AsText(line)
    case None => 0
    case Some(text) =>
      match ParseUnsigned(Trim(text), 16, USIZE_LIMIT)
      case Some(n) => n
      case None => 0
  }

  function SkipCrlf(s: seq<byte>): seq<byte> {
    if CrlfAt(s, 0) then s[2..] else s
  }

  /** The data of a chunk, and what follows it on the wire. */
  datatype Piece = Piece(data: seq<byte>, rest: seq<byte>)

  /** The chunk at the front of `s`, if it is there whole. */
  function NextPiece(s: seq<byte>): (r: Option<Piece>)
    ensures r.Some? ==> |r.value.data| + |r.value.rest| < |s|
  {
    match FindCrlf(s)
    case None => None
    case Some(nl) =>
      var size, after := SizeOf(s[..nl]), s[nl + 2..];
      if size == 0 || |after| < size then None else Some(Piece(after[..size], SkipCrlf(after[size..])))
  }

  /** What the decoder keeps of `rest`. */
  function Decoded(rest: seq<byte>): (out: seq<byte>)
    ensures |out| <= |rest|
    decreases |rest|
  {
    match NextPiece(rest)
    case None => []
    case Some(p) => p.data + Decoded(p.rest)
  }

  method Dechunk(body: seq<byte>) returns (out: seq<byte>)
    ensures out == Decoded(body)
  {
    out := [];
    var rest := body;
    while true
      invariant out + Decoded(rest) == Decoded(body)
      decreases |rest|
    {
      ghost var piece := NextPiece(rest);
      var nl := FindCrlf(rest);
      if nl.None? { break; }
      var size := SizeOf(rest[..nl.value]);
      var after := rest[nl.value + 2..];
      if size == 0 || |after| < size { break; }
      assert piece == Some(Piece(after[..size], SkipCrlf(after[size..])));
      DecodeOne(out, rest, piece.value);
      out := out + after[..size];
      rest := SkipCrlf(after[size..]);
    }
  }

  lemma DecodeOne(out: seq<byte>, rest: seq<byte>, p: Piece)
    requires NextPiece(rest) == Some(p)
    ensures out + p.data + Decoded(p.rest) == out + Decoded(rest)
  {
  }

  // ----- Encoding -----

  /** A chunk on the wire: a size line in any spelling, and the data. */
  datatype Chunk = Chunk(line: seq<byte>, data: seq<byte>)

  predicate WellSized(c: Chunk) {
    c.data != [] && SizeOf(c.line) == |c.data| && forall k | 0 <= k < |c.line| :: c.line[k] != CR
  }

  const CRLF: seq<byte> := [CR, LF]

  /** The chunks, then a last line of size zero and whatever trailers follow. */
  function Encoded(chunks: seq<Chunk>, lastLine: seq<byte>, trailers: seq<byte>): seq<byte> {
    if chunks == [] then lastLine + CRLF + trailers
    else chunks[0].line + CRLF + (chunks[0].data + CRLF + Encoded(chunks[1..], lastLine, trailers))
  }

  function Concat(chunks: seq<Chunk>): seq<byte> {
    if chunks == [] then [] else chunks[0].data + Concat(chunks[1..])
  }

  lemma CrlfAfterLine(line: seq<byte>, rest: seq<byte>)
    requires forall k | 0 <= k < |line| :: line[k] != CR
    ensures var s := line + CRLF + rest;
            FindCrlf(s) == Some(|line|) && s[..|line|] == line && s[|line| + 2..] == rest
  {
    var s := line + CRLF + rest;
    assert CrlfAt(s, |line|);
    forall k | 0 <= k < |line| ensures !CrlfAt(s, k) { assert s[k] == line[k]; }
  }

  lemma DecodedStep(c: Chunk, rest: seq<byte>)
    requires WellSized(c)
    ensures Decoded(c.line + CRLF + (c.data + CRLF + rest)) == c.data + Decoded(rest)
  {
    var after := c.data + CRLF + rest;
    CrlfAfterLine(c.line, after);
    CrlfAfterData(c.data, rest);
    assert NextPiece(c.line + CRLF + after) == Some(Piece(c.data, rest));
  }

  lemma CrlfAfterData(data: seq<byte>, rest: seq<byte>)
    ensures var after := data + CRLF + rest;
            |after| >= |data| && after[..|data|] == data && SkipCrlf(after[|data|..]) == rest
  {
    var after := data + CRLF + rest;
    assert after[|data|..] == CRLF + rest && (CRLF + rest)[2..] == rest && CrlfAt(CRLF + rest, 0);
  }

  /** Main result: decoding inverts chunked encoding, for chunks of any bytes (CRLF included), any
      spelling of their sizes, and any trailers. */
  lemma {:induction false} DechunkInverts(chunks: seq<Chunk>, lastLine: seq<byte>, trailers: seq<byte>)
    requires forall c | c in chunks :: WellSized(c)
    requires SizeOf(lastLine) == 0 && forall k | 0 <= k < |lastLine| :: lastLine[k] != CR
    ensures Decoded(Encoded(chunks, lastLine, trailers)) == Concat(chunks)
  {
    if chunks == [] {
      CrlfAfterLine(lastLine, trailers);
    } else {
      assert chunks[0] in chunks;
      DechunkInverts(chunks[1..], lastLine, trailers);
      DecodedStep(chunks[0], Encoded(chunks[1..], lastLine, trailers));
    }
  }

  /** The line end after a chunk's data may be missing. */
  lemma MissingLineEnd(c: Chunk, rest: seq<byte>)
    requires WellSized(c) && !CrlfAt(rest, 0)
    ensures Decoded(c.line + CRLF + (c.data + rest)) == c.data + Decoded(rest)
  {
    var after := c.data + rest;
    CrlfAfterLine(c.line, after);
    assert after[..|c.data|] == c.data && after[|c.data|..] == rest;
    assert NextPiece(c.line + CRLF + after) == Some(Piece(c.data, rest));
  }

  /** The chunks on the wire, with nothing after them. */
  function Wire(chunks: seq<Chunk>): seq<byte> {
    if chunks == [] then []
    else chunks[0].line + CRLF + (chunks[0].data + CRLF + Wire(chunks[1..]))
  }

  lemma WireCons(c: Chunk, wire: seq<byte>, tail: seq<byte>)
    ensures c.line + CRLF + (c.data + CRLF + wire) + tail == c.line + CRLF + (c.data + CRLF + (wire + tail))
  {
  }

  lemma WireStep(c: Chunk, wire: seq<byte>, tail: seq<byte>, decoded: seq<byte>)
    requires WellSized(c) && Decoded(wire + tail) == decoded
    ensures Decoded(c.line + CRLF + (c.data + CRLF + wire) + tail) == c.data + decoded
  {
    WireCons(c, wire, tail);
    DecodedStep(c, wire + tail);
  }

  lemma Regroup(a: seq<byte>, b: seq<byte>, c: seq<byte>)
    ensures a + (b + c) == a + b + c
    ensures a == [] ==> a + c == c
  {
  }

  /** Main result: whole chunks are decoded whatever follows them. */
  lemma {:induction false} DechunkContinues(chunks: seq<Chunk>, tail: seq<byte>)
    requires forall c | c in chunks :: WellSized(c)
    ensures Decoded(Wire(chunks) + tail) == Concat(chunks) + Decoded(tail)
  {
    if chunks == [] {
      Regroup([], [], tail);
      Regroup([], [], Decoded(tail));
    } else {
      var c, rest := chunks[0], chunks[1..];
      assert c in chunks;
      DechunkContinues(rest, tail);
      WireStep(c, Wire(rest), tail, Concat(rest) + Decoded(tail));
      Regroup(c.data, Concat(rest), Decoded(tail));
    }
  }

  predicate FirstCrlf(s: seq<byte>, nl: nat) {
    CrlfAt(s, nl) && forall k | 0 <= k < nl :: !CrlfAt(s, k)
  }

  /** Main result: decoding stops, and drops the rest, exactly at bytes without a line end, at a
      size of zero or that cannot be read, and at a chunk that is cut short. */
  lemma StopsIff(s: seq<byte>)
    ensures NextPiece(s).None?
            <==> forall nl: nat | FirstCrlf(s, nl) :: SizeOf(s[..nl]) == 0 || |s| - (nl + 2) < SizeOf(s[..nl])
    ensures NextPiece(s).None? ==> Decoded(s) == []
  {
    var nl := FindCrlf(s);
    if nl.Some? { assert FirstCrlf(s, nl.value); }
    forall n: nat | FirstCrlf(s, n) ensures nl == Some(n) {
      OneFirst(s, n);
    }
  }

  lemma OneFirst(s: seq<byte>, n: nat)
    requires FirstCrlf(s, n)
    ensures FindCrlf(s) == Some(n)
  {
    var nl := FindCrlf(s);
    assert nl.Some?;
    assert !(n < nl.value) && !(nl.value < n);
  }

  function HexLine(n: nat): seq<byte> {
    var text := Numeral(n, 16);
    NumeralRoundTrip(n, 16);
    seq(|text|, i requires 0 <= i < |text| =>
      assert DigitValue(text[i], 16).Some?; text[i] as int as byte)
  }

  /** A lowercase hexadecimal size line is read back as the size. */
  lemma HexLineSize(n: nat)
    requires n < USIZE_LIMIT
    ensures SizeOf(HexLine(n)) == n && forall k | 0 <= k < |HexLine(n)| :: HexLine(n)[k] != CR
  {
    var text := Numeral(n, 16);
    NumeralRoundTrip(n, 16);
    DigitsAreNotSpace(text, 16);
    assert forall i | 0 <= i < |text| :: DigitValue(text[i], 16).Some?;
    assert AsText(HexLine(n)).value == text;
    TrimTight(text);
    assert text[0] != '+';
  }

  function HexChunks(datas: seq<seq<byte>>): seq<Chunk> {
    if datas == [] then [] else [Chunk(HexLine(|datas[0]|), datas[0])] + HexChunks(datas[1..])
  }

  function Flat(datas: seq<seq<byte>>): seq<byte> {
    if datas == [] then [] else datas[0] + Flat(datas[1..])
  }

  lemma {:induction false} HexChunksWellSized(datas: seq<seq<byte>>)
    requires forall d | d in datas :: 0 < |d| < USIZE_LIMIT
    ensures forall c | c in HexChunks(datas) :: WellSized(c)
    ensures Concat(HexChunks(datas)) == Flat(datas)
  {
    if datas != [] {
      assert datas[0] in datas;
      HexLineSize(|datas[0]|);
      HexChunksWellSized(datas[1..]);
      assert HexChunks(datas)[1..] == HexChunks(datas[1..]);
    }
  }

  /** The plain encoding, with hexadecimal sizes and a bare final chunk, decodes to its data. */
  lemma PlainEncodingDecodes(datas: seq<seq<byte>>)
    requires forall d | d in datas :: 0 < |d| < USIZE_LIMIT
    ensures Decoded(Encoded(HexChunks(datas), HexLine(0), CRLF)) == Flat(datas)
  {
    HexChunksWellSized(datas);
    HexLineSize(0);
    DechunkInverts(HexChunks(datas), HexLine(0), CRLF);
  }

  /** On arbitrary input the output is a selection of input bytes in order. */
  ghost predicate Subsequence(a: seq<byte>, b: seq<byte>)
    decreases |b|
  {
    a == [] || (b != [] && (Subsequence(a, b[1..]) || (a[0] == b[0] && Subsequence(a[1..], b[1..]))))
  }

  lemma {:induction false} SkipPrefix(a: seq<byte>, b: seq<byte>, n: nat)
    requires n <= |b| && Subsequence(a, b[n..])
    ensures Subsequence(a, b)
    decreases n
  {
    if n == 0 {
      assert b[0..] == b;
    } else {
      assert b[1..][n - 1..] == b[n..];
      SkipPrefix(a, b[1..], n - 1);
    }
  }

  lemma {:induction false} KeepPrefix(a: seq<byte>, b: seq<byte>, n: nat)
    requires n <= |b| && Subsequence(a, b[n..])
    ensures Subsequence(b[..n] + a, b)
    decreases n
  {
    if n == 0 {
      assert b[0..] == b && b[..0] + a == a;
    } else {
      assert b[1..][n - 1..] == b[n..];
      KeepPrefix(a, b[1..], n - 1);
      assert (b[..n] + a)[1..] == b[1..][..n - 1] + a;
    }
  }

  lemma {:induction false} DecodedSelects(rest: seq<byte>)
    ensures Subsequence(Decoded(rest), rest)
    decreases |rest|
  {
    var nl := FindCrlf(rest);
    if nl.Some? {
      var size, after := SizeOf(rest[..nl.value]), rest[nl.value + 2..];
      if size != 0 && size <= |after| {
        var tail := after[size..];
        DecodedSelects(SkipCrlf(tail));
        SkipPrefix(Decoded(SkipCrlf(tail)), tail, |tail| - |SkipCrlf(tail)|);
        KeepPrefix(Decoded(SkipCrlf(tail)), after, size);
        SkipPrefix(Decoded(rest), rest, nl.value + 2);
      }
    }
  }
}
