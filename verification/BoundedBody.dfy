/** Reading a body under a size limit, as the bundle fetcher and the bundle upload both do. */
module BoundedBody {
  import opened Basics
  import opened Engines

  const USIZE_MAX := 0xFFFF_FFFF_FFFF_FFFF

  datatype StreamError = SizeLimit | Broken

  type Chunk = Result<Bytes, StreamError>

  function SaturatingAdd(a: nat, b: nat): nat {
    if a + b > USIZE_MAX then USIZE_MAX else a + b
  }

  ghost predicate Delivered(chunks: seq<Chunk>) {
    forall c | c in chunks :: c.Ok?
  }

  function Concat(chunks: seq<Chunk>): Bytes
    requires forall c | c in chunks :: c.Ok?
  {
    if chunks == [] then [] else Concat(chunks[..|chunks| - 1]) + chunks[|chunks| - 1].value
  }

  /** The first thing to go wrong, if any: a declared length or a prefix over the limit, or a broken chunk. */
  function ReadResult(limit: nat, declared: Option<nat>, chunks: seq<Chunk>): Result<Bytes, StreamError> {
    if declared.Some? && declared.value > limit then Err(SizeLimit)
    else ReadChunks(limit, chunks)
  }

  function ReadChunks(limit: nat, chunks: seq<Chunk>): Result<Bytes, StreamError> {
    if chunks == [] then Ok([])
    else
      var before, chunk := ReadChunks(limit, chunks[..|chunks| - 1]), chunks[|chunks| - 1];
      if before.Err? || chunk.Err? then (if before.Err? then before else chunk)
      else if SaturatingAdd(|before.value|, |chunk.value|) > limit then Err(SizeLimit)
      else Ok(before.value + chunk.value)
  }

  lemma {:induction false} ErrorsStay(limit: nat, chunks: seq<Chunk>, n: nat)
    requires n <= |chunks| && ReadChunks(limit, chunks[..n]).Err?
    ensures ReadChunks(limit, chunks) == ReadChunks(limit, chunks[..n])
  {
    if n < |chunks| {
      var m := |chunks| - 1;
      assert chunks[..m][..n] == chunks[..n];
      ErrorsStay(limit, chunks[..m], n);
    } else {
      assert chunks[..n] == chunks;
    }
  }

  /** The loop over the stream: the buffer never holds more than the limit. */
  method ReadBounded(limit: nat, declared: Option<nat>, chunks: seq<Chunk>) returns (r: Result<Bytes, StreamError>)
    ensures r == ReadResult(limit, declared, chunks)
    ensures r.Ok? && limit < USIZE_MAX ==> |r.value| <= limit
  {
    if declared.Some? && declared.value > limit {
      return Err(SizeLimit);
    }
    var bytes := [];
    for i := 0 to |chunks|
      invariant ReadChunks(limit, chunks[..i]) == Ok(bytes)
      invariant limit < USIZE_MAX ==> |bytes| <= limit
    {
      assert chunks[..i + 1][..i] == chunks[..i];
      var chunk := chunks[i];
      if chunk.Err? {
        ErrorsStay(limit, chunks, i + 1);
        return Err(chunk.error);
      }
      if SaturatingAdd(|bytes|, |chunk.value|) > limit {
        ErrorsStay(limit, chunks, i + 1);
        return Err(SizeLimit);
      }
      bytes := bytes + chunk.value;
    }
    assert chunks[..|chunks|] == chunks;
    return Ok(bytes);
  }

  /** A body delivered whole is accepted exactly when its total length, however it was cut, is within the limit;
      at the largest limit saturation hides any excess.  What is accepted is the body itself. */
  lemma {:induction false} DeliveredBody(limit: nat, chunks: seq<Chunk>)
    requires Delivered(chunks) && limit <= USIZE_MAX
    ensures ReadChunks(limit, chunks) ==
            if |Concat(chunks)| <= limit || limit == USIZE_MAX then Ok(Concat(chunks)) else Err(SizeLimit)
  {
    if chunks != [] {
      var n := |chunks| - 1;
      assert Delivered(chunks[..n]) && chunks[n].Ok?;
      DeliveredBody(limit, chunks[..n]);
    }
  }

  /** A body delivered whole is accepted exactly if its declared length, when there is one, and its real length are
      within the limit, and what is accepted is the body. */
  lemma AcceptedExactly(limit: nat, declared: Option<nat>, chunks: seq<Chunk>)
    requires Delivered(chunks) && limit <= USIZE_MAX
    ensures ReadResult(limit, declared, chunks) ==
            if (declared.Some? ==> declared.value <= limit) && (|Concat(chunks)| <= limit || limit == USIZE_MAX)
            then Ok(Concat(chunks)) else Err(SizeLimit)
  {
    DeliveredBody(limit, chunks);
  }

  /** Two ways of cutting one body give one result. */
  lemma ChunkingIndependent(limit: nat, declared: Option<nat>, chunks: seq<Chunk>, chunks': seq<Chunk>)
    requires Delivered(chunks) && Delivered(chunks') && Concat(chunks) == Concat(chunks') && limit <= USIZE_MAX
    ensures ReadResult(limit, declared, chunks) == ReadResult(limit, declared, chunks')
  {
    DeliveredBody(limit, chunks);
    DeliveredBody(limit, chunks');
  }

  /** A stream that breaks is never accepted. */
  lemma {:induction false} BrokenBodyRefused(limit: nat, declared: Option<nat>, chunks: seq<Chunk>)
    requires !Delivered(chunks)
    ensures ReadResult(limit, declared, chunks).Err?
  {
    var i :| 0 <= i < |chunks| && chunks[i].Err?;
    assert chunks[..i + 1][..i] == chunks[..i];
    ErrorsStay(limit, chunks, i + 1);
  }

  // ----- Hexadecimal digests ----------------------------------------------------------------

  const HEX := "0123456789abcdef"

  function Hex(bytes: Bytes): string {
    if bytes == [] then []
    else Hex(bytes[..|bytes| - 1]) + [HEX[bytes[|bytes| - 1] / 16], HEX[bytes[|bytes| - 1] % 16]]
  }

  /** `hex_sha256`: high nibble, then low nibble. */
  method HexEncode(bytes: Bytes) returns (encoded: string)
    ensures encoded == Hex(bytes)
  {
    encoded := "";
    for i := 0 to |bytes|
      invariant encoded == Hex(bytes[..i])
    {
      assert bytes[..i + 1][..i] == bytes[..i];
      encoded := encoded + [HEX[bytes[i] / 16]];
      encoded := encoded + [HEX[bytes[i] % 16]];
    }
    assert bytes[..|bytes|] == bytes;
  }

  function HexDigitValue(c: char): (v: Option<nat>)
    ensures v.Some? ==> v.value < 16
  {
    if '0' <= c <= '9' then Some(c as int - '0' as int)
    else if 'a' <= c <= 'f' then Some(c as int - 'a' as int + 10)
    else None
  }

  function PairValue(high: char, low: char): Option<Byte> {
    if HexDigitValue(high).None? || HexDigitValue(low).None? then None
    else Some(16 * HexDigitValue(high).value + HexDigitValue(low).value)
  }

  /** Reading hexadecimal digits in pairs, the first of a pair counting sixteen times. */
  function Unhex(s: string): Option<Bytes> {
    if s == "" then Some([])
    else if |s| == 1 then None
    else
      var front, byte := Unhex(s[..|s| - 2]), PairValue(s[|s| - 2], s[|s| - 1]);
      if front.None? || byte.None? then None else Some(front.value + [byte.value])
  }

  lemma HexDigitOf(d: nat)
    requires d < 16
    ensures HexDigitValue(HEX[d]) == Some(d)
  {
    if d < 10 { assert HEX[d] == ('0' as int + d) as char; } else { assert HEX[d] == ('a' as int + d - 10) as char; }
  }

  lemma PairOf(byte: Byte)
    ensures PairValue(HEX[byte / 16], HEX[byte % 16]) == Some(byte)
  {
    HexDigitOf(byte / 16);
    HexDigitOf(byte % 16);
  }

  lemma UnhexNext(front: string, high: char, low: char)
    requires Unhex(front).Some? && PairValue(high, low).Some?
    ensures Unhex(front + [high, low]) == Some(Unhex(front).value + [PairValue(high, low).value])
  {
    assert (front + [high, low])[..|front|] == front;
  }

  /** The encoding reads back as the bytes it was made from. */
  lemma {:induction false} UnhexOfHex(b: Bytes)
    ensures Unhex(Hex(b)) == Some(b)
  {
    if b != [] {
      var n := |b| - 1;
      UnhexOfHex(b[..n]);
      PairOf(b[n]);
      UnhexNext(Hex(b[..n]), HEX[b[n] / 16], HEX[b[n] % 16]);
      assert b == b[..n] + [b[n]];
    }
  }

  /** Equal hex strings mean equal digests. */
  lemma HexInjective(b: Bytes, b': Bytes)
    requires Hex(b) == Hex(b')
    ensures b == b'
  {
    UnhexOfHex(b);
    UnhexOfHex(b');
  }
}
