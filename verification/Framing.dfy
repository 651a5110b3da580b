/** The two byte formats that carry transfers: chunk frames
    (`[index u64][len u32][checksum 32][payload]`) and length-prefixed
    ciphertext frames (`[len u32][bytes]`). */
module Framing {
  import opened Wrappers
  import opened Bytes

  const CHUNK_SIZE: nat := 8 * 1024 * 1024
  const MAX_FRAME: nat := CHUNK_SIZE + 4096
  const HEADER_LEN: nat := 44

  type Digest = s: seq<Byte> | |s| == 32 witness seq(32, _ => 0)

  datatype ChunkFrame = ChunkFrame(chunkIndex: U64, payload: seq<Byte>, checksum: Digest)

  datatype StreamError = UnexpectedEof | FrameTooLarge(len: nat)

  /** A byte stream being read; `read_exact` past the end consumes what is left and fails. */
  class ByteReader {
    const data: seq<Byte>
    var pos: nat

    ghost predicate Valid() reads this { pos <= |data| }

    ghost function Rest(): seq<Byte>
      reads this
      requires Valid()
    {
      data[pos..]
    }

    constructor (data: seq<Byte>)
      ensures Valid() && Rest() == data
    {
      this.data, this.pos := data, 0;
    }

    method ReadExact(n: nat) returns (r: Result<seq<Byte>, StreamError>)
      requires Valid()
      modifies this
      ensures Valid()
      ensures n <= |old(Rest())| ==> r == Ok(old(Rest())[..n]) && Rest() == old(Rest())[n..]
      ensures n > |old(Rest())| ==> r == Err(UnexpectedEof) && Rest() == []
    {
      if |data| - pos < n {
        pos := |data|;
        return Err(UnexpectedEof);
      }
      r := Ok(data[pos..pos + n]);
      assert data[pos..][..n] == data[pos..pos + n] && data[pos..][n..] == data[pos + n..];
      pos := pos + n;
    }
  }

  // ---------------------------------------------------------------- chunk frames

  /** `ChunkFrame::encode`: the length field is the payload length cast to u32. */
  function Encode(f: ChunkFrame): (s: seq<Byte>)
    ensures |s| == HEADER_LEN + |f.payload|
  {
    PowersOfWidths();
    ToLE(f.chunkIndex, 8) + ToLE(|f.payload| % U32_LIMIT, 4) + f.checksum + f.payload
  }

  /** What reading one frame off the front of a stream yields: the frame and the rest. */
  function ParseFrame(s: seq<Byte>): Option<(ChunkFrame, seq<Byte>)>
  {
    if |s| < HEADER_LEN then None else
    PowersOfWidths();
    var len := FromLE(s[8..12]);
    if |s| < HEADER_LEN + len then None else
    Some((ChunkFrame(FromLE(s[..8]), s[44..44 + len], s[12..44]), s[44 + len..]))
  }

  /** `ChunkFrame::read_from`. */
  method ReadFrame(reader: ByteReader) returns (r: Result<ChunkFrame, StreamError>)
    requires reader.Valid()
    modifies reader
    ensures reader.Valid()
    ensures match ParseFrame(old(reader.Rest()))
            case Some(parsed) => r == Ok(parsed.0) && reader.Rest() == parsed.1
            case None => r == Err(UnexpectedEof) && reader.Rest() == []
  {
    hide FromLE, Pow256;
    ghost var s := reader.Rest();
    var h := reader.ReadExact(HEADER_LEN);
    if h.Err? { return Err(h.error); }
    var header := h.value;
    assert header[8..12] == s[8..12] && header[..8] == s[..8] && header[12..44] == s[12..44];
    PowersOfWidths();
    var len := FromLE(header[8..12]);
    assert |s| >= HEADER_LEN + len ==> s[44..][..len] == s[44..44 + len] && s[44..][len..] == s[44 + len..];
    var payload := reader.ReadExact(len);
    if payload.Err? { return Err(payload.error); }
    r := Ok(ChunkFrame(FromLE(header[..8]), payload.value, header[12..44]));
  }

  lemma EncodedFields(f: ChunkFrame, rest: seq<Byte>)
    ensures var s := Encode(f) + rest;
            && s[..8] == ToLE(f.chunkIndex, 8) && FromLE(s[..8]) == f.chunkIndex
            && FromLE(s[8..12]) == |f.payload| % U32_LIMIT
            && s[12..44] == f.checksum && s[44..] == f.payload + rest
  {
    PowersOfWidths();
    var s := Encode(f) + rest;
    assert s[..8] == ToLE(f.chunkIndex, 8);
    assert s[8..12] == ToLE(|f.payload| % U32_LIMIT, 4);
    LEDecodesEncoded(f.chunkIndex, 8);
    LEDecodesEncoded(|f.payload| % U32_LIMIT, 4);
  }

  /** A frame is read back, leaving the rest of the stream untouched, exactly when its
      payload length survives the cast to u32. */
  lemma FrameRoundTrips(f: ChunkFrame, rest: seq<Byte>)
    ensures ParseFrame(Encode(f) + rest) == Some((f, rest)) <==> |f.payload| < U32_LIMIT
  {
    EncodedFields(f, rest);
    var s := Encode(f) + rest;
    var len := |f.payload| % U32_LIMIT;
    assert s[44..44 + len] == s[44..][..len] == f.payload[..len];
    assert s[44 + len..] == s[44..][len..];
    if |f.payload| < U32_LIMIT {
      assert f.payload[..len] == f.payload;
    }
  }

  lemma CutInFive(s: seq<Byte>, i: nat, j: nat, k: nat, l: nat)
    requires i <= j <= k <= l <= |s|
    ensures s == s[..i] + s[i..j] + s[j..k] + s[k..l] + s[l..]
  {
    assert s[..j] == s[..i] + s[i..j];
    assert s[..k] == s[..j] + s[j..k];
    assert s[..l] == s[..k] + s[k..l];
    assert s == s[..l] + s[l..];
  }

  /** Whatever bytes are accepted as a frame are that frame's encoding: the format has no
      second spelling of any frame. */
  lemma AcceptedFrameIsCanonical(s: seq<Byte>)
    ensures match ParseFrame(s)
            case Some(parsed) => s == Encode(parsed.0) + parsed.1
            case None => true
  {
    if ParseFrame(s).Some? {
      PowersOfWidths();
      LEEncodesDecoded(s[..8]);
      LEEncodesDecoded(s[8..12]);
      CutInFive(s, 8, 12, 44, 44 + FromLE(s[8..12]));
      hide ToLE, FromLE, Pow256;
    }
  }

  function EncodeAll(fs: seq<ChunkFrame>): seq<Byte>
  {
    if fs == [] then [] else Encode(fs[0]) + EncodeAll(fs[1..])
  }

  /** Frames read one after another until a read fails, and the bytes left at that point. */
  function ParseAll(s: seq<Byte>): (seq<ChunkFrame>, seq<Byte>)
    decreases |s|
  {
    match ParseFrame(s)
    case None => ([], s)
    case Some(parsed) =>
      var tail := ParseAll(parsed.1);
      ([parsed.0] + tail.0, tail.1)
  }

  lemma {:induction false} FrameStreamRoundTrips(fs: seq<ChunkFrame>)
    requires forall f :: f in fs ==> |f.payload| < U32_LIMIT
    ensures ParseAll(EncodeAll(fs)) == (fs, [])
  {
    if fs != [] {
      FrameRoundTrips(fs[0], EncodeAll(fs[1..]));
      FrameStreamRoundTrips(fs[1..]);
      assert fs == [fs[0]] + fs[1..];
    }
  }

  // ---------------------------------------------------------------- length-prefixed frames

  /** `write_framed`: the bytes it puts on the stream. */
  function Framed(data: seq<Byte>): seq<Byte>
  {
    PowersOfWidths();
    ToLE(|data| % U32_LIMIT, 4) + data
  }

  datatype FramedRead =
    | Frame(data: seq<Byte>, rest: seq<Byte>)
    | TooLarge(len: nat, rest: seq<Byte>)
    | Eof

  function ParseFramed(s: seq<Byte>): FramedRead
  {
    if |s| < 4 then Eof else
    var len := FromLE(s[..4]);
    if len > MAX_FRAME then TooLarge(len, s[4..])
    else if |s| < 4 + len then Eof
    else Frame(s[4..4 + len], s[4 + len..])
  }

  /** `read_framed`: a length over MAX_FRAME is refused with only the length consumed. */
  method ReadFramed(reader: ByteReader) returns (r: Result<seq<Byte>, StreamError>)
    requires reader.Valid()
    modifies reader
    ensures reader.Valid()
    ensures match ParseFramed(old(reader.Rest()))
            case Frame(data, rest) => r == Ok(data) && reader.Rest() == rest
            case TooLarge(len, rest) => r == Err(FrameTooLarge(len)) && reader.Rest() == rest
            case Eof => r == Err(UnexpectedEof) && reader.Rest() == []
  {
    ghost var s := reader.Rest();
    var prefix := reader.ReadExact(4);
    if prefix.Err? { return Err(prefix.error); }
    var len := FromLE(prefix.value);
    if len > MAX_FRAME { return Err(FrameTooLarge(len)); }
    assert |s| >= 4 + len ==> s[4..][..len] == s[4..4 + len] && s[4..][len..] == s[4 + len..];
    r := reader.ReadExact(len);
  }

  /** A written frame is read back exactly when it is no longer than MAX_FRAME; one that is
      longer, but fits u32, is refused before any byte of its body is consumed. */
  lemma FramedRoundTrips(data: seq<Byte>, rest: seq<Byte>)
    ensures ParseFramed(Framed(data) + rest) == Frame(data, rest) <==> |data| <= MAX_FRAME
    ensures MAX_FRAME < |data| < U32_LIMIT ==>
              ParseFramed(Framed(data) + rest) == TooLarge(|data|, data + rest)
  {
    PowersOfWidths();
    var s := Framed(data) + rest;
    var len := |data| % U32_LIMIT;
    LEDecodesEncoded(len, 4);
    assert s[..4] == ToLE(len, 4);
    assert s[4..] == data + rest;
    assert s[4..4 + len] == s[4..][..len] == data[..len];
    assert s[4 + len..] == s[4..][len..];
    if |data| <= MAX_FRAME {
      assert data[..len] == data;
    }
  }

  function FramedAll(ds: seq<seq<Byte>>): seq<Byte>
  {
    if ds == [] then [] else Framed(ds[0]) + FramedAll(ds[1..])
  }

  /** The messages a reader loop delivers before its first failed read ends it. */
  function Delivered(s: seq<Byte>): seq<seq<Byte>>
    decreases |s|
  {
    match ParseFramed(s)
    case Frame(data, rest) => [data] + Delivered(rest)
    case _ => []
  }

  /** The messages in front of the first one that is over MAX_FRAME. */
  function BeforeOversized(ds: seq<seq<Byte>>): seq<seq<Byte>>
  {
    if ds == [] || |ds[0]| > MAX_FRAME then [] else [ds[0]] + BeforeOversized(ds[1..])
  }

  /** `loop { read_framed ... break on error }` over one stream. */
  method ReadLoop(reader: ByteReader) returns (messages: seq<seq<Byte>>)
    requires reader.Valid()
    modifies reader
    ensures reader.Valid() && messages == Delivered(old(reader.Rest()))
  {
    messages := [];
    while true
      invariant reader.Valid()
      invariant messages + Delivered(reader.Rest()) == Delivered(old(reader.Rest()))
      decreases |reader.Rest()|
    {
      var r := ReadFramed(reader);
      if r.Err? { return; }
      messages := messages + [r.value];
    }
  }

  /** One oversized message costs a reader every message behind it, and none in front. */
  lemma {:induction false} ReaderDeliversUpToOversized(ds: seq<seq<Byte>>)
    requires forall d :: d in ds ==> |d| < U32_LIMIT
    ensures Delivered(FramedAll(ds)) == BeforeOversized(ds)
    ensures Delivered(FramedAll(ds)) == ds <==> forall d :: d in ds ==> |d| <= MAX_FRAME
  {
    if ds != [] {
      FramedRoundTrips(ds[0], FramedAll(ds[1..]));
      ReaderDeliversUpToOversized(ds[1..]);
      if |ds[0]| <= MAX_FRAME {
        var tail := Delivered(FramedAll(ds[1..]));
        assert Delivered(FramedAll(ds)) == [ds[0]] + tail;
        assert ds == [ds[0]] + ds[1..];
        assert ([ds[0]] + tail)[1..] == tail;
      }
    }
  }
}
