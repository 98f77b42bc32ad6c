/** The ELR2 frame codec: header layout, validation, stream and message decoding. */
module FrameCodecs {
  import opened Common
  import opened Bytes

  const MAGIC: U32 := 0x454C_5232
  const VERSION: nat := 2
  const HEADER_LEN: nat := 28
  const MAX_PAYLOAD_LIMIT: nat := 0x400_0000  // 64 MiB

  datatype FrameKind = Request | Response | Push | Failure

  datatype Frame = Frame(kind: FrameKind, flags: Byte, route: U32, requestId: U64, sequence: U32, payload: seq<Byte>)

  datatype FrameError =
    | BadMagic | BadVersion | BadKind | PayloadTooLarge | BadFlags | ZeroRoute | ZeroRequestId | PushRequestId
    | Truncated | NotOneFrame | InvalidMaximum

  function KindCode(kind: FrameKind): Byte {
    match kind
    case Request => 1
    case Response => 2
    case Push => 3
    case Failure => 4
  }

  function KindOf(code: Byte): Option<FrameKind> {
    if code == 1 then Some(Request)
    else if code == 2 then Some(Response)
    else if code == 3 then Some(Push)
    else if code == 4 then Some(Failure)
    else None
  }

  predicate ValidMaximum(max: nat) {
    0 < max <= MAX_PAYLOAD_LIMIT
  }

  /** The first rule a frame breaks. */
  function Fault(max: nat, f: Frame): Option<FrameError> {
    if |f.payload| > max then Some(PayloadTooLarge)
    else if f.flags != 0 then Some(BadFlags)
    else if f.route == 0 then Some(ZeroRoute)
    else if f.kind != Push && f.requestId == 0 then Some(ZeroRequestId)
    else if f.kind == Push && f.requestId != 0 then Some(PushRequestId)
    else None
  }

  /** A frame that may travel: small enough, no flags, a route, and a request number exactly
      when it belongs to a request. */
  predicate WellFormed(max: nat, f: Frame) {
    && |f.payload| <= max
    && f.flags == 0
    && f.route != 0
    && (f.requestId == 0 <==> f.kind == Push)
  }

  // ---------------------------------------------------------------- header

  datatype Header = Header(kind: FrameKind, flags: Byte, route: U32, requestId: U64, sequence: U32, length: U32)

  function HeaderBytes(h: Header): (s: seq<Byte>)
    ensures |s| == HEADER_LEN
  {
    BigEndian(MAGIC, 4) + BigEndian(VERSION, 2) + [KindCode(h.kind)] + [h.flags] +
    BigEndian(h.route, 4) + BigEndian(h.requestId, 8) + BigEndian(h.sequence, 4) + BigEndian(h.length, 4)
  }

  function Number32(s: seq<Byte>): U32
    requires |s| == 4
  {
    Widths();
    FromBigEndian(s)
  }

  function Number64(s: seq<Byte>): U64
    requires |s| == 8
  {
    Widths();
    FromBigEndian(s)
  }

  function ReadHeader(s: seq<Byte>): Result<Header, FrameError>
    requires |s| >= HEADER_LEN
  {
    if FromBigEndian(s[0..4]) != MAGIC then Err(BadMagic)
    else if FromBigEndian(s[4..6]) != VERSION then Err(BadVersion)
    else
      var kind := KindOf(s[6]);
      if kind.None? then Err(BadKind)
      else Ok(Header(kind.value, s[7], Number32(s[8..12]), Number64(s[12..20]), Number32(s[20..24]),
          Number32(s[24..28])))
  }

  /** The eight fields lie where the reader looks for them. */
  lemma Fields(
      a: seq<Byte>, b: seq<Byte>, c: Byte, d: Byte, e: seq<Byte>, f: seq<Byte>, g: seq<Byte>, h: seq<Byte>,
      rest: seq<Byte>)
    requires |a| == 4 && |b| == 2 && |e| == 4 && |f| == 8 && |g| == 4 && |h| == 4
    ensures var s := (a + b + [c] + [d] + e + f + g + h) + rest;
            && s[0..4] == a && s[4..6] == b && s[6] == c && s[7] == d
            && s[8..12] == e && s[12..20] == f && s[20..24] == g && s[24..28] == h
  {
  }

  lemma HeaderReadBack(h: Header, rest: seq<Byte>)
    ensures ReadHeader(HeaderBytes(h) + rest) == Ok(h)
  {
    Widths();
    Fields(BigEndian(MAGIC, 4), BigEndian(VERSION, 2), KindCode(h.kind), h.flags, BigEndian(h.route, 4),
           BigEndian(h.requestId, 8), BigEndian(h.sequence, 4), BigEndian(h.length, 4), rest);
    ReadBack(MAGIC, 4);
    ReadBack(VERSION, 2);
    ReadBack(h.route, 4);
    ReadBack(h.requestId, 8);
    ReadBack(h.sequence, 4);
    ReadBack(h.length, 4);
    hide BigEndian, FromBigEndian, Power;
  }

  lemma Pieces(s: seq<Byte>)
    requires |s| >= HEADER_LEN
    ensures s[..28] == s[0..4] + s[4..6] + [s[6]] + [s[7]] + s[8..12] + s[12..20] + s[20..24] + s[24..28]
  {
  }

  lemma HeaderWriteBack(s: seq<Byte>)
    requires |s| >= HEADER_LEN
    requires ReadHeader(s).Ok?
    ensures HeaderBytes(ReadHeader(s).value) == s[..28]
  {
    Pieces(s);
    WriteBack(s[0..4]);
    WriteBack(s[4..6]);
    WriteBack(s[8..12]);
    WriteBack(s[12..20]);
    WriteBack(s[20..24]);
    WriteBack(s[24..28]);
    hide BigEndian, FromBigEndian, Power;
  }

  // ---------------------------------------------------------------- frames

  function FrameOf(h: Header, payload: seq<Byte>): Frame {
    Frame(h.kind, h.flags, h.route, h.requestId, h.sequence, payload)
  }

  /** The payload length is written as a truncated 32-bit count. */
  function HeaderOf(f: Frame): Header {
    Header(f.kind, f.flags, f.route, f.requestId, f.sequence, |f.payload| % 0x1_0000_0000)
  }

  function Encode(max: nat, f: Frame): Result<seq<Byte>, FrameError> {
    var fault := Fault(max, f);
    if fault.Some? then Err(fault.value) else Ok(HeaderBytes(HeaderOf(f)) + f.payload)
  }

  /** What one attempt to decode a stream buffer leaves: too few bytes and the buffer as it
      was, a frame and the bytes behind it, or an error and what the buffer then holds. */
  datatype Decoded = Incomplete | Complete(frame: Frame, rest: seq<Byte>) | Refused(error: FrameError, left: seq<Byte>)

  function Decode(max: nat, source: seq<Byte>): Decoded {
    if |source| < HEADER_LEN then Incomplete
    else
      var h := ReadHeader(source);
      if h.Err? then Refused(h.error, source)
      else if h.value.length > max then Refused(PayloadTooLarge, source)
      else if |source| < HEADER_LEN + h.value.length then Incomplete
      else
        var end := HEADER_LEN + h.value.length;
        var f := FrameOf(h.value, source[HEADER_LEN..end]);
        var fault := Fault(max, f);
        if fault.Some? then Refused(fault.value, source[end..]) else Complete(f, source[end..])
  }

  function DecodeMessage(max: nat, source: seq<Byte>): Result<Frame, FrameError> {
    if |source| < HEADER_LEN then Err(Truncated)
    else
      var h := ReadHeader(source);
      if h.Err? then Err(h.error)
      else if h.value.length > max then Err(PayloadTooLarge)
      else if |source| != HEADER_LEN + h.value.length then Err(NotOneFrame)
      else
        var f := FrameOf(h.value, source[HEADER_LEN..]);
        var fault := Fault(max, f);
        if fault.Some? then Err(fault.value) else Ok(f)
  }

  /** Encoding then decoding, with anything behind the frame in the buffer. */
  lemma DecodeOfEncode(max: nat, f: Frame, rest: seq<Byte>)
    requires ValidMaximum(max)
    requires Encode(max, f).Ok?
    ensures Decode(max, Encode(max, f).value + rest) == Complete(f, rest)
  {
    hide HeaderBytes, ReadHeader;
    var h := HeaderBytes(HeaderOf(f));
    HeaderReadBack(HeaderOf(f), f.payload + rest);
    Layout(h, f.payload, rest);
    assert Fault(max, f).None? && |f.payload| <= max;
    assert HeaderOf(f).length == |f.payload|;
    assert FrameOf(HeaderOf(f), f.payload) == f;
    hide Fault;
  }

  lemma Layout(h: seq<Byte>, payload: seq<Byte>, rest: seq<Byte>)
    requires |h| == HEADER_LEN
    ensures var s := (h + payload) + rest;
            && s == h + (payload + rest)
            && s[HEADER_LEN..HEADER_LEN + |payload|] == payload
            && s[HEADER_LEN + |payload|..] == rest
  {
  }

  /** A frame has one encoding: whatever bytes decode to it are the bytes it encodes to. */
  lemma EncodeOfDecode(max: nat, source: seq<Byte>)
    requires Decode(max, source).Complete?
    ensures var d := Decode(max, source);
            Encode(max, d.frame).Ok? && source == Encode(max, d.frame).value + d.rest
  {
    HeaderWriteBack(source);
    var h := ReadHeader(source).value;
    var end := HEADER_LEN + h.length;
    var d := Decode(max, source);
    assert d.frame == FrameOf(h, source[28..end]) && d.rest == source[end..];
    assert Fault(max, d.frame).None?;
    hide HeaderBytes, ReadHeader, Decode, Fault;
    assert HeaderOf(d.frame) == h;
    assert source == source[..28] + source[28..end] + source[end..];
  }

  /** The message decoder accepts exactly the buffers that hold one frame and nothing else. */
  lemma MessageIsWholeBuffer(max: nat, source: seq<Byte>, f: Frame)
    ensures DecodeMessage(max, source) == Ok(f) <==> Decode(max, source) == Complete(f, [])
  {
    hide ReadHeader;
    if |source| >= HEADER_LEN && ReadHeader(source).Ok? && |source| == HEADER_LEN + ReadHeader(source).value.length {
      assert source[HEADER_LEN..|source|] == source[HEADER_LEN..];
    }
  }

  /** Where the two decoders disagree: exactly on a cut header or body, or on bytes behind
      the first frame of a well-formed header. */
  lemma MessageErrors(max: nat, source: seq<Byte>, e: FrameError)
    requires e != Truncated && e != NotOneFrame
    ensures DecodeMessage(max, source) == Err(e) <==>
            (exists left :: Decode(max, source) == Refused(e, left) && (left == source || left == []))
  {
    hide ReadHeader;
    var d := Decode(max, source);
    if d.Refused? && |source| >= HEADER_LEN {
      assert d == Refused(d.error, d.left);
      var h := ReadHeader(source);
      if h.Ok? && h.value.length <= max {
        assert |d.left| < |source|;
        if |source| == HEADER_LEN + h.value.length {
          assert source[HEADER_LEN..|source|] == source[HEADER_LEN..];
          assert d.left == [];
        }
      }
    }
  }

  // ---------------------------------------------------------------- streams

  lemma ReadHeaderPrefix(source: seq<Byte>, more: seq<Byte>)
    requires |source| >= HEADER_LEN
    ensures ReadHeader(source + more) == ReadHeader(source)
  {
    var s := source + more;
    assert s[0..4] == source[0..4] && s[4..6] == source[4..6];
    assert s[8..12] == source[8..12] && s[12..20] == source[12..20];
    assert s[20..24] == source[20..24] && s[24..28] == source[24..28];
    hide FromBigEndian, Number32, Number64;
  }

  /** Bytes still to come never change a verdict already reached. */
  lemma DecodeSettled(max: nat, source: seq<Byte>, more: seq<Byte>)
    ensures var d := Decode(max, source);
            && (d.Complete? ==> Decode(max, source + more) == Complete(d.frame, d.rest + more))
            && (d.Refused? ==> Decode(max, source + more) == Refused(d.error, d.left + more))
  {
    if |source| >= HEADER_LEN {
      ReadHeaderPrefix(source, more);
      hide ReadHeader;
      var h := ReadHeader(source);
      if h.Ok? && |source| >= HEADER_LEN + h.value.length {
        var end := HEADER_LEN + h.value.length;
        assert (source + more)[HEADER_LEN..end] == source[HEADER_LEN..end];
        assert (source + more)[end..] == source[end..] + more;
      }
    }
  }

  lemma DecodeShrinks(max: nat, source: seq<Byte>)
    requires Decode(max, source).Complete?
    ensures |Decode(max, source).rest| < |source|
  {
  }

  /** A reader's state: waiting with a partial buffer, or closed by an error. */
  datatype Reader = Open(buffer: seq<Byte>) | Closed(error: FrameError)

  datatype Reading = Reading(frames: seq<Frame>, reader: Reader)

  /** All frames a buffer holds before it runs short or breaks. */
  function Drain(max: nat, buffer: seq<Byte>): Reading
    decreases |buffer|
  {
    var d := Decode(max, buffer);
    match d
    case Incomplete => Reading([], Open(buffer))
    case Refused(error, _) => Reading([], Closed(error))
    case Complete(frame, rest) =>
      DecodeShrinks(max, buffer);
      var later := Drain(max, rest);
      Reading([frame] + later.frames, later.reader)
  }

  /** One chunk arriving at the reader. */
  function Feed(max: nat, r: Reading, chunk: seq<Byte>): Reading {
    if r.reader.Closed? then r
    else
      var more := Drain(max, r.reader.buffer + chunk);
      Reading(r.frames + more.frames, more.reader)
  }

  function FeedAll(max: nat, chunks: seq<seq<Byte>>): Reading {
    if chunks == [] then Reading([], Open([]))
    else Feed(max, FeedAll(max, chunks[..|chunks| - 1]), chunks[|chunks| - 1])
  }

  function Concatenated(chunks: seq<seq<Byte>>): seq<Byte> {
    if chunks == [] then [] else Concatenated(chunks[..|chunks| - 1]) + chunks[|chunks| - 1]
  }

  lemma {:induction false} DrainThenFeed(max: nat, buffer: seq<Byte>, chunk: seq<Byte>)
    ensures Feed(max, Drain(max, buffer), chunk) == Drain(max, buffer + chunk)
    decreases |buffer|
  {
    hide Decode;
    DecodeSettled(max, buffer, chunk);
    var d := Decode(max, buffer);
    if d.Incomplete? {
      var more := Drain(max, buffer + chunk);
      assert [] + more.frames == more.frames;
    } else if d.Complete? {
      DecodeShrinks(max, buffer);
      DrainThenFeed(max, d.rest, chunk);
      var later := Drain(max, d.rest);
      if later.reader.Open? {
        var more := Drain(max, later.reader.buffer + chunk);
        assert [d.frame] + (later.frames + more.frames) == ([d.frame] + later.frames) + more.frames;
      }
    }
  }

  /** However the transport cuts the stream, the same frames come out in the same order, and
      the stream ends waiting or broken the same way. */
  lemma {:induction false} ChunkingIrrelevant(max: nat, chunks: seq<seq<Byte>>)
    ensures FeedAll(max, chunks) == Drain(max, Concatenated(chunks))
  {
    if chunks != [] {
      var front := chunks[..|chunks| - 1];
      ChunkingIrrelevant(max, front);
      DrainThenFeed(max, Concatenated(front), chunks[|chunks| - 1]);
    }
  }

  predicate Sendable(max: nat, frames: seq<Frame>) {
    forall i :: 0 <= i < |frames| ==> WellFormed(max, frames[i])
  }

  function EncodeAll(max: nat, frames: seq<Frame>): seq<Byte>
    requires Sendable(max, frames)
  {
    if frames == [] then [] else Encode(max, frames[0]).value + EncodeAll(max, frames[1..])
  }

  lemma {:induction false} DrainOfEncodeAll(max: nat, frames: seq<Frame>)
    requires ValidMaximum(max) && Sendable(max, frames)
    ensures Drain(max, EncodeAll(max, frames)) == Reading(frames, Open([]))
  {
    if frames != [] {
      var rest := EncodeAll(max, frames[1..]);
      DecodeOfEncode(max, frames[0], rest);
      DrainOfEncodeAll(max, frames[1..]);
      assert frames == [frames[0]] + frames[1..];
    }
  }

  /** The transport's promise: any valid frames, encoded in order and cut anywhere, arrive as
      the same frames in the same order with nothing left over. */
  lemma StreamRoundTrip(max: nat, frames: seq<Frame>, chunks: seq<seq<Byte>>)
    requires ValidMaximum(max) && Sendable(max, frames)
    requires Concatenated(chunks) == EncodeAll(max, frames)
    ensures FeedAll(max, chunks) == Reading(frames, Open([]))
  {
    ChunkingIrrelevant(max, chunks);
    DrainOfEncodeAll(max, frames);
  }

  // ---------------------------------------------------------------- the buffer

  class FrameBuffer {
    const maxPayload: nat
    var bytes: seq<Byte>

    constructor (max: nat)
      requires ValidMaximum(max)
      ensures maxPayload == max && bytes == []
    {
      maxPayload, bytes := max, [];
    }

    static method New(max: nat) returns (r: Result<FrameBuffer, FrameError>)
      ensures r.Ok? <==> ValidMaximum(max)
      ensures r.Ok? ==> fresh(r.value) && r.value.maxPayload == max && r.value.bytes == []
    {
      if max == 0 || max > MAX_PAYLOAD_LIMIT {
        return Err(InvalidMaximum);
      }
      var buffer := new FrameBuffer(max);
      r := Ok(buffer);
    }

    method Append(chunk: seq<Byte>)
      modifies this
      ensures bytes == old(bytes) + chunk
    {
      bytes := bytes + chunk;
    }

    method Write(f: Frame) returns (fault: Option<FrameError>)
      modifies this
      ensures fault.None? <==> WellFormed(maxPayload, f)
      ensures fault.Some? ==> Encode(maxPayload, f) == Err(fault.value) && bytes == old(bytes)
      ensures fault.None? ==> Encode(maxPayload, f).Ok? && bytes == old(bytes) + Encode(maxPayload, f).value
    {
      fault := Fault(maxPayload, f);
      if fault.Some? {
        return;
      }
      bytes := bytes + HeaderBytes(HeaderOf(f));
      bytes := bytes + f.payload;
    }

    /** `None` waits for more bytes. */
    method Next() returns (r: Result<Option<Frame>, FrameError>)
      modifies this
      ensures var d := Decode(maxPayload, old(bytes));
              && (d.Incomplete? ==> r == Ok(None) && bytes == old(bytes))
              && (d.Complete? ==> r == Ok(Some(d.frame)) && bytes == d.rest)
              && (d.Refused? ==> r == Err(d.error) && bytes == d.left)
      ensures r.Ok? && r.value.Some? ==> WellFormed(maxPayload, r.value.value)
    {
      if |bytes| < HEADER_LEN {
        return Ok(None);
      }
      var header := ReadHeader(bytes);
      if header.Err? {
        return Err(header.error);
      }
      if header.value.length > maxPayload {
        return Err(PayloadTooLarge);
      }
      if |bytes| < HEADER_LEN + header.value.length {
        return Ok(None);
      }
      ghost var end := HEADER_LEN + header.value.length;
      assert bytes[HEADER_LEN..][..header.value.length] == bytes[HEADER_LEN..end];
      assert bytes[HEADER_LEN..][header.value.length..] == bytes[end..];
      bytes := bytes[HEADER_LEN..];
      var f := FrameOf(header.value, bytes[..header.value.length]);
      bytes := bytes[header.value.length..];
      var fault := Fault(maxPayload, f);
      r := if fault.Some? then Err(fault.value) else Ok(Some(f));
    }
  }
}
