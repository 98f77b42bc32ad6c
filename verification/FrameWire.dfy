/** The wire format octet by octet: which bytes a frame becomes, which buffers hold a frame, and
    which error every other buffer gives. */
module FrameWire {
  import opened Common
  import opened Bytes
  import opened FrameCodecs

  // ---------------------------------------------------------------- octets

  /** Four octets as one number, most significant first. */
  function Joined(a: nat, b: nat, c: nat, d: nat): nat {
    a * 0x100_0000 + b * 0x1_0000 + c * 0x100 + d
  }

  /** The 32-bit number in the four octets at `at`. */
  function Word(s: seq<Byte>, at: nat): U32
    requires at + 4 <= |s|
  {
    Joined(s[at], s[at + 1], s[at + 2], s[at + 3])
  }

  function Long(s: seq<Byte>, at: nat): U64
    requires at + 8 <= |s|
  {
    Word(s, at) * 0x1_0000_0000 + Word(s, at + 4)
  }

  lemma WordRead(s: seq<Byte>)
    requires |s| == 4
    ensures FromBigEndian(s) == Word(s, 0)
  {
    var a, b, c := s[..3], s[..2], s[..1];
    assert a[..2] == b && b[..1] == c && c[..0] == [];
    assert FromBigEndian(c) == s[0];
    assert FromBigEndian(b) == Joined(0, 0, s[0], s[1]);
    assert FromBigEndian(a) == Joined(0, s[0], s[1], s[2]);
  }

  lemma {:induction false} ReadConcat(high: seq<Byte>, low: seq<Byte>)
    ensures FromBigEndian(high + low) == FromBigEndian(high) * Power(256, |low|) + FromBigEndian(low)
    decreases |low|
  {
    if low == [] {
      assert high + low == high;
    } else {
      var front, last, n := low[..|low| - 1], low[|low| - 1], |low|;
      ReadConcat(high, front);
      assert (high + low)[..|high + low| - 1] == high + front;
      Regrouped(FromBigEndian(high), Power(256, n - 1), FromBigEndian(front), last);
    }
  }

  lemma Regrouped(high: nat, weight: nat, front: nat, last: nat)
    ensures (high * weight + front) * 256 + last == high * (256 * weight) + (front * 256 + last)
  {
  }

  lemma LongRead(s: seq<Byte>)
    requires |s| == 8
    ensures FromBigEndian(s) == Long(s, 0)
  {
    assert s == s[..4] + s[4..];
    ReadConcat(s[..4], s[4..]);
    WordRead(s[..4]);
    WordRead(s[4..]);
    Widths();
  }

  lemma ShortRead(s: seq<Byte>)
    requires |s| == 2
    ensures FromBigEndian(s) == Joined(0, 0, s[0], s[1])
  {
    assert s[..1][..0] == [];
    assert FromBigEndian(s[..1]) == s[0];
  }

  // ---------------------------------------------------------------- the header

  predicate Magic(s: seq<Byte>)
    requires 28 <= |s|
  {
    s[0] == 0x45 && s[1] == 0x4C && s[2] == 0x52 && s[3] == 0x32
  }

  predicate Version2(s: seq<Byte>)
    requires 28 <= |s|
  {
    s[4] == 0 && s[5] == 2
  }

  predicate Coded(kind: FrameKind, code: Byte) {
    match kind
    case Request => code == 1
    case Response => code == 2
    case Push => code == 3
    case Failure => code == 4
  }

  /** The fields of `h` stand in the first 28 octets of `s`. */
  predicate Stands(s: seq<Byte>, h: Header)
    requires 28 <= |s|
  {
    && Coded(h.kind, s[6])
    && h.flags == s[7]
    && h.route == Word(s, 8)
    && h.requestId == Long(s, 12)
    && h.sequence == Word(s, 20)
    && h.length == Word(s, 24)
  }

  /** The header reader, exactly. */
  lemma HeaderExactly(s: seq<Byte>)
    requires 28 <= |s|
    ensures ReadHeader(s) == Err(BadMagic) <==> !Magic(s)
    ensures ReadHeader(s) == Err(BadVersion) <==> Magic(s) && !Version2(s)
    ensures ReadHeader(s) == Err(BadKind) <==> Magic(s) && Version2(s) && !(1 <= s[6] <= 4)
    ensures ReadHeader(s).Ok? <==> Magic(s) && Version2(s) && 1 <= s[6] <= 4
    ensures ReadHeader(s).Ok? ==> Stands(s, ReadHeader(s).value)
  {
    hide FromBigEndian, Word, Long, Power;
    WordAt(s, 0);
    ShortRead(s[4..6]);
    WordAt(s, 8);
    LongAt(s, 12);
    WordAt(s, 20);
    WordAt(s, 24);
    MagicNumber(s);
    VersionNumber(s[4], s[5]);
    hide Joined;
  }

  lemma WordAt(s: seq<Byte>, at: nat)
    requires at + 4 <= |s|
    ensures FromBigEndian(s[at..at + 4]) == Word(s, at)
  {
    WordRead(s[at..at + 4]);
  }

  lemma LongAt(s: seq<Byte>, at: nat)
    requires at + 8 <= |s|
    ensures FromBigEndian(s[at..at + 8]) == Long(s, at)
  {
    hide FromBigEndian, Joined, Power;
    LongRead(s[at..at + 8]);
  }

  lemma MagicNumber(s: seq<Byte>)
    requires 28 <= |s|
    ensures Word(s, 0) == MAGIC <==> Magic(s)
  {
  }

  lemma VersionNumber(a: Byte, b: Byte)
    ensures Joined(0, 0, a, b) == VERSION <==> a == 0 && b == 2
  {
  }

  // ---------------------------------------------------------------- encoding

  /** A frame is encoded if and only if it is well formed, and each broken rule, the first one
      counting, gives its own error. */
  lemma EncodeExactly(max: nat, f: Frame)
    ensures var r := Encode(max, f);
            var small, plain, routed := |f.payload| <= max, f.flags == 0, f.route != 0;
            && (r.Ok? <==> WellFormed(max, f))
            && (r == Err(PayloadTooLarge) <==> !small)
            && (r == Err(BadFlags) <==> small && !plain)
            && (r == Err(ZeroRoute) <==> small && plain && !routed)
            && (r == Err(ZeroRequestId) <==> small && plain && routed && f.kind != Push && f.requestId == 0)
            && (r == Err(PushRequestId) <==> small && plain && routed && f.kind == Push && f.requestId != 0)
  {
  }

  /** The octets of an encoded frame. */
  lemma EncodedOctets(max: nat, f: Frame)
    requires ValidMaximum(max) && WellFormed(max, f)
    ensures var r := Encode(max, f);
            && r.Ok?
            && |r.value| == 28 + |f.payload|
            && Magic(r.value) && Version2(r.value) && Coded(f.kind, r.value[6]) && r.value[7] == 0
            && Word(r.value, 8) == f.route && Long(r.value, 12) == f.requestId && Word(r.value, 20) == f.sequence
            && Word(r.value, 24) == |f.payload| && r.value[28..] == f.payload
  {
    hide HeaderBytes, ReadHeader, Word, Long;
    EncodeExactly(max, f);
    var s := HeaderBytes(HeaderOf(f)) + f.payload;
    HeaderReadBack(HeaderOf(f), f.payload);
    HeaderExactly(s);
  }

  // ---------------------------------------------------------------- decoding

  /** The frame whose header and body stand at the front of a buffer. */
  ghost predicate FrameAt(s: seq<Byte>, f: Frame) {
    && 28 + |f.payload| <= |s|
    && Magic(s) && Version2(s) && Coded(f.kind, s[6]) && f.flags == s[7]
    && f.route == Word(s, 8) && f.requestId == Long(s, 12) && f.sequence == Word(s, 20)
    && |f.payload| == Word(s, 24) && f.payload == s[28..28 + |f.payload|]
  }

  /** A buffer gives a frame if and only if a well-formed frame stands at its front; what is
      behind the frame stays. */
  lemma CompleteExactly(max: nat, s: seq<Byte>, f: Frame)
    ensures (exists rest :: Decode(max, s) == Complete(f, rest)) <==> FrameAt(s, f) && WellFormed(max, f)
    ensures Decode(max, s).Complete? ==> Decode(max, s).rest == s[28 + |Decode(max, s).frame.payload|..]
  {
    hide ReadHeader;
    if 28 <= |s| {
      HeaderExactly(s);
      hide Word, Long;
      if FrameAt(s, f) && WellFormed(max, f) {
        assert Decode(max, s) == Complete(f, s[28 + |f.payload|..]);
      }
    }
  }

  /** A buffer is waited on if and only if its header is cut, or is sound and its body is cut. */
  lemma IncompleteExactly(max: nat, s: seq<Byte>)
    ensures Decode(max, s).Incomplete? <==>
            |s| < 28 || (&& Magic(s) && Version2(s) && 1 <= s[6] <= 4
                         && Word(s, 24) <= max && |s| < 28 + Word(s, 24))
  {
    hide ReadHeader;
    if 28 <= |s| {
      HeaderExactly(s);
      hide Word, Long;
    }
  }

  /** An unsound header refuses the buffer and leaves it; a frame that breaks a rule is refused
      and consumed, with the error that encoding it would give. */
  lemma RefusedExactly(max: nat, s: seq<Byte>, e: FrameError, left: seq<Byte>)
    ensures Decode(max, s) == Refused(e, left) <==>
            && 28 <= |s|
            && (|| (left == s && e == BadMagic && !Magic(s))
                || (left == s && e == BadVersion && Magic(s) && !Version2(s))
                || (left == s && e == BadKind && Magic(s) && Version2(s) && !(1 <= s[6] <= 4))
                || (&& left == s && e == PayloadTooLarge && Magic(s) && Version2(s) && 1 <= s[6] <= 4
                    && Word(s, 24) > max)
                || exists f :: FrameAt(s, f) && left == s[28 + |f.payload|..] && |f.payload| <= max
                               && Encode(max, f) == Err(e))
  {
    hide ReadHeader, Encode, Fault;
    if 28 <= |s| {
      HeaderExactly(s);
      hide Word, Long;
      var h := ReadHeader(s);
      if h.Ok? && h.value.length <= max && 28 + h.value.length <= |s| {
        var f := FrameOf(h.value, s[28..28 + h.value.length]);
        assert FrameAt(s, f);
        FaultIsEncodeError(max, f);
        forall g | FrameAt(s, g)
          ensures g == f
        {
        }
      } else {
        forall f | FrameAt(s, f)
          ensures |f.payload| > max
        {
        }
      }
    }
  }

  lemma FaultIsEncodeError(max: nat, f: Frame)
    ensures Encode(max, f) == match Fault(max, f) case Some(e) => Err(e)
                              case None => Ok(HeaderBytes(HeaderOf(f)) + f.payload)
  {
    hide HeaderBytes;
  }

  /** A message gives a frame if and only if it is that frame, well formed, and nothing else. */
  lemma MessageExactly(max: nat, s: seq<Byte>, f: Frame)
    ensures DecodeMessage(max, s) == Ok(f) <==> FrameAt(s, f) && |s| == 28 + |f.payload| && WellFormed(max, f)
  {
    hide Decode, DecodeMessage, FrameAt, WellFormed;
    MessageIsWholeBuffer(max, s, f);
    CompleteExactly(max, s, f);
    if FrameAt(s, f) && WellFormed(max, f) {
      FrameFits(s, f);
      var rest :| Decode(max, s) == Complete(f, rest);
      assert |rest| == |s| - 28 - |f.payload|;
    }
  }

  lemma FrameFits(s: seq<Byte>, f: Frame)
    requires FrameAt(s, f)
    ensures 28 + |f.payload| <= |s|
  {
  }
}
