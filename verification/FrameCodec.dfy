/**
 The wire format of protocol frames: MAGIC(4) VERSION(1) FLAGS(1) TYPE(2) LENGTH(4) PAYLOAD,
 all multi-byte fields big-endian.
 */
module FrameCodec {
  import opened Wrappers
  import opened Bytes

  const MAGIC: nat := 0x524F424F
  const VERSION: Byte := 1
  const HEADER_SIZE: nat := 12
  const MAX_PAYLOAD: nat := 1_048_576

  datatype CommandType =
    | Connect | GetStatus | Enable | Disable | Home | MoveJoint | MoveLinear
    | Stop | EmergencyStop | GetPosition | GetIO | SetIO | ResetFault | InjectFault

  /** The TYPE field: the fourteen commands are numbered from 1. */
  function Code(t: CommandType): nat {
    match t
    case Connect => 1
    case GetStatus => 2
    case Enable => 3
    case Disable => 4
    case Home => 5
    case MoveJoint => 6
    case MoveLinear => 7
    case Stop => 8
    case EmergencyStop => 9
    case GetPosition => 10
    case GetIO => 11
    case SetIO => 12
    case ResetFault => 13
    case InjectFault => 14
  }

  /** `isKnownCommandType` together with the cast that follows it. */
  function CommandOf(raw: nat): (t: Option<CommandType>)
    ensures t.Some? ==> Code(t.value) == raw
    ensures forall c :: Code(c) == raw ==> t == Some(c)
  {
    match raw
    case 1 => Some(Connect)
    case 2 => Some(GetStatus)
    case 3 => Some(Enable)
    case 4 => Some(Disable)
    case 5 => Some(Home)
    case 6 => Some(MoveJoint)
    case 7 => Some(MoveLinear)
    case 8 => Some(Stop)
    case 9 => Some(EmergencyStop)
    case 10 => Some(GetPosition)
    case 11 => Some(GetIO)
    case 12 => Some(SetIO)
    case 13 => Some(ResetFault)
    case 14 => Some(InjectFault)
    case _ => None
  }

  datatype Frame = Frame(flags: Byte, kind: CommandType, payload: seq<Byte>)

  datatype ProtocolError = Incomplete | InvalidMagic | UnsupportedVersion | UnknownCommandType | PayloadTooLarge

  datatype Decoded = Decoded(frame: Frame, consumed: nat)

  /** The header written for `f`; the LENGTH field keeps the low 32 bits of the payload size. */
  function Header(f: Frame): (h: seq<Byte>)
    ensures |h| == HEADER_SIZE
  {
    BigEndian(MAGIC, 4) + [VERSION, f.flags] + BigEndian(Code(f.kind), 2) + BigEndian(|f.payload|, 4)
  }

  function Encoding(f: Frame): seq<Byte> {
    Header(f) + f.payload
  }

  method WriteU32(buffer: seq<Byte>, value: nat) returns (out: seq<Byte>)
    ensures out == buffer + BigEndian(value, 4)
  {
    out := buffer + [value / 0x100_0000 % 0x100];
    out := out + [value / 0x1_0000 % 0x100];
    out := out + [value / 0x100 % 0x100];
    out := out + [value % 0x100];
    FourBytes(value);
  }

  lemma FourBytes(v: nat)
    ensures BigEndian(v, 4) == [v / 0x100_0000 % 0x100, v / 0x1_0000 % 0x100, v / 0x100 % 0x100, v % 0x100]
  {
    var a, b, c := v / 0x100, v / 0x1_0000, v / 0x100_0000;
    assert a / 0x100 == b && b / 0x100 == c;
    assert BigEndian(v, 4) == BigEndian(a, 3) + [v % 0x100];
    assert BigEndian(a, 3) == BigEndian(b, 2) + [a % 0x100];
    assert BigEndian(b, 2) == BigEndian(c, 1) + [b % 0x100];
    assert BigEndian(c, 1) == BigEndian(c / 0x100, 0) + [c % 0x100];
  }

  /** `FrameCodec::encode`. */
  method Encode(f: Frame) returns (out: seq<Byte>)
    ensures out == Encoding(f)
  {
    out := WriteU32([], MAGIC);
    out := out + [VERSION];
    out := out + [f.flags];
    out := WriteU16(out, Code(f.kind));
    out := WriteU32(out, |f.payload| % 0x1_0000_0000);
    TruncatedLength(|f.payload|);
    out := out + f.payload;
  }

  /** Casting the size to 32 bits before writing it changes no byte. */
  lemma TruncatedLength(n: nat)
    ensures BigEndian(n % 0x1_0000_0000, 4) == BigEndian(n, 4)
  {
    ReadWritten32(n);
    WriteRead(BigEndian(n, 4));
  }

  function ReadU16(b: seq<Byte>): nat
    requires |b| == 2
  {
    b[0] as nat * 0x100 + b[1]
  }

  function ReadU32(b: seq<Byte>): nat
    requires |b| == 4
  {
    b[0] as nat * 0x100_0000 + b[1] as nat * 0x1_0000 + b[2] as nat * 0x100 + b[3]
  }

  /** `FrameCodec::decode`: exactly one frame from the front of `bytes`. */
  function Decode(bytes: seq<Byte>): Result<Decoded, ProtocolError> {
    if |bytes| < HEADER_SIZE then Err(Incomplete)
    else if ReadU32(bytes[0..4]) != MAGIC then Err(InvalidMagic)
    else if bytes[4] != VERSION then Err(UnsupportedVersion)
    else
      var kind := CommandOf(ReadU16(bytes[6..8]));
      if kind.None? then Err(UnknownCommandType)
      else
        var length := ReadU32(bytes[8..12]);
        if length > MAX_PAYLOAD then Err(PayloadTooLarge)
        else if |bytes| < HEADER_SIZE + length then Err(Incomplete)
        else Ok(Decoded(Frame(bytes[5], kind.value, bytes[HEADER_SIZE..HEADER_SIZE + length]), HEADER_SIZE + length))
  }

  lemma ReadersAgree(b: seq<Byte>)
    ensures |b| == 2 ==> ReadU16(b) == FromBigEndian(b)
    ensures |b| == 4 ==> ReadU32(b) == FromBigEndian(b)
  {
    if |b| == 2 || |b| == 4 {
      var p := b[..|b| - 1];
      assert FromBigEndian(b) == 256 * FromBigEndian(p) + b[|b| - 1];
      assert FromBigEndian(p) == 256 * FromBigEndian(p[..|p| - 1]) + p[|p| - 1];
      assert |b| == 2 ==> p[..|p| - 1] == [];
      if |b| == 4 {
        var q := p[..|p| - 1];
        assert FromBigEndian(q) == 256 * FromBigEndian(q[..1]) + q[1];
        assert FromBigEndian(q[..1]) == 256 * FromBigEndian(q[..1][..0]) + q[0];
      }
    }
  }

  /** What the decoder sees in the header fields of an encoded frame, whatever follows the header. */
  lemma HeaderFields(f: Frame, tail: seq<Byte>)
    ensures var b := Header(f) + tail;
            && ReadU32(b[0..4]) == MAGIC && b[4] == VERSION && b[5] == f.flags
            && ReadU16(b[6..8]) == Code(f.kind)
            && ReadU32(b[8..12]) == |f.payload| % 0x1_0000_0000
  {
    var b := Header(f) + tail;
    assert b[0..4] == BigEndian(MAGIC, 4);
    assert b[6..8] == BigEndian(Code(f.kind), 2);
    assert b[8..12] == BigEndian(|f.payload|, 4);
    ReadWritten32(MAGIC);
    ReadWritten16(Code(f.kind));
    ReadWritten32(|f.payload|);
    ReadersAgree(b[0..4]);
    ReadersAgree(b[6..8]);
    ReadersAgree(b[8..12]);
  }

  /** Every frame begins with "ROBO", version 1 and its flags; the commands have the numbers 1 to 14, in this order. */
  lemma OnTheWire(f: Frame)
    ensures Encoding(f)[..7] == ['R' as nat, 'O' as nat, 'B' as nat, 'O' as nat, 1, f.flags, 0]
    ensures var number := Encoding(f)[7];
            && (f.kind == Connect <==> number == 1) && (f.kind == GetStatus <==> number == 2)
            && (f.kind == Enable <==> number == 3) && (f.kind == Disable <==> number == 4)
            && (f.kind == Home <==> number == 5) && (f.kind == MoveJoint <==> number == 6)
            && (f.kind == MoveLinear <==> number == 7) && (f.kind == Stop <==> number == 8)
            && (f.kind == EmergencyStop <==> number == 9) && (f.kind == GetPosition <==> number == 10)
            && (f.kind == GetIO <==> number == 11) && (f.kind == SetIO <==> number == 12)
            && (f.kind == ResetFault <==> number == 13) && (f.kind == InjectFault <==> number == 14)
  {
    assert BigEndian(MAGIC, 4) == [0x52, 0x4F, 0x42, 0x4F];
    assert BigEndian(Code(f.kind), 2) == [0, Code(f.kind)];
  }

  /** Decoding inverts encoding, with any bytes after the frame, for payloads of at most 1 MiB. */
  lemma DecodeLegal(f: Frame, tail: seq<Byte>)
    requires |f.payload| <= MAX_PAYLOAD
    ensures Decode(Encoding(f) + tail) == Ok(Decoded(f, HEADER_SIZE + |f.payload|))
  {
    hide Header;
    HeaderFields(f, f.payload + tail);
    var b := Encoding(f) + tail;
    assert b == Header(f) + (f.payload + tail);
    assert b[HEADER_SIZE..HEADER_SIZE + |f.payload|] == f.payload;
  }

  /**
   The limit is exact: a larger payload is refused or, where its size wraps around 32 bits, cut
   short.
   */
  lemma DecodeEncoding(f: Frame, tail: seq<Byte>)
    ensures Decode(Encoding(f) + tail) == Ok(Decoded(f, 12 + |f.payload|)) <==> |f.payload| <= 1_048_576
  {
    if |f.payload| <= MAX_PAYLOAD {
      DecodeLegal(f, tail);
    } else if Decode(Encoding(f) + tail).Ok? {
      EncodingDecoded(Encoding(f) + tail);
    }
  }

  /** The bytes a successful decode consumes are the encoding of the frame it returns. */
  lemma EncodingDecoded(b: seq<Byte>)
    requires Decode(b).Ok?
    ensures var d := Decode(b).value;
            && HEADER_SIZE <= d.consumed <= |b|
            && |d.frame.payload| <= MAX_PAYLOAD
            && Encoding(d.frame) == b[..d.consumed]
  {
    var d := Decode(b).value;
    HeaderRead(b);
    assert |d.frame.payload| == ReadU32(b[8..12]);
    assert b[..d.consumed] == b[..HEADER_SIZE] + d.frame.payload;
  }

  lemma HeaderRead(b: seq<Byte>)
    requires |b| >= HEADER_SIZE && b[4] == VERSION
    ensures b[..HEADER_SIZE] == BigEndian(ReadU32(b[0..4]), 4) + [VERSION, b[5]] + BigEndian(ReadU16(b[6..8]), 2)
                                + BigEndian(ReadU32(b[8..12]), 4)
  {
    ReadersAgree(b[0..4]);
    ReadersAgree(b[6..8]);
    ReadersAgree(b[8..12]);
    WriteRead(b[0..4]);
    WriteRead(b[6..8]);
    WriteRead(b[8..12]);
    assert b[..HEADER_SIZE] == b[0..4] + [b[4], b[5]] + b[6..8] + b[8..12];
  }

  /** Every verdict but Incomplete is final: bytes that arrive later do not change it. */
  lemma VerdictStable(b: seq<Byte>, more: seq<Byte>)
    requires Decode(b) != Err(Incomplete)
    ensures Decode(b + more) == Decode(b)
  {
    var c := b + more;
    assert c[0..4] == b[0..4] && c[6..8] == b[6..8] && c[8..12] == b[8..12];
    var length := ReadU32(b[8..12]);
    if HEADER_SIZE + length <= |b| {
      assert c[HEADER_SIZE..HEADER_SIZE + length] == b[HEADER_SIZE..HEADER_SIZE + length];
    }
  }

  /** No strict prefix of a legal frame is taken for a frame or for an error. */
  lemma PrefixIncomplete(f: Frame, n: nat)
    requires |f.payload| <= MAX_PAYLOAD && n < |Encoding(f)|
    ensures Decode(Encoding(f)[..n]) == Err(Incomplete)
  {
    if n >= HEADER_SIZE {
      HeaderFields(f, f.payload[..n - HEADER_SIZE]);
      assert Encoding(f)[..n] == Header(f) + f.payload[..n - HEADER_SIZE];
    }
  }

  /** An undecided buffer is shorter than the longest legal frame. */
  lemma IncompleteIsShort(b: seq<Byte>)
    requires Decode(b) == Err(Incomplete)
    ensures |b| < HEADER_SIZE + MAX_PAYLOAD
  {}
}
