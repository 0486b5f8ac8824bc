/**
 The payloads of status responses and of move requests. A double travels as the eight big-endian
 bytes of its 64-bit pattern; patterns are kept as unsigned integers here.
 */
module Payloads {
  import opened Wrappers
  import opened Bytes

  type Bits = U64

  datatype CliError =
    | InvalidHostPort | MissingCommand | UnknownCommand | MissingArgument | InvalidArgument | TruncatedPayload
    | TransportFailure | ProtocolFailure | UnexpectedResponseType | ServerReportedError

  datatype JointStatus = JointStatus(position: Bits, velocity: Bits)

  /** Names are byte strings: the wire does not interpret their characters. */
  datatype StatusPayload = StatusPayload(robotName: seq<Byte>, controllerStateName: seq<Byte>, joints: seq<JointStatus>)

  datatype MoveJointPayload = MoveJointPayload(jointIndex: Byte, target: Bits)

  // Doubles ----------------------------------------------------------------------------------

  function F64(b: seq<Byte>): Bits
    requires |b| == 8
  {
    ReadBound(b);
    Widths();
    FromBigEndian(b)
  }

  // Move payload -----------------------------------------------------------------------------

  const MOVE_SIZE: nat := 9

  function MoveEncoding(p: MoveJointPayload): seq<Byte> {
    [p.jointIndex] + BigEndian(p.target, 8)
  }

  function MoveDecoding(b: seq<Byte>): Result<MoveJointPayload, CliError> {
    if |b| < MOVE_SIZE then Err(TruncatedPayload) else Ok(MoveJointPayload(b[0], F64(b[1..9])))
  }

  method EncodeMoveJointPayload(p: MoveJointPayload) returns (out: seq<Byte>)
    ensures out == MoveEncoding(p)
  {
    out := [];
    out := out + [p.jointIndex];
    out := WriteU64(out, p.target);
  }

  method DecodeMoveJointPayload(b: seq<Byte>) returns (r: Result<MoveJointPayload, CliError>)
    ensures r == MoveDecoding(b)
  {
    if |b| < MOVE_SIZE {
      return Err(TruncatedPayload);
    }
    var target := ReadU64(b[1..9]);
    return Ok(MoveJointPayload(b[0], target));
  }

  /** A move request survives the wire bit by bit, with any bytes after it; cut short it is rejected. */
  lemma MoveRoundTrip(p: MoveJointPayload, tail: seq<Byte>, n: nat)
    ensures MoveDecoding(MoveEncoding(p) + tail) == Ok(p)
    ensures n < |MoveEncoding(p)| ==> MoveDecoding(MoveEncoding(p)[..n]) == Err(TruncatedPayload)
  {
    var b := MoveEncoding(p) + tail;
    assert b[1..9] == BigEndian(p.target, 8);
    ReadWritten64(p.target);
  }

  /** Joint 2 to 4.0. */
  lemma MoveOnTheWire()
    ensures MoveEncoding(MoveJointPayload(2, 0x4010_0000_0000_0000)) == [2, 0x40, 0x10, 0, 0, 0, 0, 0, 0]
  {
    FourBytes();
  }

  lemma FourBytes()
    ensures BigEndian(0x4010_0000_0000_0000, 8) == [0x40, 0x10, 0, 0, 0, 0, 0, 0]
  {}

  // Status payload ---------------------------------------------------------------------------

  function JointEncoding(j: JointStatus): (b: seq<Byte>)
    ensures |b| == 16
  {
    BigEndian(j.position, 8) + BigEndian(j.velocity, 8)
  }

  function JointsEncoding(joints: seq<JointStatus>): seq<Byte> {
    if joints == [] then [] else JointEncoding(joints[0]) + JointsEncoding(joints[1..])
  }

  lemma {:induction false} JointsEncodingAppend(joints: seq<JointStatus>, j: JointStatus)
    ensures JointsEncoding(joints + [j]) == JointsEncoding(joints) + JointEncoding(j)
  {
    if joints == [] {
      assert (joints + [j])[1..] == [];
    } else {
      assert (joints + [j])[1..] == joints[1..] + [j];
      JointsEncodingAppend(joints[1..], j);
    }
  }

  /** A field of variable size: its length in two bytes, truncated to 16 bits, then its bytes. */
  function NameEncoding(name: seq<Byte>): seq<Byte> {
    BigEndian(|name|, 2) + name
  }

  function StatusEncoding(s: StatusPayload): seq<Byte> {
    NameEncoding(s.robotName) + (NameEncoding(s.controllerStateName) + (BigEndian(|s.joints|, 2) + JointsEncoding(s.joints)))
  }

  /** Robot name, state name, number of joints, then position and velocity of each: here 1.0 and -2.0. */
  lemma StatusOnTheWire()
    ensures StatusEncoding(StatusPayload(Text("RE"), Text("Idle"), [JointStatus(0x3FF0_0000_0000_0000, 0xC000_0000_0000_0000)]))
            == [0, 2] + Text("RE") + [0, 4] + Text("Idle") + [0, 1]
               + [0x3F, 0xF0, 0, 0, 0, 0, 0, 0] + [0xC0, 0, 0, 0, 0, 0, 0, 0]
  {
    hide Text, BigEndian;
    OneBytes();
    MinusTwoBytes();
    LengthFields();
    OneJoint(JointStatus(0x3FF0_0000_0000_0000, 0xC000_0000_0000_0000));
    var names := [0, 2] + Text("RE") + ([0, 4] + Text("Idle"));
    assert names == [0, 2] + Text("RE") + [0, 4] + Text("Idle");
  }

  lemma OneJoint(j: JointStatus)
    ensures JointsEncoding([j]) == JointEncoding(j)
  {
    assert [j][1..] == [];
  }

  lemma OneBytes()
    ensures BigEndian(0x3FF0_0000_0000_0000, 8) == [0x3F, 0xF0, 0, 0, 0, 0, 0, 0]
  {}

  lemma MinusTwoBytes()
    ensures BigEndian(0xC000_0000_0000_0000, 8) == [0xC0, 0, 0, 0, 0, 0, 0, 0]
  {}

  lemma LengthFields()
    ensures BigEndian(2, 2) == [0, 2] && BigEndian(4, 2) == [0, 4] && BigEndian(1, 2) == [0, 1]
  {}

  /** A parsed value and the bytes after it. */
  datatype Parsed<T> = Parsed(value: T, rest: seq<Byte>)

  type ParsedJoints = Result<Parsed<seq<JointStatus>>, CliError>

  function U16(b: seq<Byte>): (r: Result<Parsed<nat>, CliError>)
    ensures r.Ok? ==> r.value.value < 0x1_0000
  {
    if |b| < 2 then Err(TruncatedPayload)
    else
      var value: nat := b[0] as nat * 0x100 + b[1];
      Ok(Parsed(value, b[2..]))
  }

  function NameDecoding(b: seq<Byte>): Result<Parsed<seq<Byte>>, CliError> {
    var length := U16(b);
    if length.Err? then Err(length.error)
    else if |length.value.rest| < length.value.value then Err(TruncatedPayload)
    else Ok(Parsed(length.value.rest[..length.value.value], length.value.rest[length.value.value..]))
  }

  function JointsDecoding(count: nat, b: seq<Byte>): ParsedJoints {
    if count == 0 then Ok(Parsed([], b))
    else if |b| < 16 then Err(TruncatedPayload)
    else
      var others := JointsDecoding(count - 1, b[16..]);
      if others.Err? then Err(others.error)
      else Ok(Parsed([JointStatus(F64(b[0..8]), F64(b[8..16]))] + others.value.value, others.value.rest))
  }

  function StatusDecoding(b: seq<Byte>): Result<StatusPayload, CliError> {
    var name := NameDecoding(b);
    if name.Err? then Err(name.error) else StateDecoding(name.value.value, name.value.rest)
  }

  function StateDecoding(name: seq<Byte>, b: seq<Byte>): Result<StatusPayload, CliError> {
    var state := NameDecoding(b);
    if state.Err? then Err(state.error) else CountDecoding(name, state.value.value, state.value.rest)
  }

  function CountDecoding(name: seq<Byte>, state: seq<Byte>, b: seq<Byte>): Result<StatusPayload, CliError> {
    var count := U16(b);
    if count.Err? then Err(count.error)
    else
      var joints := JointsDecoding(count.value.value, count.value.rest);
      if joints.Err? then Err(joints.error) else Ok(StatusPayload(name, state, joints.value.value))
  }

  method WriteName(buffer: seq<Byte>, name: seq<Byte>) returns (out: seq<Byte>)
    ensures out == buffer + NameEncoding(name)
  {
    out := WriteU16(buffer, |name| % 0x1_0000);
    TruncatedLength(|name|);
    for i := 0 to |name|
      invariant out == buffer + BigEndian(|name|, 2) + name[..i]
    {
      out := out + [name[i]];
      assert name[..i + 1] == name[..i] + [name[i]];
    }
    assert name[..|name|] == name;
    assert buffer + BigEndian(|name|, 2) + name == buffer + NameEncoding(name);
  }

  /** Casting a size to 16 bits before writing it changes no byte. */
  lemma TruncatedLength(n: nat)
    ensures BigEndian(n % 0x1_0000, 2) == BigEndian(n, 2)
  {
    ReadWritten16(n);
    WriteRead(BigEndian(n, 2));
  }

  /** The joint loop of `encodeStatusPayload`. */
  method WriteJoints(buffer: seq<Byte>, joints: seq<JointStatus>) returns (out: seq<Byte>)
    ensures out == buffer + JointsEncoding(joints)
  {
    out := buffer;
    assert buffer + JointsEncoding([]) == buffer;
    for i := 0 to |joints|
      invariant out == buffer + JointsEncoding(joints[..i])
    {
      ghost var before := out;
      out := WriteU64(out, joints[i].position);
      out := WriteU64(out, joints[i].velocity);
      JointsEncodingAppend(joints[..i], joints[i]);
      assert joints[..i + 1] == joints[..i] + [joints[i]];
      assert out == before + JointEncoding(joints[i]);
      assert out == buffer + (JointsEncoding(joints[..i]) + JointEncoding(joints[i]));
    }
    assert joints[..|joints|] == joints;
  }

  method EncodeStatusPayload(s: StatusPayload) returns (out: seq<Byte>)
    ensures out == StatusEncoding(s)
  {
    out := WriteName([], s.robotName);
    out := WriteName(out, s.controllerStateName);
    out := WriteU16(out, |s.joints| % 0x1_0000);
    TruncatedLength(|s.joints|);
    out := WriteJoints(out, s.joints);
    Reassociate(NameEncoding(s.robotName), NameEncoding(s.controllerStateName), BigEndian(|s.joints|, 2), JointsEncoding(s.joints));
  }

  lemma Reassociate(a: seq<Byte>, b: seq<Byte>, c: seq<Byte>, d: seq<Byte>)
    ensures a + b + c + d == a + (b + (c + d))
  {}

  method ReadU16(b: seq<Byte>) returns (value: nat)
    requires |b| == 2
    ensures U16(b).Ok? && value == U16(b).value.value
  {
    value := b[0] as nat * 0x100 + b[1];
  }

  lemma U16At(b: seq<Byte>, offset: nat)
    requires offset + 2 <= |b|
    ensures U16(b[offset..]).Ok? && U16(b[offset..]).value.rest == b[offset + 2..]
    ensures U16(b[offset..offset + 2]).Ok? && U16(b[offset..]).value.value == U16(b[offset..offset + 2]).value.value
  {}

  lemma U16CutShort(b: seq<Byte>, offset: nat)
    requires offset <= |b| < offset + 2
    ensures U16(b[offset..]) == Err(TruncatedPayload)
  {}

  lemma NameAt(b: seq<Byte>, offset: nat, length: nat)
    requires offset + 2 + length <= |b| && U16(b[offset..offset + 2]).Ok? && U16(b[offset..offset + 2]).value.value == length
    ensures NameDecoding(b[offset..]) == Ok(Parsed(b[offset + 2..offset + 2 + length], b[offset + 2 + length..]))
  {
    U16At(b, offset);
    assert b[offset + 2..][..length] == b[offset + 2..offset + 2 + length];
    assert b[offset + 2..][length..] == b[offset + 2 + length..];
  }

  lemma NameCutShort(b: seq<Byte>, offset: nat)
    requires offset <= |b|
    requires |b| < offset + 2 || (U16(b[offset..offset + 2]).Ok? && |b| < offset + 2 + U16(b[offset..offset + 2]).value.value)
    ensures NameDecoding(b[offset..]) == Err(TruncatedPayload)
  {
    if |b| >= offset + 2 {
      U16At(b, offset);
    }
  }

  /** `decodeStatusPayload`: every read is preceded by a check that enough bytes are left at `offset`. */
  method DecodeStatusPayload(bytes: seq<Byte>) returns (r: Result<StatusPayload, CliError>)
    ensures r == StatusDecoding(bytes)
  {
    hide U16, NameDecoding, JointsDecoding;
    var offset: nat := 0;
    assert bytes[0..] == bytes;
    if |bytes| - offset < 2 {
      NameCutShort(bytes, offset);
      return Err(TruncatedPayload);
    }
    var nameLength := ReadU16(bytes[offset..offset + 2]);
    if |bytes| - (offset + 2) < nameLength {
      NameCutShort(bytes, offset);
      return Err(TruncatedPayload);
    }
    NameAt(bytes, offset, nameLength);
    offset := offset + 2;
    var robotName := bytes[offset..offset + nameLength];
    offset := offset + nameLength;
    assert StatusDecoding(bytes) == StateDecoding(robotName, bytes[offset..]);
    if |bytes| - offset < 2 {
      NameCutShort(bytes, offset);
      return Err(TruncatedPayload);
    }
    var stateNameLength := ReadU16(bytes[offset..offset + 2]);
    if |bytes| - (offset + 2) < stateNameLength {
      NameCutShort(bytes, offset);
      return Err(TruncatedPayload);
    }
    NameAt(bytes, offset, stateNameLength);
    offset := offset + 2;
    var stateName := bytes[offset..offset + stateNameLength];
    offset := offset + stateNameLength;
    assert StatusDecoding(bytes) == CountDecoding(robotName, stateName, bytes[offset..]);
    if |bytes| - offset < 2 {
      U16CutShort(bytes, offset);
      return Err(TruncatedPayload);
    }
    var jointCount := ReadU16(bytes[offset..offset + 2]);
    U16At(bytes, offset);
    offset := offset + 2;
    var joints := ReadJoints(bytes, offset, jointCount);
    if joints.Err? {
      return Err(joints.error);
    }
    return Ok(StatusPayload(robotName, stateName, joints.value));
  }

  /** The joint loop of `decodeStatusPayload`. */
  method ReadJoints(bytes: seq<Byte>, start: nat, count: nat) returns (r: Result<seq<JointStatus>, CliError>)
    requires start <= |bytes|
    ensures var d := JointsDecoding(count, bytes[start..]); r == if d.Err? then Err(d.error) else Ok(d.value.value)
  {
    var offset := start;
    var joints: seq<JointStatus> := [];
    PrependedNothing(JointsDecoding(count, bytes[start..]));
    var i := 0;
    while i < count
      invariant 0 <= i <= count && start <= offset <= |bytes|
      invariant JointsDecoding(count, bytes[start..]) == Prepended(joints, JointsDecoding(count - i, bytes[offset..]))
    {
      if |bytes| - offset < 16 {
        return Err(TruncatedPayload);
      }
      ghost var rest := bytes[offset..];
      assert rest[0..8] == bytes[offset..offset + 8] && rest[8..16] == bytes[offset + 8..offset + 16];
      assert rest[16..] == bytes[offset + 16..];
      var position := ReadU64(bytes[offset..offset + 8]);
      var velocity := ReadU64(bytes[offset + 8..offset + 16]);
      offset := offset + 16;
      ghost var others := JointsDecoding(count - i - 1, bytes[offset..]);
      assert JointsDecoding(count - i, rest) == Prepended([JointStatus(position, velocity)], others);
      PrependedAdds(joints, JointStatus(position, velocity), others);
      joints := joints + [JointStatus(position, velocity)];
      i := i + 1;
    }
    assert joints + [] == joints;
    return Ok(joints);
  }

  function Prepended(joints: seq<JointStatus>, r: ParsedJoints): ParsedJoints {
    if r.Err? then r else Ok(Parsed(joints + r.value.value, r.value.rest))
  }

  lemma PrependedNothing(r: ParsedJoints)
    ensures Prepended([], r) == r
  {
    if r.Ok? {
      assert [] + r.value.value == r.value.value;
    }
  }

  lemma PrependedAdds(joints: seq<JointStatus>, j: JointStatus, r: ParsedJoints)
    ensures Prepended(joints, Prepended([j], r)) == Prepended(joints + [j], r)
  {
    if r.Ok? {
      assert joints + ([j] + r.value.value) == joints + [j] + r.value.value;
    }
  }

  // Round trip and truncation ----------------------------------------------------------------

  /** What the decoder of a two-byte field sees in the first n bytes of an encoding. */
  lemma U16Prefix(v: nat, after: seq<Byte>, n: nat)
    requires n <= 2 + |after|
    ensures var r := U16((BigEndian(v, 2) + after)[..n]);
            if n < 2 then r == Err(TruncatedPayload) else r.Ok? && r.value.value == v % 0x1_0000 && r.value.rest == after[..n - 2]
  {
    if n >= 2 {
      var b := BigEndian(v, 2);
      assert b[..1][..0] == [] && FromBigEndian(b[..1]) == b[0];
      assert FromBigEndian(b) == 256 * FromBigEndian(b[..1]) + b[1];
      ReadWritten16(v);
      assert (b + after)[..n][2..] == after[..n - 2];
    }
  }

  lemma NamePrefix(name: seq<Byte>, after: seq<Byte>, n: nat)
    requires |name| < 0x1_0000 && n <= |NameEncoding(name)| + |after|
    ensures var r := NameDecoding((NameEncoding(name) + after)[..n]);
            r == if n < |NameEncoding(name)| then Err(TruncatedPayload) else Ok(Parsed(name, after[..n - |NameEncoding(name)|]))
  {
    assert NameEncoding(name) + after == BigEndian(|name|, 2) + (name + after);
    U16Prefix(|name|, name + after, n);
    if n >= |NameEncoding(name)| {
      var rest := (name + after)[..n - 2];
      assert rest[..|name|] == name && rest[|name|..] == after[..n - 2 - |name|];
    }
  }

  lemma {:induction false} JointsPrefix(joints: seq<JointStatus>, after: seq<Byte>, n: nat)
    requires n <= |JointsEncoding(joints)| + |after|
    ensures var r := JointsDecoding(|joints|, (JointsEncoding(joints) + after)[..n]);
            r == if n < |JointsEncoding(joints)| then Err(TruncatedPayload) else Ok(Parsed(joints, after[..n - |JointsEncoding(joints)|]))
  {
    if joints == [] {
      assert JointsEncoding(joints) + after == after;
    } else {
      var b := (JointsEncoding(joints) + after)[..n];
      var others := JointsEncoding(joints[1..]);
      if n >= 16 {
        JointsPrefix(joints[1..], after, n - 16);
        assert JointsEncoding(joints) == JointEncoding(joints[0]) + others;
        assert b[..16] == JointEncoding(joints[0]);
        assert b[0..8] == b[..16][0..8] && b[8..16] == b[..16][8..16];
        assert b[0..8] == BigEndian(joints[0].position, 8);
        assert b[8..16] == BigEndian(joints[0].velocity, 8);
        assert b[16..] == (others + after)[..n - 16];
        ReadWritten64(joints[0].position);
        ReadWritten64(joints[0].velocity);
        assert joints == [joints[0]] + joints[1..];
      }
    }
  }

  /** All lengths of `s` fit their 16-bit fields. */
  predicate Fits(s: StatusPayload) {
    |s.robotName| < 0x1_0000 && |s.controllerStateName| < 0x1_0000 && |s.joints| < 0x1_0000
  }

  lemma CountPrefix(s: StatusPayload, tail: seq<Byte>, n: nat)
    requires Fits(s) && n <= 2 + |JointsEncoding(s.joints)| + |tail|
    ensures CountDecoding(s.robotName, s.controllerStateName, (BigEndian(|s.joints|, 2) + (JointsEncoding(s.joints) + tail))[..n])
            == if n < 2 + |JointsEncoding(s.joints)| then Err(TruncatedPayload) else Ok(s)
  {
    U16Prefix(|s.joints|, JointsEncoding(s.joints) + tail, n);
    if n >= 2 {
      JointsPrefix(s.joints, tail, n - 2);
    }
  }

  lemma StatePrefix(s: StatusPayload, tail: seq<Byte>, n: nat)
    requires Fits(s) && n <= |NameEncoding(s.controllerStateName)| + 2 + |JointsEncoding(s.joints)| + |tail|
    ensures StateDecoding(s.robotName,
              (NameEncoding(s.controllerStateName) + (BigEndian(|s.joints|, 2) + (JointsEncoding(s.joints) + tail)))[..n])
            == if n < |NameEncoding(s.controllerStateName)| + 2 + |JointsEncoding(s.joints)| then Err(TruncatedPayload) else Ok(s)
  {
    NamePrefix(s.controllerStateName, BigEndian(|s.joints|, 2) + (JointsEncoding(s.joints) + tail), n);
    if n >= |NameEncoding(s.controllerStateName)| {
      CountPrefix(s, tail, n - |NameEncoding(s.controllerStateName)|);
    }
  }

  /** The first n bytes of an encoding followed by anything: truncated, or the whole status. */
  lemma StatusPrefix(s: StatusPayload, tail: seq<Byte>, n: nat)
    requires Fits(s) && n <= |StatusEncoding(s)| + |tail|
    ensures StatusDecoding((StatusEncoding(s) + tail)[..n]) == if n < |StatusEncoding(s)| then Err(TruncatedPayload) else Ok(s)
  {
    var after := NameEncoding(s.controllerStateName) + (BigEndian(|s.joints|, 2) + (JointsEncoding(s.joints) + tail));
    assert StatusEncoding(s) + tail == NameEncoding(s.robotName) + after;
    NamePrefix(s.robotName, after, n);
    if n >= |NameEncoding(s.robotName)| {
      StatePrefix(s, tail, n - |NameEncoding(s.robotName)|);
    }
  }

  /** A status survives the wire, with any bytes after it, exactly if its three lengths fit 16 bits. */
  lemma StatusRoundTrip(s: StatusPayload, tail: seq<Byte>)
    ensures StatusDecoding(StatusEncoding(s) + tail) == Ok(s) <==> Fits(s)
  {
    var b := StatusEncoding(s) + tail;
    if Fits(s) {
      assert b[..|b|] == b;
      StatusPrefix(s, tail, |b|);
    } else if StatusDecoding(b).Ok? {
      DecodedFits(b);
    }
  }

  lemma DecodedFits(b: seq<Byte>)
    requires StatusDecoding(b).Ok?
    ensures Fits(StatusDecoding(b).value)
  {
    var name := NameDecoding(b);
    var state := NameDecoding(name.value.rest);
    var count := U16(state.value.rest);
    JointsDecoded(count.value.value, count.value.rest);
  }

  lemma {:induction false} JointsDecoded(count: nat, b: seq<Byte>)
    requires JointsDecoding(count, b).Ok?
    ensures |JointsDecoding(count, b).value.value| == count
  {
    if count == 0 {
    } else {
      JointsDecoded(count - 1, b[16..]);
    }
  }
}
