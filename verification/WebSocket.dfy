/** The server side of RFC 6455 after the handshake: the buffered reader and the frames. */
module WebSocket {
  import opened Wrappers
  import opened Bytes
  import opened TcpConnection
  import opened Handshake

  // Frames (section 5.2) ---------------------------------------------------------------------

  /** A frame: the byte with FIN and opcode, the masking key if any, and the unmasked payload. */
  datatype Frame = Frame(first: Byte, mask: Option<seq<Byte>>, payload: seq<Byte>) {
    predicate Valid() {
      (mask.Some? ==> |mask.value| == 4) && |payload| < 0x1_0000_0000_0000_0000
    }
  }

  const CLOSE: nat := 8
  const TEXT: Byte := 0x81
  const MASKED: nat := 0x80

  /** Exclusive or of the low `bits` bits. */
  function XorBits(a: nat, b: nat, bits: nat): (x: nat)
    ensures x < Power2(bits)
  {
    if bits == 0 then 0 else 2 * XorBits(a / 2, b / 2, bits - 1) + (a + b) % 2
  }

  function Power2(n: nat): nat {
    if n == 0 then 1 else 2 * Power2(n - 1)
  }

  lemma {:induction false} XorBitsTwice(a: nat, b: nat, bits: nat)
    requires a < Power2(bits)
    ensures XorBits(XorBits(a, b, bits), b, bits) == a
  {
    if bits == 0 {
    } else {
      var x, rest := XorBits(a, b, bits), XorBits(a / 2, b / 2, bits - 1);
      LowBit(x, rest, a, b);
      XorBitsTwice(a / 2, b / 2, bits - 1);
      assert XorBits(x, b, bits) == 2 * XorBits(x / 2, b / 2, bits - 1) + (x + b) % 2;
    }
  }

  lemma LowBit(x: nat, rest: nat, a: nat, b: nat)
    requires x == 2 * rest + (a + b) % 2
    ensures x / 2 == rest && (x + b) % 2 == a % 2 && a == 2 * (a / 2) + a % 2
  {
    assert x % 2 == (a + b) % 2;
  }

  function Xor(a: Byte, b: Byte): Byte {
    assert Power2(8) == 8 * 8 * 4 by { assert Power2(3) == 8; assert Power2(6) == 8 * Power2(3); }
    XorBits(a, b, 8)
  }

  lemma XorTwice(a: Byte, b: Byte)
    ensures Xor(Xor(a, b), b) == a
  {
    assert Power2(3) == 8 && Power2(6) == 8 * Power2(3) && Power2(8) == 4 * Power2(6);
    XorBitsTwice(a, b, 8);
  }

  /** Section 5.3: byte i of the payload is combined with byte i mod 4 of the key. */
  function Masked(payload: seq<Byte>, key: seq<Byte>): (r: seq<Byte>)
    requires |key| == 4
    ensures |r| == |payload|
  {
    seq(|payload|, i requires 0 <= i < |payload| => Xor(payload[i], key[i % 4]))
  }

  lemma MaskInvolution(payload: seq<Byte>, key: seq<Byte>)
    requires |key| == 4
    ensures Masked(Masked(payload, key), key) == payload
  {
    forall i | 0 <= i < |payload| ensures Masked(Masked(payload, key), key)[i] == payload[i] {
      XorTwice(payload[i], key[i % 4]);
    }
  }

  /** The mask bit and the payload length, in the shortest of the three forms. */
  function LengthBytes(length: nat, masked: bool): seq<Byte> {
    var bit := if masked then MASKED else 0;
    if length <= 125 then [bit + length]
    else if length <= 0xFFFF then [bit + 126] + BigEndian(length, 2)
    else [bit + 127] + BigEndian(length, 8)
  }

  function MaskBytes(f: Frame): seq<Byte>
    requires f.Valid()
  {
    if f.mask.None? then f.payload else f.mask.value + Masked(f.payload, f.mask.value)
  }

  function FrameBytes(f: Frame): seq<Byte>
    requires f.Valid()
  {
    [f.first] + (LengthBytes(|f.payload|, f.mask.Some?) + MaskBytes(f))
  }

  /** The text "Hello" in a frame, unmasked and masked: the first two examples of section 5.7. */
  lemma HelloFrames()
    ensures FrameBytes(Frame(TEXT, None, Text("Hello"))) == [0x81, 0x05, 0x48, 0x65, 0x6c, 0x6c, 0x6f]
    ensures FrameBytes(Frame(TEXT, Some([0x37, 0xfa, 0x21, 0x3d]), Text("Hello")))
            == [0x81, 0x85, 0x37, 0xfa, 0x21, 0x3d, 0x7f, 0x9f, 0x4d, 0x51, 0x58]
  {
    hide Text, Masked, BigEndian;
    HelloText();
    HelloMasked();
  }

  /** The two longer forms of the length: 256 bytes and 64 KiB, the last two examples of section 5.7. */
  lemma LongLengths()
    ensures LengthBytes(256, false) == [0x7E, 0x01, 0x00]
    ensures LengthBytes(65536, false) == [0x7F, 0, 0, 0, 0, 0, 1, 0, 0]
  {}

  lemma XorStep(a: nat, b: nat, x: nat, bits: nat)
    requires (a + b) % 2 == x % 2 && XorBits(a / 2, b / 2, bits) == x / 2
    ensures XorBits(a, b, bits + 1) == x
  {}

  function Bit(n: nat, k: nat): nat {
    if k == 0 then n % 2 else Bit(n / 2, k - 1)
  }

  /** Bit k of the result tells whether a and b differ there. */
  lemma {:induction false} XorOfBits(a: nat, b: nat, bits: nat, k: nat)
    requires k < bits
    ensures Bit(XorBits(a, b, bits), k) == (if Bit(a, k) == Bit(b, k) then 0 else 1)
  {
    var x, rest := XorBits(a, b, bits), XorBits(a / 2, b / 2, bits - 1);
    LowBit(x, rest, a, b);
    hide XorBits;
    if k == 0 {
    } else {
      XorOfBits(a / 2, b / 2, bits - 1, k - 1);
      assert Bit(x, k) == Bit(rest, k - 1);
    }
  }

  lemma Halves(n: nat)
    ensures n / 2 / 2 == n / 4 && n / 4 / 2 == n / 8 && n / 8 / 2 == n / 16
  {}

  /** Four bits more. */
  lemma XorNibble(a: nat, b: nat, x: nat, bits: nat)
    requires (a + b) % 2 == x % 2 && (a / 2 + b / 2) % 2 == x / 2 % 2
    requires (a / 4 + b / 4) % 2 == x / 4 % 2 && (a / 8 + b / 8) % 2 == x / 8 % 2
    requires XorBits(a / 16, b / 16, bits) == x / 16
    ensures XorBits(a, b, bits + 4) == x
  {
    hide XorBits;
    Halves(a);
    Halves(b);
    Halves(x);
    XorStep(a / 8, b / 8, x / 8, bits);
    XorStep(a / 4, b / 4, x / 4, bits + 1);
    XorStep(a / 2, b / 2, x / 2, bits + 2);
    XorStep(a, b, x, bits + 3);
  }

  lemma XorIs(a: Byte, b: Byte, x: Byte, a': nat, b': nat, x': nat)
    requires a' == a / 16 && b' == b / 16 && x' == x / 16
    requires (a + b) % 2 == x % 2 && (a / 2 + b / 2) % 2 == x / 2 % 2
    requires (a / 4 + b / 4) % 2 == x / 4 % 2 && (a / 8 + b / 8) % 2 == x / 8 % 2
    requires (a' + b') % 2 == x' % 2 && (a' / 2 + b' / 2) % 2 == x' / 2 % 2
    requires (a' / 4 + b' / 4) % 2 == x' / 4 % 2 && (a' / 8 + b' / 8) % 2 == x' / 8 % 2
    ensures Xor(a, b) == x
  {
    assert XorBits(0, 0, 0) == 0;
    hide XorBits;
    XorNibble(a', b', x', 0);
    XorNibble(a, b, x, 4);
  }

  lemma HelloText()
    ensures Text("Hello") == [0x48, 0x65, 0x6c, 0x6c, 0x6f]
  {}

  lemma HelloMasked()
    ensures Masked([0x48, 0x65, 0x6c, 0x6c, 0x6f], [0x37, 0xfa, 0x21, 0x3d]) == [0x7f, 0x9f, 0x4d, 0x51, 0x58]
  {
    hide Xor;
    XorIs(0x48, 0x37, 0x7f, 0x4, 0x3, 0x7);
    XorIs(0x65, 0xfa, 0x9f, 0x6, 0xf, 0x9);
    XorIs(0x6c, 0x21, 0x4d, 0x6, 0x2, 0x4);
    XorIs(0x6c, 0x3d, 0x51, 0x6, 0x3, 0x5);
    XorIs(0x6f, 0x37, 0x58, 0x6, 0x3, 0x5);
  }

  // Reading a frame --------------------------------------------------------------------------

  type Poll = (Result<(), WebSocketError>, seq<Byte>)

  const CLOSED: Result<(), WebSocketError> := Err(WebSocketError.ConnectionClosed)

  /** How many bytes of extended payload length follow the second byte of a frame. */
  function ExtensionSize(second: Byte): nat {
    if second % MASKED == 126 then 2 else if second % MASKED == 127 then 8 else 0
  }

  function KeySize(masked: bool): nat {
    if masked then 4 else 0
  }

  /** `pollForClose` on the bytes at hand and still to come: its result, and what it leaves. */
  function PollOf(stream: seq<Byte>): Poll {
    if |stream| < 2 then (CLOSED, stream) else PollLength(stream[0], stream[1], stream[2..])
  }

  function PollLength(first: Byte, second: Byte, stream: seq<Byte>): Poll {
    var size := ExtensionSize(second);
    if |stream| < size then (CLOSED, stream)
    else
      var length := if size == 0 then second % MASKED else FromBigEndian(stream[..size]);
      PollMask(first, second >= MASKED, length, stream[size..])
  }

  function PollMask(first: Byte, masked: bool, length: nat, stream: seq<Byte>): Poll {
    if |stream| < KeySize(masked) then (CLOSED, stream) else PollPayload(first, length, stream[KeySize(masked)..])
  }

  function PollPayload(first: Byte, length: nat, stream: seq<Byte>): Poll {
    if |stream| < length then (CLOSED, stream)
    else (if first % 16 == CLOSE then CLOSED else Ok(()), stream[length..])
  }

  // Transport failures -------------------------------------------------------------------------

  /** The size of the frame a stream starts with, by the length its own bytes announce. */
  function FrameSize(stream: seq<Byte>): nat
    requires |stream| >= 2 && |stream| >= 2 + ExtensionSize(stream[1])
  {
    var size := ExtensionSize(stream[1]);
    var length := if size == 0 then stream[1] % MASKED else FromBigEndian(stream[2..2 + size]);
    2 + size + KeySize(stream[1] >= MASKED) + length
  }

  predicate HoldsFrame(stream: seq<Byte>) {
    |stream| >= 2 && |stream| >= 2 + ExtensionSize(stream[1]) && |stream| >= FrameSize(stream)
  }

  /** A whole frame is taken off the stream and told by its opcode; anything less reads as closed. */
  lemma PollWholeFrame(stream: seq<Byte>)
    ensures PollOf(stream).0 == if HoldsFrame(stream) && stream[0] % 16 != CLOSE then Ok(()) else CLOSED
    ensures HoldsFrame(stream) ==> PollOf(stream).1 == stream[FrameSize(stream)..]
  {
    if |stream| >= 2 && |stream| >= 2 + ExtensionSize(stream[1]) {
      var size, masked := ExtensionSize(stream[1]), stream[1] >= MASKED;
      var rest := stream[2..][size..];
      assert stream[2..][..size] == stream[2..2 + size] && rest == stream[2 + size..];
      assert PollOf(stream) == PollMask(stream[0], masked, FrameSize(stream) - 2 - size - KeySize(masked), rest);
      if HoldsFrame(stream) {
        assert rest[KeySize(masked)..][FrameSize(stream) - 2 - size - KeySize(masked)..] == stream[FrameSize(stream)..];
      }
    }
  }

  /** A frame without payload, whatever its key: only opcode 8 closes, and what follows is left alone. */
  lemma OnlyOpcode8Closes(first: Byte, key: seq<Byte>, tail: seq<Byte>)
    requires |key| == 4
    ensures PollOf([first, 0x80] + key + tail) == (if first % 0x10 == 8 then CLOSED else Ok(()), tail)
  {
    var stream := [first, 0x80] + key + tail;
    PollWholeFrame(stream);
    assert stream[6..] == tail;
  }

  /** What is documented for a poll: a failed receive is a TransportFailure unless the peer closed. */
  function Documented(stream: seq<Byte>, atEnd: TransportError): Result<(), WebSocketError> {
    if !HoldsFrame(stream) && atEnd != TransportError.ConnectionClosed then Err(TransportFailure)
    else if !HoldsFrame(stream) || stream[0] % 16 == CLOSE then CLOSED
    else Ok(())
  }

  /**
   A poll never reports TransportFailure. So it does as documented exactly if no receive fails,
   that is, a whole frame is at hand or still to come, or the stream ends by a regular close.
   */
  lemma PollAsDocumentedIff(stream: seq<Byte>, atEnd: TransportError)
    ensures PollOf(stream).0 != Err(TransportFailure)
    ensures PollOf(stream).0 == Documented(stream, atEnd)
            <==> HoldsFrame(stream) || atEnd == TransportError.ConnectionClosed
  {
    PollWholeFrame(stream);
  }

  /** A receive that fails at once is one input that shows it. */
  lemma FailedReceiveReadsAsClosed()
    ensures PollOf([]).0 == CLOSED && Documented([], ReceiveFailed) == Err(TransportFailure)
  {}

  /** In the first n bytes of a frame and what follows it, the length fields read as written. */
  lemma LengthRead(first: Byte, masked: bool, length: nat, after: seq<Byte>, n: nat)
    requires length < 0x1_0000_0000_0000_0000
    requires n <= 1 + |LengthBytes(length, masked)| + |after|
    ensures var bytes := LengthBytes(length, masked);
            var poll := PollOf(([first] + (bytes + after))[..n]);
            if n < 1 + |bytes| then poll.0 == CLOSED else poll == PollMask(first, masked, length, after[..n - 1 - |bytes|])
  {
    var bytes := LengthBytes(length, masked);
    var stream := ([first] + (bytes + after))[..n];
    if n >= 2 {
      assert stream[0] == first && stream[1] == bytes[0];
      assert stream[2..] == (bytes[1..] + after)[..n - 2];
      ExtensionRead(first, masked, length, after, n - 2);
      assert PollOf(stream) == PollLength(first, bytes[0], stream[2..]);
    }
  }

  lemma ExtensionRead(first: Byte, masked: bool, length: nat, after: seq<Byte>, n: nat)
    requires length < 0x1_0000_0000_0000_0000
    requires n <= |LengthBytes(length, masked)| - 1 + |after|
    ensures var bytes := LengthBytes(length, masked);
            var poll := PollLength(first, bytes[0], (bytes[1..] + after)[..n]);
            if n < |bytes| - 1 then poll.0 == CLOSED else poll == PollMask(first, masked, length, after[..n - (|bytes| - 1)])
  {
    hide PollMask, FromBigEndian, BigEndian;
    var bytes := LengthBytes(length, masked);
    var stream, size := (bytes[1..] + after)[..n], |bytes| - 1;
    assert bytes[0] % MASKED == (if length <= 125 then length else if length <= 0xFFFF then 126 else 127);
    if n >= size {
      assert stream[..size] == bytes[1..] && stream[size..] == after[..n - size];
      if size == 2 {
        ReadWritten16(length);
        assert bytes[1..] == BigEndian(length, 2);
      } else if size == 8 {
        ReadWritten64(length);
        assert bytes[1..] == BigEndian(length, 8);
      }
    }
  }

  /**
   A poll takes exactly one frame, masked or not, in whichever of the three length forms, and
   reports a close frame as such; of a frame cut short it makes a closed connection.
   */
  lemma PollReadsFrame(f: Frame, tail: seq<Byte>, n: nat)
    requires f.Valid() && n <= |FrameBytes(f)| + |tail|
    ensures var poll := PollOf((FrameBytes(f) + tail)[..n]);
            if n < |FrameBytes(f)| then poll.0 == CLOSED
            else poll == (if f.first % 16 == CLOSE then CLOSED else Ok(()), tail[..n - |FrameBytes(f)|])
  {
    hide PollOf, PollMask, LengthBytes, MaskBytes;
    var length, masked := |f.payload|, f.mask.Some?;
    var bytes := LengthBytes(length, masked);
    var after := MaskBytes(f) + tail;
    assert FrameBytes(f) + tail == [f.first] + (bytes + after);
    LengthRead(f.first, masked, length, after, n);
    if n >= 1 + |bytes| {
      MaskRead(f, tail, n - 1 - |bytes|);
    }
  }

  lemma MaskRead(f: Frame, tail: seq<Byte>, n: nat)
    requires f.Valid() && n <= |MaskBytes(f)| + |tail|
    ensures var poll := PollMask(f.first, f.mask.Some?, |f.payload|, (MaskBytes(f) + tail)[..n]);
            if n < |MaskBytes(f)| then poll.0 == CLOSED
            else poll == (if f.first % 16 == CLOSE then CLOSED else Ok(()), tail[..n - |MaskBytes(f)|])
  {
    var stream := (MaskBytes(f) + tail)[..n];
    if n >= |MaskBytes(f)| {
      assert stream[|MaskBytes(f)|..] == tail[..n - |MaskBytes(f)|];
      if f.mask.Some? {
        assert stream[4..][|f.payload|..] == stream[|MaskBytes(f)|..];
      }
    }
  }

  function Concatenated(frames: seq<Frame>): seq<Byte>
    requires forall i :: 0 <= i < |frames| ==> frames[i].Valid()
  {
    if frames == [] then [] else FrameBytes(frames[0]) + Concatenated(frames[1..])
  }

  /** The results of `n` polls in a row, and what they leave. */
  function PollTimes(stream: seq<Byte>, n: nat): (seq<Result<(), WebSocketError>>, seq<Byte>) {
    if n == 0 then ([], stream)
    else
      var (r, rest) := PollOf(stream);
      var (rs, end) := PollTimes(rest, n - 1);
      ([r] + rs, end)
  }

  function Verdicts(frames: seq<Frame>): seq<Result<(), WebSocketError>> {
    if frames == [] then [] else [if frames[0].first % 16 == CLOSE then CLOSED else Ok(())] + Verdicts(frames[1..])
  }

  /** Polls never get out of step with the frames, of whatever kinds and sizes. */
  lemma {:induction false} PollsKeepStep(frames: seq<Frame>, tail: seq<Byte>)
    requires forall i :: 0 <= i < |frames| ==> frames[i].Valid()
    ensures PollTimes(Concatenated(frames) + tail, |frames|) == (Verdicts(frames), tail)
  {
    hide PollOf, FrameBytes;
    var stream := Concatenated(frames) + tail;
    if frames == [] {
      assert stream == tail;
    } else {
      var others := Concatenated(frames[1..]) + tail;
      assert stream == FrameBytes(frames[0]) + others && stream[..|stream|] == stream && others[..|others|] == others;
      PollReadsFrame(frames[0], others, |stream|);
      PollsKeepStep(frames[1..], tail);
    }
  }

  // The connection ---------------------------------------------------------------------------

  class WebSocketConnection {
    const connection: TcpConnection
    var residual: seq<Byte>

    ghost predicate Valid()
      reads this, connection
    {
      connection.Valid()
    }

    /** The bytes not yet read: carried over, then still to come. */
    ghost function Pending(): seq<Byte>
      reads this, connection
    {
      residual + connection.Unread()
    }

    constructor (connection: TcpConnection)
      ensures this.connection == connection && residual == []
    {
      this.connection := connection;
      residual := [];
    }

    /**
     The handshake: the answer to the key found in what was received, and no byte after the header
     is lost.
     */
    static method Accept(connection: TcpConnection)
      returns (r: Result<WebSocketConnection, WebSocketError>)
      requires connection.Valid()
      modifies connection
      ensures connection.Valid()
      ensures r.Ok? ==> var header := HeaderRead([], old(connection.incoming));
                && fresh(r.value) && r.value.connection == connection
                && header.Header? && header.end <= |header.buffer|
                && r.value.Pending() == header.buffer[header.end..] + Flatten(header.incoming)
      ensures var header := HeaderRead([], old(connection.incoming));
              match HandshakeResponse(header)
              case Err(error) => r == Err(error) && connection.sent == old(connection.sent)
              case Ok(response) =>
                && connection.sent == old(connection.sent) + Take(response, old(connection.writable))
                && (r.Ok? <==> |response| <= old(connection.writable))
                && (r.Err? ==> r.error == TransportFailure)
    {
      hide Response, HeaderRead, Flatten, FindHeaderValue, KeyField;
      var headerEnd, requestBuffer := ReadUntil(connection);
      if headerEnd.Err? {
        return Err(headerEnd.error);
      }
      var key := FindHeaderValue(requestBuffer, KeyField());
      if key.None? {
        return Err(HandshakeFailed);
      }
      var response := BuildResponse(key.value);
      var sent := connection.Send(response);
      if sent.Err? {
        return Err(TransportFailure);
      }
      var ws := new WebSocketConnection(connection);
      if |requestBuffer| > headerEnd.value {
        ws.CarryOver(requestBuffer[headerEnd.value..]);
      }
      return Ok(ws);
    }

    /** Takes over bytes that were received with the handshake. */
    method CarryOver(leftover: seq<Byte>)
      requires residual == []
      modifies this
      ensures residual == leftover
    {
      for i := 0 to |leftover|
        invariant residual == leftover[..i]
      {
        residual := residual + [leftover[i]];
        assert leftover[..i + 1] == leftover[..i] + [leftover[i]];
      }
      assert leftover[..|leftover|] == leftover;
    }

    /**
     Exactly the next `count` bytes, however they arrive; the rest is kept. `failure` is the error of
     the receive that failed, if one did.
     */
    method ReadExactBuffered(count: nat)
      returns (r: Result<seq<Byte>, WebSocketError>, ghost failure: Option<TransportError>)
      requires Valid()
      modifies this, connection`incoming
      ensures Valid()
      ensures r.Ok? <==> |old(Pending())| >= count
      ensures r.Ok? ==> r.value == old(Pending())[..count] && Pending() == old(Pending())[count..]
      ensures r.Err? ==> r.error == WebSocketError.ConnectionClosed && Pending() == old(Pending())
      ensures failure == if r.Ok? then None else Some(connection.atEnd)
    {
      while |residual| < count
        invariant Valid() && Pending() == old(Pending())
        decreases |connection.Unread()|
      {
        ghost var before := connection.Unread();
        var chunk := connection.Receive(READ_CHUNK);
        if chunk.Err? {
          return Err(WebSocketError.ConnectionClosed), Some(chunk.error);
        }
        assert (residual + chunk.value) + connection.Unread() == residual + before;
        residual := residual + chunk.value;
      }
      assert Pending()[..count] == residual[..count];
      assert Pending()[count..] == residual[count..] + connection.Unread();
      var out := residual[..count];
      residual := residual[count..];
      return Ok(out), None;
    }

    /** One unmasked, unfragmented text frame. */
    method SendText(text: seq<Byte>) returns (r: Result<(), WebSocketError>)
      requires |text| < 0x1_0000_0000_0000_0000
      modifies connection`sent, connection`writable
      ensures var bytes := FrameBytes(Frame(TEXT, None, text));
              && connection.sent == old(connection.sent) + Take(bytes, old(connection.writable))
              && (r.Ok? <==> |bytes| <= old(connection.writable))
              && (r.Err? ==> r.error == TransportFailure)
    {
      var frame: seq<Byte> := [TEXT];
      var len := |text|;
      if len <= 125 {
        frame := frame + [len];
      } else if len <= 0xFFFF {
        frame := frame + [126];
        frame := WriteU16(frame, len);
      } else {
        frame := frame + [127];
        frame := WriteU64(frame, len);
      }
      assert frame == [TEXT] + LengthBytes(len, false);
      ghost var head := frame;
      for i := 0 to len
        invariant frame == head + text[..i]
      {
        frame := frame + [text[i]];
        assert text[..i + 1] == text[..i] + [text[i]];
      }
      assert text[..len] == text;
      assert frame == FrameBytes(Frame(TEXT, None, text));
      var sent := connection.Send(frame);
      return if sent.Err? then Err(TransportFailure) else Ok(());
    }

    /** `failure` is the error of the receive that failed during the poll, if one did. */
    method PollForClose() returns (r: Result<(), WebSocketError>, ghost failure: Option<TransportError>)
      requires Valid()
      modifies this, connection`incoming
      ensures Valid()
      ensures (r, Pending()) == PollOf(old(Pending()))
      ensures failure == if HoldsFrame(old(Pending())) then None else Some(connection.atEnd)
    {
      hide FromBigEndian, Flatten, NoneEmpty, PollMask;
      ghost var stream := Pending();
      var header;
      header, failure := ReadExactBuffered(2);
      if header.Err? {
        return Err(header.error), failure;
      }
      var masked := header.value[1] >= MASKED;
      var payloadLen: nat := header.value[1] % MASKED;
      if payloadLen == 126 {
        var ext;
        ext, failure := ReadExactBuffered(2);
        if ext.Err? {
          return Err(ext.error), failure;
        }
        payloadLen := ext.value[0] as nat * 0x100 + ext.value[1];
        TwoBytes(ext.value);
        assert ext.value == stream[2..4];
      } else if payloadLen == 127 {
        var ext;
        ext, failure := ReadExactBuffered(8);
        if ext.Err? {
          return Err(ext.error), failure;
        }
        payloadLen := ReadU64(ext.value);
        assert ext.value == stream[2..10];
      }
      r, failure := SkipPayload(header.value[0], masked, payloadLen);
    }

    /** The masking key and the payload of a frame, unmasked and discarded. */
    method SkipPayload(first: Byte, masked: bool, length: nat)
      returns (r: Result<(), WebSocketError>, ghost failure: Option<TransportError>)
      requires Valid()
      modifies this, connection`incoming
      ensures Valid()
      ensures (r, Pending()) == PollMask(first, masked, length, old(Pending()))
      ensures failure == if |old(Pending())| < KeySize(masked) + length then Some(connection.atEnd) else None
    {
      failure := None;
      var maskKey: seq<Byte> := [0, 0, 0, 0];
      if masked {
        var keyBytes;
        keyBytes, failure := ReadExactBuffered(4);
        if keyBytes.Err? {
          return Err(keyBytes.error), failure;
        }
        maskKey := keyBytes.value;
      }
      if length > 0 {
        var payload;
        payload, failure := ReadExactBuffered(length);
        if payload.Err? {
          return Err(payload.error), failure;
        }
        if masked {
          var bytes := new Byte[length](i requires 0 <= i < length => payload.value[i]);
          Unmask(bytes, maskKey);
        }
      }
      if first % 16 == CLOSE {
        return Err(WebSocketError.ConnectionClosed), failure;
      }
      return Ok(()), failure;
    }
  }

  lemma TwoBytes(b: seq<Byte>)
    requires |b| == 2
    ensures FromBigEndian(b) == b[0] as nat * 0x100 + b[1]
  {
    assert b[..1][..0] == [] && FromBigEndian(b[..1]) == b[0];
  }

  /** Unmasks a payload in place. */
  method Unmask(payload: array<Byte>, key: seq<Byte>)
    requires |key| == 4
    modifies payload
    ensures payload[..] == Masked(old(payload[..]), key)
  {
    for i := 0 to payload.Length
      invariant forall k :: 0 <= k < i ==> payload[k] == Xor(old(payload[k]), key[k % 4])
      invariant forall k :: i <= k < payload.Length ==> payload[k] == old(payload[k])
    {
      payload[i] := Xor(payload[i], key[i % 4]);
    }
  }
}
