/**
 The opening handshake of section 4.2 of RFC 6455 as the server does it: reading up to the end of
 the header, finding the key, and what of this depends on how TCP cuts the stream.
 */
module Handshake {
  import opened Wrappers
  import opened Bytes
  import opened TcpConnection
  import Base64
  import Sha1
  import Sha1Vectors

  datatype WebSocketError = HandshakeFailed | TransportFailure | ConnectionClosed

  const READ_CHUNK: nat := 512
  const HEADER_LIMIT: nat := 16384
  const TERMINATOR: seq<Byte> := [13, 10, 13, 10]

  // Searching --------------------------------------------------------------------------------

  predicate OccursAt(s: seq<Byte>, needle: seq<Byte>, i: nat) {
    i + |needle| <= |s| && s[i..i + |needle|] == needle
  }

  /** `std::string::find`: the first occurrence of `needle` at or after index `from`. */
  function Find(s: seq<Byte>, needle: seq<Byte>, from: nat): (r: Option<nat>)
    ensures r.Some? ==> from <= r.value && OccursAt(s, needle, r.value)
    decreases |s| - from
  {
    if from + |needle| > |s| then None
    else if OccursAt(s, needle, from) then Some(from)
    else if from == |s| then None
    else Find(s, needle, from + 1)
  }

  /** No occurrence is missed or passed over. */
  lemma {:induction false} FindIsFirst(s: seq<Byte>, needle: seq<Byte>, from: nat, i: nat)
    requires from <= i && OccursAt(s, needle, i)
    ensures Find(s, needle, from).Some? && Find(s, needle, from).value <= i
    decreases |s| - from
  {
    if OccursAt(s, needle, from) {
    } else {
      FindIsFirst(s, needle, from + 1, i);
    }
  }

  lemma FindAt(s: seq<Byte>, needle: seq<Byte>, from: nat, i: nat)
    requires from <= i && OccursAt(s, needle, i) && forall j :: from <= j < i ==> !OccursAt(s, needle, j)
    ensures Find(s, needle, from) == Some(i)
  {
    FindIsFirst(s, needle, from, i);
  }

  /** The first n bytes have the same first occurrence, if they hold it at all. */
  lemma {:induction false} FindPrefix(s: seq<Byte>, n: nat, needle: seq<Byte>, from: nat)
    requires n <= |s| && needle != []
    ensures var r := Find(s, needle, from);
            Find(s[..n], needle, from) == if r.Some? && r.value + |needle| <= n then r else None
    decreases |s| - from
  {
    if from + |needle| > n {
    } else {
      assert s[..n][from..from + |needle|] == s[from..from + |needle|];
      if !OccursAt(s, needle, from) {
        FindPrefix(s, n, needle, from + 1);
      }
    }
  }

  // The end of the header --------------------------------------------------------------------

  /** The end of the first terminator. */
  function FirstEnd(s: seq<Byte>): (end: Option<nat>)
    ensures end.Some? ==> 4 <= end.value <= |s|
  {
    var at := Find(s, TERMINATOR, 0);
    if at.None? then None else Some(at.value + |TERMINATOR|)
  }

  lemma FirstEndPrefix(s: seq<Byte>, n: nat)
    requires n <= |s|
    ensures FirstEnd(s[..n]) == if FirstEnd(s).Some? && FirstEnd(s).value <= n then FirstEnd(s) else None
  {
    FindPrefix(s, n, TERMINATOR, 0);
  }

  /** Bytes that arrive later neither move the end of the first terminator nor put one in earlier. */
  lemma FirstEndStable(s: seq<Byte>, more: seq<Byte>)
    ensures FirstEnd(s).Some? ==> FirstEnd(s + more) == FirstEnd(s)
    ensures FirstEnd(s).None? && FirstEnd(s + more).Some? ==> FirstEnd(s + more).value > |s|
  {
    assert (s + more)[..|s|] == s;
    FirstEndPrefix(s + more, |s|);
  }

  /** The end of the header and all bytes received, with the segments still to come; or an error. */
  datatype HeaderResult = Header(end: nat, buffer: seq<Byte>, incoming: seq<seq<Byte>>) | Failed(error: WebSocketError)

  /** `readUntil` on the segments of a stream. */
  function HeaderRead(buffer: seq<Byte>, segments: seq<seq<Byte>>): (r: HeaderResult)
    requires NoneEmpty(segments)
    ensures r.Header? ==> r.end <= |r.buffer|
    decreases |Flatten(segments)|
  {
    var end := FirstEnd(buffer);
    if end.Some? then Header(end.value, buffer, segments)
    else if segments == [] then Failed(TransportFailure)
    else
      var (chunk, rest) := Delivered(segments, READ_CHUNK);
      assert segments[0] != [];
      assert |Flatten(segments)| == |chunk| + |Flatten(rest)|;
      if |buffer + chunk| > HEADER_LIMIT then Failed(HandshakeFailed) else HeaderRead(buffer + chunk, rest)
  }

  method ReadUntil(connection: TcpConnection) returns (r: Result<nat, WebSocketError>, buffer: seq<Byte>)
    requires connection.Valid()
    modifies connection`incoming
    ensures connection.Valid()
    ensures match HeaderRead([], old(connection.incoming))
            case Header(end, read, incoming) => r == Ok(end) && buffer == read && connection.incoming == incoming
            case Failed(error) => r == Err(error)
  {
    buffer := [];
    while true
      invariant connection.Valid()
      invariant HeaderRead([], old(connection.incoming)) == HeaderRead(buffer, connection.incoming)
      decreases |connection.Unread()|
    {
      var end := FirstEnd(buffer);
      if end.Some? {
        return Ok(end.value), buffer;
      }
      var chunk := connection.Receive(READ_CHUNK);
      if chunk.Err? {
        return Err(TransportFailure), buffer;
      }
      buffer := buffer + chunk.value;
      if |buffer| > HEADER_LIMIT {
        return Err(HandshakeFailed), buffer;
      }
    }
  }

  /** What a caller sees: the end of the header, and all bytes of the stream still at hand. */
  function Outcome(r: HeaderResult): Result<(nat, seq<Byte>), WebSocketError> {
    match r
    case Header(end, buffer, incoming) => Ok((end, buffer + Flatten(incoming)))
    case Failed(error) => Err(error)
  }

  /** Up to here a terminator is always found in time. */
  const SAFE_END: nat := HEADER_LIMIT - READ_CHUNK + 1

  /** The outcome for a whole stream, where the stream alone decides it. */
  function Decided(stream: seq<Byte>): Option<Result<(nat, seq<Byte>), WebSocketError>> {
    var end := FirstEnd(stream);
    if end.None? then Some(Err(if |stream| <= HEADER_LIMIT then TransportFailure else HandshakeFailed))
    else if end.value <= SAFE_END || |stream| <= HEADER_LIMIT then Some(Ok((end.value, stream)))
    else if end.value > HEADER_LIMIT then Some(Err(HandshakeFailed))
    else None
  }

  /** `r` is an outcome of `stream`: one of those possible, and the decided one where one is. */
  predicate OutcomeOf(stream: seq<Byte>, r: Result<(nat, seq<Byte>), WebSocketError>) {
    match Decided(stream)
    case Some(decided) => r == decided
    case None => r == Err(HandshakeFailed) || (FirstEnd(stream).Some? && r == Ok((FirstEnd(stream).value, stream)))
  }

  lemma {:induction false} HeaderOutcome(buffer: seq<Byte>, segments: seq<seq<Byte>>)
    requires NoneEmpty(segments) && |buffer| <= HEADER_LIMIT
    requires FirstEnd(buffer).Some? ==> |buffer| - FirstEnd(buffer).value < READ_CHUNK
    ensures OutcomeOf(buffer + Flatten(segments), Outcome(HeaderRead(buffer, segments)))
    decreases |Flatten(segments)|
  {
    var stream := buffer + Flatten(segments);
    FirstEndStable(buffer, Flatten(segments));
    if FirstEnd(buffer).Some? {
    } else {
      if segments == [] {
        assert stream == buffer;
      } else {
        var (chunk, rest) := Delivered(segments, READ_CHUNK);
        assert segments[0] != [];
        assert stream == (buffer + chunk) + Flatten(rest);
        FirstEndStable(buffer, chunk);
        if |buffer + chunk| <= HEADER_LIMIT {
          HeaderOutcome(buffer + chunk, rest);
        }
      }
    }
  }

  /** A first segment without a terminator before its end is taken in whole, if it fits. */
  lemma {:induction false} FeedWhole(buffer: seq<Byte>, first: seq<Byte>, rest: seq<seq<Byte>>)
    requires NoneEmpty([first] + rest) && |buffer + first| <= HEADER_LIMIT
    requires FirstEnd(buffer + first).Some? ==> FirstEnd(buffer + first).value == |buffer + first|
    ensures NoneEmpty(rest) && HeaderRead(buffer, [first] + rest) == HeaderRead(buffer + first, rest)
    decreases |first|
  {
    assert ([first] + rest)[0] == first && ([first] + rest)[1..] == rest;
    assert forall i :: 0 <= i < |rest| ==> rest[i] == ([first] + rest)[i + 1];
    FirstEndStable(buffer, first);
    if |first| <= READ_CHUNK {
    } else {
      var head, tail := first[..READ_CHUNK], first[READ_CHUNK..];
      assert buffer + first == (buffer + head) + tail;
      assert Delivered([first] + rest, READ_CHUNK) == (head, [tail] + rest);
      FeedWhole(buffer + head, tail, rest);
    }
  }

  ghost predicate Cuts(stream: seq<Byte>, segments: seq<seq<Byte>>) {
    NoneEmpty(segments) && Flatten(segments) == stream
  }

  lemma TwoSegments(stream: seq<Byte>, n: nat)
    requires 0 < n < |stream|
    ensures Cuts(stream, [stream[..n], stream[n..]])
  {
    var segments := [stream[..n], stream[n..]];
    assert segments[1..] == [stream[n..]];
    assert Flatten([stream[n..]]) == stream[n..] + Flatten([]);
    assert stream == stream[..n] + stream[n..];
  }

  /**
   Whenever the header ends at `end`, its last bytes can arrive together with more of the stream:
   the buffer then holds any number `n` of bytes that one read can reach.
   */
  lemma Received(stream: seq<Byte>, end: nat, n: nat) returns (segments: seq<seq<Byte>>)
    requires FirstEnd(stream) == Some(end) && end <= n <= MostReceived(stream, end)
    ensures Cuts(stream, segments)
    ensures HeaderRead([], segments).Header? && HeaderRead([], segments).end == end
    ensures HeaderRead([], segments).buffer == stream[..n]
  {
    var first, second := stream[..end - 1], stream[end - 1..n];
    var rest := if n < |stream| then [stream[n..]] else [];
    segments := [first] + ([second] + rest);
    assert ([second] + rest)[1..] == rest && rest != [] ==> rest[1..] == [];
    assert Flatten(rest) == stream[n..];
    assert segments[1..] == [second] + rest;
    assert stream == first + (second + stream[n..]);
    assert [] + first == first && first + second == stream[..n];
    FirstEndPrefix(stream, end - 1);
    FirstEndPrefix(stream, n);
    FeedWhole([], first, [second] + rest);
    assert Delivered([second] + rest, READ_CHUNK) == (second, rest);
  }

  /** The most bytes that can have been received when the end of the header is seen. */
  function MostReceived(stream: seq<Byte>, end: nat): (n: nat)
    requires end <= |stream|
    ensures n <= |stream|
  {
    var n := end + READ_CHUNK - 1;
    var m := if n <= HEADER_LIMIT then n else HEADER_LIMIT;
    if m <= |stream| then m else |stream|
  }

  /** One read that runs from before the terminator to past the limit is refused unseen. */
  lemma TooLate(stream: seq<Byte>, end: nat)
    requires FirstEnd(stream) == Some(end) && SAFE_END < end <= HEADER_LIMIT < |stream|
    ensures Cuts(stream, [stream[..SAFE_END], stream[SAFE_END..]])
    ensures Outcome(HeaderRead([], [stream[..SAFE_END], stream[SAFE_END..]])) == Err(HandshakeFailed)
  {
    var first, second := stream[..SAFE_END], stream[SAFE_END..];
    TwoSegments(stream, SAFE_END);
    FirstEndStable(first, second);
    assert first + second == stream && [] + first == first;
    assert [first] + [second] == [first, second];
    FeedWhole([], first, [second]);
  }

  /**
   How TCP cuts the stream is immaterial to the header, the bytes carried over and the error
   exactly if there is no terminator, or it ends within the first 15873 bytes, or after 16384
   bytes, or the whole stream has no more than 16384 bytes.
   */
  lemma ChunkingImmaterialIff(stream: seq<Byte>)
    ensures (forall s, t :: Cuts(stream, s) && Cuts(stream, t) ==> Outcome(HeaderRead([], s)) == Outcome(HeaderRead([], t)))
            <==> Decided(stream).Some?
    ensures var end := FirstEnd(stream);
            Decided(stream).Some? <==> end.None? || end.value <= 15_873 || end.value > 16_384 || |stream| <= 16_384
  {
    assert [] + stream == stream;
    if Decided(stream).Some? {
      forall s | Cuts(stream, s) ensures Outcome(HeaderRead([], s)) == Decided(stream).value {
        HeaderOutcome([], s);
      }
    } else {
      var end := FirstEnd(stream).value;
      var cut := Received(stream, end, end);
      TooLate(stream, end);
    }
  }

  /** A stream whose header ends late and is followed by more: found if cut there, refused if not. */
  lemma LateHeaderUndecided()
    ensures var stream: seq<Byte> := seq(15900, i => 0) + TERMINATOR + seq(600, i => 0);
            Decided(stream).None? && FirstEnd(stream) == Some(15904)
  {
    var zeros: seq<Byte> := seq(15900, i => 0);
    var stream: seq<Byte> := zeros + TERMINATOR + seq(600, i => 0);
    assert stream[15900..15904] == TERMINATOR;
    FindIsFirst(stream, TERMINATOR, 0, 15900);
    var at := Find(stream, TERMINATOR, 0).value;
    assert stream[at..at + 4][0] == stream[at];
  }

  // The key ----------------------------------------------------------------------------------

  /** `std::tolower` on every byte, in the "C" locale. */
  function Lowered(s: seq<Byte>): (r: seq<Byte>)
    ensures |r| == |s|
  {
    seq(|s|, i requires 0 <= i < |s| => if 'A' as nat <= s[i] <= 'Z' as nat then s[i] + 32 else s[i])
  }

  /** Two bytes are the same letter, if they are letters, and the same byte if not. */
  predicate SameLetter(a: Byte, b: Byte) {
    a == b || (65 <= a <= 90 && b == a + 32) || (65 <= b <= 90 && a == b + 32)
  }

  /** Names agree exactly if they differ in the case of letters only. */
  lemma AnyLetterCase(s: seq<Byte>, t: seq<Byte>)
    ensures Lowered(s) == Lowered(t) <==> |s| == |t| && forall i :: 0 <= i < |s| ==> SameLetter(s[i], t[i])
  {
    if |s| == |t| {
      forall i | 0 <= i < |s| ensures SameLetter(s[i], t[i]) <==> Lowered(s)[i] == Lowered(t)[i] {}
      if forall i :: 0 <= i < |s| ==> SameLetter(s[i], t[i]) {
        assert Lowered(s) == Lowered(t);
      }
    } else {
      assert |Lowered(s)| != |Lowered(t)|;
    }
  }

  predicate Blank(b: Byte) {
    b == ' ' as nat || b == '\t' as nat
  }

  /** Without blanks at either end; None if there is nothing else. */
  function Trimmed(s: seq<Byte>): Option<seq<Byte>> {
    if s == [] then None
    else if Blank(s[0]) then Trimmed(s[1..])
    else if Blank(s[|s| - 1]) then Trimmed(s[..|s| - 1])
    else Some(s)
  }

  const COLON: seq<Byte> := [58]
  const LINE_END: seq<Byte> := [13, 10]

  function KeyField(): (name: seq<Byte>)
    ensures |name| == 17
  {
    Text("Sec-WebSocket-Key")
  }

  /**
   `findHeaderValue`: the first occurrence of the name in any case and anywhere in what was
   received, the first colon after it, and what stands between the colon and the end of the line.
   */
  function FindHeaderValue(request: seq<Byte>, name: seq<Byte>): Option<seq<Byte>> {
    var pos := Find(Lowered(request), Lowered(name), 0);
    if pos.None? then None else ValueAfter(request, pos.value)
  }

  function ValueAfter(request: seq<Byte>, pos: nat): Option<seq<Byte>> {
    var colon := Find(request, COLON, pos);
    if colon.None? then None
    else
      var lineEnd := Find(request, LINE_END, colon.value);
      if lineEnd.None? then None
      else
        assert request[colon.value] == COLON[0] && request[lineEnd.value] == LINE_END[0];
        Trimmed(request[colon.value + 1..lineEnd.value])
  }

  function KeyIn(received: seq<Byte>): Option<seq<Byte>> {
    FindHeaderValue(received, KeyField())
  }

  // Which bytes the key is -----------------------------------------------------------------------

  /** Blanks at both ends are taken off, and nothing else. */
  lemma {:induction false} TrimmedIs(left: seq<Byte>, key: seq<Byte>, right: seq<Byte>)
    requires (forall b <- left :: Blank(b)) && (forall b <- right :: Blank(b))
    requires key != [] && !Blank(key[0]) && !Blank(key[|key| - 1])
    ensures Trimmed(left + key + right) == Some(key)
    decreases |left| + |right|
  {
    var s := left + key + right;
    if left != [] {
      assert s[0] == left[0] && s[1..] == left[1..] + key + right;
      TrimmedIs(left[1..], key, right);
    } else if right != [] {
      assert s[0] == key[0] && s[|s| - 1] == right[|right| - 1] && s[..|s| - 1] == left + key + right[..|right| - 1];
      TrimmedIs(left, key, right[..|right| - 1]);
    } else {
      assert s == key;
    }
  }

  /** A value of blanks alone is none. */
  lemma {:induction false} TrimmedBlanks(s: seq<Byte>)
    requires forall b <- s :: Blank(b)
    ensures Trimmed(s) == None
  {
    if s != [] {
      assert s[0] in s;
      TrimmedBlanks(s[1..]);
    }
  }

  /** The part of a request from the name of a field to the end of its line. */
  function FieldLine(name: seq<Byte>, between: seq<Byte>, value: seq<Byte>): seq<Byte> {
    name + between + COLON + value + LINE_END
  }

  lemma LoweredColon(field: seq<Byte>, name: seq<Byte>)
    requires Lowered(field) == Lowered(name) && 58 !in name
    ensures 58 !in field
  {
    assert |field| == |Lowered(field)| == |name|;
    forall i | 0 <= i < |field| ensures field[i] != 58 {
      assert Lowered(field)[i] == Lowered(name)[i] && name[i] in name;
    }
  }

  /** The value of the first line that names the field is everything between its colon and its end, trimmed. */
  lemma ValueOfLine(before: seq<Byte>, field: seq<Byte>, between: seq<Byte>, value: seq<Byte>, more: seq<Byte>)
    requires 58 !in field && 58 !in between && forall i :: !OccursAt(value, LINE_END, i)
    ensures ValueAfter(before + FieldLine(field, between, value) + more, |before|) == Trimmed(value)
  {
    hide Trimmed, FieldLine, OccursAt, Find;
    var request := before + FieldLine(field, between, value) + more;
    var colon := |before| + |field| + |between|;
    var end := colon + 1 + |value|;
    LineBytes(before, field, between, value, more);
    forall j: nat | |before| <= j <= colon ensures OccursAt(request, COLON, j) <==> j == colon {
      ColonByte(request, j);
    }
    FindAt(request, COLON, |before|, colon);
    forall j: nat | colon <= j <= end ensures OccursAt(request, LINE_END, j) <==> j == end {
      LineEndBytes(request, j);
      if colon < j {
        LineEndBytes(value, j - colon - 1);
      }
    }
    FindAt(request, LINE_END, colon, end);
    assert request[colon + 1..end] == value;
  }

  lemma LineBytes(before: seq<Byte>, field: seq<Byte>, between: seq<Byte>, value: seq<Byte>, more: seq<Byte>)
    ensures var request := before + FieldLine(field, between, value) + more;
            var colon := |before| + |field| + |between|;
            var end := colon + 1 + |value|;
            && end + 2 <= |request| && request[colon] == 58 && request[end] == 13 && request[end + 1] == 10
            && (forall j :: |before| <= j < colon ==> request[j] in field || request[j] in between)
            && (forall j :: colon < j < end ==> request[j] == value[j - colon - 1])
  {
    var line := FieldLine(field, between, value);
    var request := before + line + more;
    assert forall j :: |before| <= j < |before| + |line| ==> request[j] == line[j - |before|];
    assert forall j :: 0 <= j < |field| + |between| ==> line[j] == (field + between)[j];
  }

  lemma ColonByte(s: seq<Byte>, i: nat)
    ensures OccursAt(s, COLON, i) <==> i < |s| && s[i] == 58
  {
    if i < |s| {
      assert s[i..i + 1] == [s[i]];
    }
  }

  lemma LineEndBytes(s: seq<Byte>, i: nat)
    ensures OccursAt(s, LINE_END, i) <==> i + 2 <= |s| && s[i] == 13 && s[i + 1] == 10
  {
    if i + 2 <= |s| {
      assert s[i..i + 2] == [s[i], s[i + 1]];
    }
  }

  /** A name is found in any letter case, and its first line gives the value without blanks at its ends. */
  lemma ValueIs(before: seq<Byte>, field: seq<Byte>, between: seq<Byte>, left: seq<Byte>, key: seq<Byte>,
                right: seq<Byte>, more: seq<Byte>, name: seq<Byte>)
    requires Lowered(field) == Lowered(name) && 58 !in name && 58 !in between
    requires (forall b <- left :: Blank(b)) && (forall b <- right :: Blank(b))
    requires key != [] && !Blank(key[0]) && !Blank(key[|key| - 1]) && forall i :: !OccursAt(key, LINE_END, i)
    requires var request := before + FieldLine(field, between, left + key + right) + more;
             forall i :: 0 <= i < |before| ==> !OccursAt(Lowered(request), Lowered(name), i)
    ensures FindHeaderValue(before + FieldLine(field, between, left + key + right) + more, name) == Some(key)
  {
    hide Trimmed, ValueAfter;
    var value := left + key + right;
    var request := before + FieldLine(field, between, value) + more;
    LoweredColon(field, name);
    assert Lowered(request)[|before|..|before| + |field|] == Lowered(field) by {
      assert request[|before|..|before| + |field|] == field;
    }
    assert |Lowered(field)| == |Lowered(name)|;
    FindAt(Lowered(request), Lowered(name), 0, |before|);
    forall i: nat ensures !OccursAt(value, LINE_END, i) {
      if OccursAt(value, LINE_END, i) {
        LineEndInKey(left, key, right, i);
      }
    }
    ValueOfLine(before, field, between, value, more);
    TrimmedIs(left, key, right);
  }

  lemma LineEndInKey(left: seq<Byte>, key: seq<Byte>, right: seq<Byte>, i: nat)
    requires (forall b <- left :: Blank(b)) && (forall b <- right :: Blank(b))
    requires OccursAt(left + key + right, LINE_END, i)
    ensures i >= |left| && OccursAt(key, LINE_END, i - |left|)
  {
    var s := left + key + right;
    LineEndBytes(s, i);
    assert forall j :: 0 <= j < |left| ==> s[j] == left[j] && left[j] in left;
    assert forall j :: |left| + |key| <= j < |s| ==> s[j] == right[j - |left| - |key|] && s[j] in right;
    assert s[i] == key[i - |left|] && s[i + 1] == key[i - |left| + 1];
  }

  /** So the key of a request is what stands in its first Sec-WebSocket-Key line. */
  lemma KeyIs(before: seq<Byte>, field: seq<Byte>, left: seq<Byte>, key: seq<Byte>, right: seq<Byte>, more: seq<Byte>)
    requires Lowered(field) == Lowered(Text("Sec-WebSocket-Key"))
    requires (forall b <- left :: b == 32 || b == 9) && (forall b <- right :: b == 32 || b == 9)
    requires key != [] && key[0] !in {32, 9} && key[|key| - 1] !in {32, 9}
    requires forall i :: 0 <= i < |key| - 1 ==> !(key[i] == 13 && key[i + 1] == 10)
    requires var request := before + field + [58] + left + key + right + [13, 10] + more;
             forall i :: 0 <= i < |before| ==> !OccursAt(Lowered(request), Lowered(Text("Sec-WebSocket-Key")), i)
    ensures KeyIn(before + field + [58] + left + key + right + [13, 10] + more) == Some(key)
  {
    hide FindHeaderValue, KeyField;
    var request := before + field + [58] + left + key + right + [13, 10] + more;
    assert request == before + FieldLine(field, [], left + key + right) + more;
    forall i: nat ensures !OccursAt(key, LINE_END, i) {
      LineEndBytes(key, i);
    }
    assert 58 !in KeyField() by {
      NoColonInKeyField();
    }
    KeyFieldText();
    ValueIs(before, field, [], left, key, right, more, KeyField());
  }

  lemma KeyFieldText()
    ensures KeyField() == Text("Sec-WebSocket-Key")
  {}

  lemma ValueAfterPrefix(request: seq<Byte>, n: nat, pos: nat)
    requires n <= |request| && ValueAfter(request[..n], pos).Some?
    ensures ValueAfter(request, pos) == ValueAfter(request[..n], pos)
  {
    FindPrefix(request, n, COLON, pos);
    var colon := Find(request, COLON, pos).value;
    FindPrefix(request, n, LINE_END, colon);
    var lineEnd := Find(request, LINE_END, colon).value;
    assert request[colon] == COLON[0] && request[lineEnd] == LINE_END[0];
    assert request[..n][colon + 1..lineEnd] == request[colon + 1..lineEnd];
  }

  /** A value found in the first bytes received is the value found with more of them. */
  lemma ValuePrefix(request: seq<Byte>, n: nat, name: seq<Byte>)
    requires n <= |request| && name != [] && FindHeaderValue(request[..n], name).Some?
    ensures FindHeaderValue(request, name) == FindHeaderValue(request[..n], name)
  {
    hide ValueAfter, Find;
    assert Lowered(request[..n]) == Lowered(request)[..n];
    FindPrefix(Lowered(request), n, Lowered(name), 0);
    ValueAfterPrefix(request, n, Find(Lowered(request), Lowered(name), 0).value);
  }

  const GUID := "258EAFA5-E914-47DA-95CA-C5AB0DC85B11"

  function StatusLines(): string {
    "HTTP/1.1 101 Switching Protocols\r\nUpgrade: websocket\r\nConnection: Upgrade\r\n"
  }

  function AcceptField(): string {
    "Sec-WebSocket-Accept: "
  }

  /** The key is answered with the Base64 form of its SHA-1 digest (section 1.3). */
  function AcceptValue(key: seq<Byte>): string {
    Base64.Encoded(Sha1.Digest(key + Text(GUID)))
  }

  function Response(key: seq<Byte>): seq<Byte> {
    Text(StatusLines()) + Text(AcceptField()) + Text(AcceptValue(key)) + Text("\r\n") + Text("\r\n")
  }

  /** The example of section 1.3 of RFC 6455. */
  lemma ExampleAccepted()
    ensures AcceptValue(Text("dGhlIHNhbXBsZSBub25jZQ==")) == "s3pPLMBiTxaQ9kYGzzhZRbK+xOo="
  {
    hide Text, Sha1.Digest, Base64.Encoded;
    Sha1Vectors.OpeningDigest();
    EncodedEnd();
    var end: seq<Byte> := [0xcf, 0x38, 0x59, 0x45, 0xb2, 0xbe, 0xc4, 0xea];
    EncodedMiddle(end);
    EncodedStart([0x4f, 0x16, 0x90, 0xf6, 0x46, 0x06] + end);
    assert Sha1.Digest(Text("dGhlIHNhbXBsZSBub25jZQ==") + Text(GUID))
           == [0xb3, 0x7a, 0x4f, 0x2c, 0xc0, 0x62] + ([0x4f, 0x16, 0x90, 0xf6, 0x46, 0x06] + end);
  }

  /** The answer to it: the header ends in two line ends, and nothing follows. */
  lemma ExampleResponse()
    ensures Response(Text("dGhlIHNhbXBsZSBub25jZQ==")) ==
            Text("HTTP/1.1 101 Switching Protocols\r\nUpgrade: websocket\r\nConnection: Upgrade\r\n")
            + Text("Sec-WebSocket-Accept: s3pPLMBiTxaQ9kYGzzhZRbK+xOo=\r\n\r\n")
  {
    hide Text, AcceptValue, StatusLines, AcceptField;
    ExampleAccepted();
    FirstLines();
    LastLines();
    TextConcat(AcceptField(), "s3pPLMBiTxaQ9kYGzzhZRbK+xOo=");
    TextConcat(AcceptField() + "s3pPLMBiTxaQ9kYGzzhZRbK+xOo=", "\r\n");
    TextConcat(AcceptField() + "s3pPLMBiTxaQ9kYGzzhZRbK+xOo=" + "\r\n", "\r\n");
    var lines, field, value, end :=
      Text(StatusLines()), Text(AcceptField()), Text("s3pPLMBiTxaQ9kYGzzhZRbK+xOo="), Text("\r\n");
    assert lines + field + value + end + end == lines + (field + value + end + end);
  }

  lemma FirstLines()
    ensures StatusLines() == "HTTP/1.1 101 Switching Protocols\r\nUpgrade: websocket\r\nConnection: Upgrade\r\n"
  {}

  lemma LastLines()
    ensures AcceptField() + "s3pPLMBiTxaQ9kYGzzhZRbK+xOo=" + "\r\n" + "\r\n"
            == "Sec-WebSocket-Accept: s3pPLMBiTxaQ9kYGzzhZRbK+xOo=\r\n\r\n"
  {}

  lemma TextConcat(s: string, t: string)
    ensures Text(s + t) == Text(s) + Text(t)
  {}

  lemma FirstQuads()
    ensures Base64.Quad(Base64.Triple(0xb3, 0x7a, 0x4f)) == "s3pP"
    ensures Base64.Quad(Base64.Triple(0x2c, 0xc0, 0x62)) == "LMBi"
    ensures Base64.Quad(Base64.Triple(0x4f, 0x16, 0x90)) == "TxaQ"
  {
    Base64.QuadIs(Base64.Triple(0xb3, 0x7a, 0x4f), 's', '3', 'p', 'P');
    Base64.QuadIs(Base64.Triple(0x2c, 0xc0, 0x62), 'L', 'M', 'B', 'i');
    Base64.QuadIs(Base64.Triple(0x4f, 0x16, 0x90), 'T', 'x', 'a', 'Q');
  }

  lemma LastQuads()
    ensures Base64.Quad(Base64.Triple(0xf6, 0x46, 0x06)) == "9kYG"
    ensures Base64.Quad(Base64.Triple(0xcf, 0x38, 0x59)) == "zzhZ"
    ensures Base64.Quad(Base64.Triple(0x45, 0xb2, 0xbe)) == "RbK+"
    ensures Base64.Quad(Base64.Triple(0xc4, 0xea, 0)) == "xOoA"
  {
    Base64.QuadIs(Base64.Triple(0xf6, 0x46, 0x06), '9', 'k', 'Y', 'G');
    Base64.QuadIs(Base64.Triple(0xcf, 0x38, 0x59), 'z', 'z', 'h', 'Z');
    Base64.QuadIs(Base64.Triple(0x45, 0xb2, 0xbe), 'R', 'b', 'K', '+');
    Base64.QuadIs(Base64.Triple(0xc4, 0xea, 0), 'x', 'O', 'o', 'A');
  }

  lemma EncodedEnd()
    ensures Base64.Encoded([0xcf, 0x38, 0x59, 0x45, 0xb2, 0xbe, 0xc4, 0xea]) == "zzhZRbK+xOo="
  {
    hide Base64.Quad;
    LastQuads();
    assert Base64.Encoded([0xc4, 0xea]) == "xOo=";
    hide Base64.Encoded;
    Base64.EncodedWith(0x45, 0xb2, 0xbe, [0xc4, 0xea], "RbK+", "xOo=");
    assert [0x45, 0xb2, 0xbe] + [0xc4, 0xea] == [0x45, 0xb2, 0xbe, 0xc4, 0xea];
    Base64.EncodedWith(0xcf, 0x38, 0x59, [0x45, 0xb2, 0xbe, 0xc4, 0xea], "zzhZ", "RbK+xOo=");
    assert [0xcf, 0x38, 0x59] + [0x45, 0xb2, 0xbe, 0xc4, 0xea] == [0xcf, 0x38, 0x59, 0x45, 0xb2, 0xbe, 0xc4, 0xea];
  }

  lemma EncodedMiddle(end: seq<Byte>)
    requires Base64.Encoded(end) == "zzhZRbK+xOo="
    ensures Base64.Encoded([0x4f, 0x16, 0x90, 0xf6, 0x46, 0x06] + end) == "TxaQ9kYGzzhZRbK+xOo="
  {
    hide Base64.Encoded, Base64.Quad;
    FirstQuads();
    LastQuads();
    Base64.EncodedWith(0xf6, 0x46, 0x06, end, "9kYG", "zzhZRbK+xOo=");
    Base64.EncodedWith(0x4f, 0x16, 0x90, [0xf6, 0x46, 0x06] + end, "TxaQ", "9kYGzzhZRbK+xOo=");
    assert [0x4f, 0x16, 0x90] + ([0xf6, 0x46, 0x06] + end) == [0x4f, 0x16, 0x90, 0xf6, 0x46, 0x06] + end;
  }

  lemma EncodedStart(end: seq<Byte>)
    requires Base64.Encoded(end) == "TxaQ9kYGzzhZRbK+xOo="
    ensures Base64.Encoded([0xb3, 0x7a, 0x4f, 0x2c, 0xc0, 0x62] + end) == "s3pPLMBiTxaQ9kYGzzhZRbK+xOo="
  {
    hide Base64.Encoded, Base64.Quad;
    FirstQuads();
    Base64.EncodedWith(0x2c, 0xc0, 0x62, end, "LMBi", "TxaQ9kYGzzhZRbK+xOo=");
    Base64.EncodedWith(0xb3, 0x7a, 0x4f, [0x2c, 0xc0, 0x62] + end, "s3pP", "LMBiTxaQ9kYGzzhZRbK+xOo=");
    assert [0xb3, 0x7a, 0x4f] + ([0x2c, 0xc0, 0x62] + end) == [0xb3, 0x7a, 0x4f, 0x2c, 0xc0, 0x62] + end;
  }

  /** The response to a request whose header was read, if it has a key. */
  function HandshakeResponse(header: HeaderResult): Result<seq<Byte>, WebSocketError> {
    if header.Failed? then Err(header.error)
    else
      var key := KeyIn(header.buffer);
      if key.None? then Err(HandshakeFailed) else Ok(Response(key.value))
  }

  method BuildResponse(key: seq<Byte>) returns (response: seq<Byte>)
    ensures response == Response(key)
  {
    hide StatusLines, AcceptField, Text, Base64.Encoded, Sha1.Digest;
    var digest := Sha1.Sha1(key + Text(GUID));
    var acceptValue := Base64.Base64Encode(digest[..]);
    response := Text(StatusLines());
    response := response + Text(AcceptField()) + Text(acceptValue) + Text("\r\n");
    response := response + Text("\r\n");
  }

  // What acceptance depends on -----------------------------------------------------------------

  /** Whenever the header ends at `end`, the buffer holds the stream up to where one read can reach. */
  lemma {:induction false} ReceivedWithin(buffer: seq<Byte>, segments: seq<seq<Byte>>, end: nat)
    requires NoneEmpty(segments) && FirstEnd(buffer + Flatten(segments)) == Some(end)
    requires |buffer| <= HEADER_LIMIT && |buffer| <= end + READ_CHUNK - 1
    ensures var r, stream := HeaderRead(buffer, segments), buffer + Flatten(segments);
            r.Header? ==> end <= |r.buffer| <= MostReceived(stream, end) && r.buffer == stream[..|r.buffer|]
    decreases |Flatten(segments)|
  {
    var stream := buffer + Flatten(segments);
    FirstEndStable(buffer, Flatten(segments));
    if FirstEnd(buffer).Some? {
      assert stream[..|buffer|] == buffer;
    } else if segments == [] {
    } else {
      var (chunk, rest) := Delivered(segments, READ_CHUNK);
      assert segments[0] != [];
      assert stream == (buffer + chunk) + Flatten(rest);
      if |buffer + chunk| <= HEADER_LIMIT {
        ReceivedWithin(buffer + chunk, rest, end);
      }
    }
  }

  /** The stream alone decides how a handshake is answered, whatever TCP makes of it. */
  predicate AnswerDecided(stream: seq<Byte>) {
    var end := FirstEnd(stream);
    end.None? || end.value > HEADER_LIMIT
    || KeyIn(stream[..MostReceived(stream, end.value)]).None?
    || (Decided(stream).Some? && KeyIn(stream[..end.value]).Some?)
  }

  /**
   How TCP cuts the stream is immaterial to the answer exactly if no header is found in time; or
   no key is found even in the most bytes that can arrive with the end of the header; or the
   header is found in time for every cutting and holds the key itself.
   */
  lemma AnswerImmaterialIff(stream: seq<Byte>)
    ensures (forall s, t :: Cuts(stream, s) && Cuts(stream, t) ==>
               HandshakeResponse(HeaderRead([], s)) == HandshakeResponse(HeaderRead([], t)))
            <==> AnswerDecided(stream)
  {
    hide Response, FindHeaderValue, KeyField, FirstEnd;
    assert [] + stream == stream;
    if AnswerDecided(stream) {
      forall s | Cuts(stream, s) ensures HandshakeResponse(HeaderRead([], s)) == DecidedAnswer(stream) {
        AnswerIs(stream, s);
      }
    } else {
      var end := FirstEnd(stream).value;
      var late := Received(stream, end, MostReceived(stream, end));
      if Decided(stream).Some? {
        var early := Received(stream, end, end);
      } else {
        TooLate(stream, end);
      }
    }
  }

  /** The answer to a stream that decides it. */
  function DecidedAnswer(stream: seq<Byte>): Result<seq<Byte>, WebSocketError> {
    var end := FirstEnd(stream);
    if end.None? && |stream| <= HEADER_LIMIT then Err(TransportFailure)
    else if end.None? || end.value > HEADER_LIMIT || KeyIn(stream[..end.value]).None? then Err(HandshakeFailed)
    else Ok(Response(KeyIn(stream[..end.value]).value))
  }

  lemma AnswerIs(stream: seq<Byte>, segments: seq<seq<Byte>>)
    requires AnswerDecided(stream) && Cuts(stream, segments)
    ensures HandshakeResponse(HeaderRead([], segments)) == DecidedAnswer(stream)
  {
    hide Response, FindHeaderValue, KeyField, FirstEnd, HeaderRead;
    assert [] + stream == stream;
    HeaderOutcome([], segments);
    var end, r := FirstEnd(stream), HeaderRead([], segments);
    if end.Some? && end.value <= HEADER_LIMIT {
      var most := MostReceived(stream, end.value);
      ReceivedWithin([], segments, end.value);
      if KeyIn(stream[..most]).None? {
        if r.Header? && KeyIn(r.buffer).Some? {
          assert stream[..most][..|r.buffer|] == r.buffer;
          ValuePrefix(stream[..most], |r.buffer|, KeyField());
        }
        if KeyIn(stream[..end.value]).Some? {
          assert stream[..most][..end.value] == stream[..end.value];
          ValuePrefix(stream[..most], end.value, KeyField());
        }
      } else {
        assert r.buffer[..end.value] == stream[..end.value];
        ValuePrefix(r.buffer, end.value, KeyField());
      }
    }
  }

  /** CR, LF, CR and LF come first at the end. */
  predicate EndsWithHeader(s: seq<Byte>) {
    && |s| >= 4
    && forall i :: 0 <= i <= |s| - 4 ==>
         (s[i] == 13 && s[i + 1] == 10 && s[i + 2] == 13 && s[i + 3] == 10 <==> i == |s| - 4)
  }

  /**
   A request that ends where its header does, within the first 15873 bytes, and names its key in a
   line of its own: however it is cut, and whatever follows it, it is answered for that key.
   */
  lemma RequestIsAnswered(before: seq<Byte>, field: seq<Byte>, left: seq<Byte>, key: seq<Byte>, right: seq<Byte>,
                          more: seq<Byte>, rest: seq<Byte>, segments: seq<seq<Byte>>)
    requires Lowered(field) == Lowered(Text("Sec-WebSocket-Key"))
    requires (forall b <- left :: b == 32 || b == 9) && (forall b <- right :: b == 32 || b == 9)
    requires key != [] && key[0] !in {32, 9} && key[|key| - 1] !in {32, 9}
    requires forall i :: 0 <= i < |key| - 1 ==> !(key[i] == 13 && key[i + 1] == 10)
    requires var request := before + field + [58] + left + key + right + [13, 10] + more;
             && (forall i :: 0 <= i < |before| ==> !OccursAt(Lowered(request), Lowered(Text("Sec-WebSocket-Key")), i))
             && |request| <= 15_873 && EndsWithHeader(request) && Cuts(request + rest, segments)
    ensures HandshakeResponse(HeaderRead([], segments)) == Ok(Response(key))
  {
    hide Response, FindHeaderValue, KeyField, Lowered, HeaderRead, Find, EndsWithHeader;
    var request := before + field + [58] + left + key + right + [13, 10] + more;
    var stream := request + rest;
    KeyIs(before, field, left, key, right, more);
    HeaderEnds(request);
    FirstEndStable(request, rest);
    assert stream[..|request|] == request;
    AnswerIs(stream, segments);
  }

  lemma HeaderEnds(request: seq<Byte>)
    requires EndsWithHeader(request)
    ensures FirstEnd(request) == Some(|request|)
  {
    forall i: nat | i <= |request| - 4 ensures OccursAt(request, TERMINATOR, i) <==> i == |request| - 4 {
      assert request[i..i + 4] == [request[i], request[i + 1], request[i + 2], request[i + 3]];
    }
    FindAt(request, TERMINATOR, 0, |request| - 4);
  }

  /** A short stream that does not: the header is empty, and the key comes right after it. */
  function KeyAfterHeader(): seq<Byte> {
    TERMINATOR + (KeyField() + [58, 120, 13, 10])
  }

  lemma NoColonInKeyField()
    ensures forall i :: 0 <= i < 17 ==> KeyField()[i] != 58
  {}

  /** In one segment it is accepted; cut after the header, it is refused. */
  lemma ShortStreamUndecided()
    ensures var stream := KeyAfterHeader();
            && |stream| == 25 && Decided(stream).Some? && !AnswerDecided(stream)
            && Cuts(stream, [stream]) && HandshakeResponse(HeaderRead([], [stream])) == Ok(Response([120]))
            && Cuts(stream, [stream[..4], stream[4..]])
            && HandshakeResponse(HeaderRead([], [stream[..4], stream[4..]])) == Err(HandshakeFailed)
  {
    hide Response, KeyField, ValueAfter, HeaderRead;
    var stream := KeyAfterHeader();
    assert OccursAt(stream, TERMINATOR, 0) && stream[..4] == TERMINATOR;
    FindIsFirst(stream, TERMINATOR, 0, 0);
    assert FirstEnd(stream) == Some(4);
    KeyFound(stream);
    assert |Lowered(stream[..4])| < |Lowered(KeyField())|;
    TwoSegments(stream, 4);
    assert stream[..25] == stream;
    FirstEndPrefix(stream, 4);
    OneRead(stream, []);
    OneRead(stream[..4], [stream[4..]]);
    assert stream + Flatten([]) == stream && [stream] + [] == [stream];
    assert [stream[..4]] + [stream[4..]] == [stream[..4], stream[4..]];
  }

  /** A first segment that one read takes and that holds the end of the header. */
  lemma OneRead(first: seq<Byte>, rest: seq<seq<Byte>>)
    requires NoneEmpty([first] + rest) && |first| <= READ_CHUNK && FirstEnd(first).Some?
    ensures NoneEmpty(rest) && HeaderRead([], [first] + rest) == Header(FirstEnd(first).value, first, rest)
  {
    assert [] + first == first && ([first] + rest)[1..] == rest;
    assert forall i :: 0 <= i < |rest| ==> rest[i] == ([first] + rest)[i + 1];
  }

  lemma KeyFound(stream: seq<Byte>)
    requires stream == KeyAfterHeader()
    ensures KeyIn(stream) == Some([120])
  {
    hide FindHeaderValue, Find;
    KeyFieldText();
    var name := KeyField();
    assert stream == TERMINATOR + name + [58] + [] + [120] + [] + [13, 10] + [];
    forall i: nat | i < 4 ensures !OccursAt(Lowered(stream), Lowered(name), i) {
      assert Lowered(stream)[i] == stream[i] < 32 < Lowered(name)[0];
    }
    KeyIs(TERMINATOR, name, [], [120], [], []);
  }
}
