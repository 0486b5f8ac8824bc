/**
 The connection-serving loop: what it dispatches and answers is a function of the byte stream
 alone. It is proved here for one connection with the plant to itself; module Concurrency says
 what other threads do to the plant between requests.
 */
module Serving {
  import opened Wrappers
  import opened Bytes
  import opened FrameCodec
  import opened TcpConnection
  import opened Plant
  import Server

  const CHUNK: nat := 4096

  /** More than this the receive buffer never holds. */
  const BUFFER_BOUND: nat := HEADER_SIZE + MAX_PAYLOAD - 1 + CHUNK

  /** The frames at the front of a stream, up to the first bytes that are not a whole legal frame. */
  function Frames(stream: seq<Byte>): seq<Frame>
    decreases |stream|
  {
    var decoded := Decode(stream);
    if decoded.Err? then []
    else
      EncodingDecoded(stream);
      [decoded.value.frame] + Frames(stream[decoded.value.consumed..])
  }

  /** What is left after those frames. */
  function Rest(stream: seq<Byte>): seq<Byte>
    decreases |stream|
  {
    var decoded := Decode(stream);
    if decoded.Err? then stream
    else
      EncodingDecoded(stream);
      Rest(stream[decoded.value.consumed..])
  }

  function Encodings(frames: seq<Frame>): seq<Byte> {
    if frames == [] then [] else Encoding(frames[0]) + Encodings(frames[1..])
  }

  /** A stream of encoded frames is parsed into exactly these frames; what follows is left alone. */
  lemma {:induction false} FramesOfEncodings(frames: seq<Frame>, tail: seq<Byte>)
    requires forall i :: 0 <= i < |frames| ==> |frames[i].payload| <= MAX_PAYLOAD
    ensures Frames(Encodings(frames) + tail) == frames + Frames(tail)
    ensures Rest(Encodings(frames) + tail) == Rest(tail)
  {
    var stream := Encodings(frames) + tail;
    if frames == [] {
      assert stream == tail;
    } else {
      var others := Encodings(frames[1..]) + tail;
      assert stream == Encoding(frames[0]) + others;
      FirstFrame(frames[0], others);
      FramesOfEncodings(frames[1..], tail);
      HeadFirst(frames, Frames(tail));
    }
  }

  lemma HeadFirst<T>(s: seq<T>, t: seq<T>)
    requires s != []
    ensures [s[0]] + (s[1..] + t) == s + t
  {}

  lemma FirstFrame(frame: Frame, others: seq<Byte>)
    requires |frame.payload| <= MAX_PAYLOAD
    ensures Frames(Encoding(frame) + others) == [frame] + Frames(others)
    ensures Rest(Encoding(frame) + others) == Rest(others)
  {
    DecodeLegal(frame, others);
    assert (Encoding(frame) + others)[HEADER_SIZE + |frame.payload|..] == others;
  }

  /** The parsed frames are legal, and no byte is lost: re-encoded, with the rest, they are the stream. */
  lemma {:induction false} ParseConserves(stream: seq<Byte>)
    ensures Encodings(Frames(stream)) + Rest(stream) == stream
    ensures forall i :: 0 <= i < |Frames(stream)| ==> |Frames(stream)[i].payload| <= MAX_PAYLOAD
    ensures Decode(Rest(stream)).Err?
    decreases |stream|
  {
    hide Encoding, Decode;
    var decoded := Decode(stream);
    if decoded.Err? {
    } else {
      EncodingDecoded(stream);
      var rest := stream[decoded.value.consumed..];
      ParseConserves(rest);
      assert stream == stream[..decoded.value.consumed] + rest;
      EncodingsUnfold(decoded.value.frame, Frames(rest), Rest(rest));
    }
  }

  lemma EncodingsUnfold(first: Frame, frames: seq<Frame>, rest: seq<Byte>)
    ensures Encodings([first] + frames) + rest == Encoding(first) + (Encodings(frames) + rest)
  {
    assert ([first] + frames)[1..] == frames;
  }

  /**
   `receiveOneFrame`: the first frame of buffer and stream together, however the stream is cut.
   No byte is lost; on failure the two together do not start with a legal frame.
   */
  method ReceiveOneFrame(connection: TcpConnection, buffer: seq<Byte>)
    returns (result: Option<Decoded>, received: seq<Byte>)
    requires connection.Valid()
    modifies connection`incoming
    ensures connection.Valid()
    ensures received + connection.Unread() == buffer + old(connection.Unread())
    ensures result == match Decode(buffer + old(connection.Unread())) case Ok(decoded) => Some(decoded) case Err(_) => None
    ensures result.Some? ==> Decode(received) == Ok(result.value)
    ensures |received| <= |buffer| || |received| <= BUFFER_BOUND
  {
    received := buffer;
    while true
      invariant connection.Valid()
      invariant received + connection.Unread() == buffer + old(connection.Unread())
      invariant |received| <= |buffer| || |received| <= BUFFER_BOUND
      decreases |connection.Unread()|
    {
      var decoded := Decode(received);
      if decoded != Err(Incomplete) {
        VerdictStable(received, connection.Unread());
      }
      if decoded.Ok? {
        return Some(decoded.value), received;
      }
      if decoded.error != Incomplete {
        return None, received;
      }
      IncompleteIsShort(received);
      ghost var unread := connection.Unread();
      var chunk := connection.Receive(CHUNK);
      if chunk.Err? {
        assert received + unread == received;
        return None, received;
      }
      assert (received + chunk.value) + connection.Unread() == received + unread;
      received := received + chunk.value;
    }
  }

  /** The plant after a session, the requests dispatched in it, and the bytes sent back. */
  datatype Session = Session(plant: Plant, dispatched: seq<Frame>, sent: seq<Byte>)

  /** Requests are dispatched in order; a response the peer does not accept ends the session. */
  function SessionOf(p: Plant, frames: seq<Frame>, writable: nat, d: Doubles): Session
    decreases |frames|
  {
    if frames == [] then Session(p, [], [])
    else
      var (p', response) := Dispatched(p, frames[0], d);
      var encoded := Encoding(response);
      if |encoded| > writable then Session(p', [frames[0]], encoded[..writable])
      else Continued([frames[0]], encoded, SessionOf(p', frames[1..], writable - |encoded|, d))
  }

  function Continued(dispatched: seq<Frame>, sent: seq<Byte>, rest: Session): Session {
    rest.(dispatched := dispatched + rest.dispatched, sent := sent + rest.sent)
  }

  /**
   What a session sends is the responses to all its requests, in order, up to where the peer stops
   accepting; no request is dispatched out of order, and none is left out if all responses fit.
   */
  lemma {:induction false} SessionSends(p: Plant, frames: seq<Frame>, writable: nat, d: Doubles)
    ensures var session, sent := SessionOf(p, frames, writable, d), Encodings(Responses(p, frames, d));
            && session.sent == Take(sent, writable)
            && session.dispatched <= frames
            && session.plant == DispatchedAll(p, session.dispatched, d)
            && (|sent| <= writable ==> session.dispatched == frames)
    decreases |frames|
  {
    if frames == [] {
    } else {
      var (p', response) := Dispatched(p, frames[0], d);
      var encoded := Encoding(response);
      ResponsesUnfold(p, frames, d);
      assert [frames[0]][1..] == [];
      assert DispatchedAll(p', [], d) == p';
      if |encoded| <= writable {
        SessionSends(p', frames[1..], writable - |encoded|, d);
        var rest := SessionOf(p', frames[1..], writable - |encoded|, d);
        assert ([frames[0]] + rest.dispatched)[1..] == rest.dispatched;
      }
    }
  }

  lemma ResponsesUnfold(p: Plant, frames: seq<Frame>, d: Doubles)
    requires frames != []
    ensures var (p', response) := Dispatched(p, frames[0], d);
            Encodings(Responses(p, frames, d)) == Encoding(response) + Encodings(Responses(p', frames[1..], d))
  {
    var (p', response) := Dispatched(p, frames[0], d);
    assert ([response] + Responses(p', frames[1..], d))[1..] == Responses(p', frames[1..], d);
  }

  lemma ContinuedTwice(frames: seq<Frame>, sent: seq<Byte>, frame: Frame, encoded: seq<Byte>, rest: Session)
    ensures Continued(frames, sent, Continued([frame], encoded, rest)) == Continued(frames + [frame], sent + encoded, rest)
  {
    assert frames + ([frame] + rest.dispatched) == frames + [frame] + rest.dispatched;
    assert sent + (encoded + rest.sent) == sent + encoded + rest.sent;
  }

  /** Taking the first frame off the buffer takes it off the whole stream. */
  lemma NextFrame(received: seq<Byte>, unread: seq<Byte>)
    requires Decode(received).Ok?
    ensures var (frame, consumed) := (Decode(received).value.frame, Decode(received).value.consumed);
            && 0 < consumed <= |received|
            && Frames(received + unread) == [frame] + Frames(received[consumed..] + unread)
  {
    EncodingDecoded(received);
    VerdictStable(received, unread);
    var consumed := Decode(received).value.consumed;
    assert (received + unread)[consumed..] == received[consumed..] + unread;
  }

  lemma ContinuedNothing(rest: Session)
    ensures Continued([], [], rest) == rest
  {
    assert [] + rest.dispatched == rest.dispatched && [] + rest.sent == rest.sent;
  }

  lemma SessionEnd(p: Plant, stream: seq<Byte>, writable: nat, d: Doubles, dispatched: seq<Frame>, sent: seq<Byte>)
    requires Decode(stream).Err?
    ensures Continued(dispatched, sent, SessionOf(p, Frames(stream), writable, d)) == Session(p, dispatched, sent)
  {
    assert dispatched + [] == dispatched && sent + [] == sent;
  }

  lemma SessionStep(p: Plant, frame: Frame, rest: seq<Frame>, writable: nat, d: Doubles, dispatched: seq<Frame>, sent: seq<Byte>)
    ensures var (p', response) := Dispatched(p, frame, d);
            var encoded := Encoding(response);
            Continued(dispatched, sent, SessionOf(p, [frame] + rest, writable, d)) ==
            if |encoded| > writable then Session(p', dispatched + [frame], sent + encoded[..writable])
            else Continued(dispatched + [frame], sent + encoded, SessionOf(p', rest, writable - |encoded|, d))
  {
    var (p', response) := Dispatched(p, frame, d);
    var encoded := Encoding(response);
    assert ([frame] + rest)[1..] == rest;
    if |encoded| <= writable {
      ContinuedTwice(dispatched, sent, frame, encoded, SessionOf(p', rest, writable - |encoded|, d));
    }
  }

  /** Dispatches one request and sends the response. */
  method Answer(connection: TcpConnection, dispatcher: Server.CommandDispatcher, request: Frame) returns (answered: bool)
    requires connection.Valid() && dispatcher.Valid()
    modifies connection`sent, connection`writable, dispatcher.robot.joints, dispatcher.controller, dispatcher.estop.brakes
    ensures var (plant, response) := Dispatched(old(dispatcher.Snapshot()), request, dispatcher.doubles);
            var encoded := Encoding(response);
            && dispatcher.Snapshot() == plant
            && answered == (|encoded| <= old(connection.writable))
            && connection.sent == old(connection.sent) + Take(encoded, old(connection.writable))
            && (answered ==> connection.writable == old(connection.writable) - |encoded|)
  {
    var response := dispatcher.Dispatch(request);
    var encoded := Encode(response);
    var sent := connection.Send(encoded);
    return sent.Ok?;
  }

  /**
   The loop for one client: dispatches exactly the frames the whole byte stream parses into,
   however it was cut, and answers each in order. The buffer stays bounded throughout.
   */
  method Serve(connection: TcpConnection, dispatcher: Server.CommandDispatcher)
    returns (ghost dispatched: seq<Frame>, ghost peak: nat)
    requires connection.Valid() && dispatcher.Valid()
    requires connection.sent == []
    modifies connection, dispatcher.robot.joints, dispatcher.controller, dispatcher.estop.brakes
    ensures Session(dispatcher.Snapshot(), dispatched, connection.sent)
            == SessionOf(old(dispatcher.Snapshot()), Frames(old(connection.Unread())), old(connection.writable), dispatcher.doubles)
    ensures peak <= BUFFER_BOUND
  {
    hide Decode, Dispatched, Encoding, SessionOf, Frames, Continued;
    ghost var target := SessionOf(dispatcher.Snapshot(), Frames(connection.Unread()), connection.writable, dispatcher.doubles);
    var received := [];
    dispatched, peak := [], 0;
    assert [] + connection.Unread() == connection.Unread();
    ContinuedNothing(target);
    while true
      invariant connection.Valid()
      invariant target == Continued(dispatched, connection.sent,
                  SessionOf(dispatcher.Snapshot(), Frames(received + connection.Unread()), connection.writable, dispatcher.doubles))
      invariant |received| <= peak <= BUFFER_BOUND
      decreases |received + connection.Unread()|
    {
      var frame: Option<Decoded>;
      frame, received := ReceiveOneFrame(connection, received);
      peak := if |received| > peak then |received| else peak;
      if frame.None? {
        SessionEnd(dispatcher.Snapshot(), received + connection.Unread(), connection.writable, dispatcher.doubles,
                   dispatched, connection.sent);
        return;
      }
      NextFrame(received, connection.Unread());
      received := received[frame.value.consumed..];
      SessionStep(dispatcher.Snapshot(), frame.value.frame, Frames(received + connection.Unread()), connection.writable,
                  dispatcher.doubles, dispatched, connection.sent);
      dispatched := dispatched + [frame.value.frame];
      var answered := Answer(connection, dispatcher, frame.value.frame);
      if !answered {
        return;
      }
    }
  }
}
