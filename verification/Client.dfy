/**
 The command-line client: what it asks, how it reads the answer, and that client and server agree.
 */
module Client {
  import opened Wrappers
  import opened Bytes
  import opened Controller
  import opened Plant
  import opened Serving
  import opened TcpConnection
  import F = FrameCodec
  import P = Payloads

  datatype CommandKind = Status | Enable | Disable | Home | MoveJoint | Stop | EmergencyStop

  datatype Command = Command(kind: CommandKind, jointIndex: Byte, targetDegrees: real)

  /** `status` is the first byte of the response; the server uses 0 for Ok and 1 for Error. */
  datatype Outcome = Outcome(status: Byte, statusPayload: Option<P.StatusPayload>)

  const ERROR_STATUS: Byte := 1

  function CommandTypeOf(kind: CommandKind): F.CommandType {
    match kind
    case Status => F.GetStatus
    case Enable => F.Enable
    case Disable => F.Disable
    case Home => F.Home
    case MoveJoint => F.MoveJoint
    case Stop => F.Stop
    case EmergencyStop => F.EmergencyStop
  }

  /** The type number the protocol gives to the command and to its response. */
  function Number(kind: CommandKind): nat {
    match kind
    case Status => 2
    case Enable => 3
    case Disable => 4
    case Home => 5
    case MoveJoint => 6
    case Stop => 8
    case EmergencyStop => 9
  }

  /** The conversions of the client's process: degrees to radians, and doubles to their patterns. */
  datatype Units = Units(radians: real -> real, doubles: Doubles)

  function MoveRequest(command: Command, u: Units): P.MoveJointPayload {
    P.MoveJointPayload(command.jointIndex, u.doubles.toBits(u.radians(command.targetDegrees)))
  }

  function Request(command: Command, u: Units): F.Frame {
    F.Frame(0, CommandTypeOf(command.kind), if command.kind.MoveJoint? then P.MoveEncoding(MoveRequest(command, u)) else [])
  }

  /** What the client makes of the bytes that arrive. */
  function Interpreted(command: Command, stream: seq<Byte>): Result<Outcome, P.CliError> {
    var decoded := F.Decode(stream);
    if decoded == Err(F.Incomplete) then Err(P.TransportFailure)
    else if decoded.Err? then Err(P.ProtocolFailure)
    else Outcomes(command, decoded.value.frame)
  }

  function Outcomes(command: Command, response: F.Frame): Result<Outcome, P.CliError> {
    if response.kind != CommandTypeOf(command.kind) then Err(P.UnexpectedResponseType)
    else if response.payload == [] then Err(P.ProtocolFailure)
    else if response.payload[0] == ERROR_STATUS then Err(P.ServerReportedError)
    else if command.kind.Status? then
      var status := P.StatusDecoding(response.payload[1..]);
      if status.Err? then Err(status.error) else Ok(Outcome(response.payload[0], Some(status.value)))
    else Ok(Outcome(response.payload[0], None))
  }

  /** Receiving has taken at least the first frame off the stream, and left the end of it. */
  predicate TakesResponse(before: seq<Byte>, after: seq<Byte>) {
    && |after| <= |before| && before[|before| - |after|..] == after
    && (F.Decode(before).Ok? ==> |after| <= |before| - F.Decode(before).value.consumed)
  }

  /** Where exactly one response was to come, nothing is left. */
  lemma NothingLeft(response: F.Frame, after: seq<Byte>)
    requires |response.payload| <= F.MAX_PAYLOAD && TakesResponse(F.Encoding(response), after)
    ensures after == []
  {
    F.DecodeLegal(response, []);
    assert F.Encoding(response) + [] == F.Encoding(response);
  }

  class Client {
    const connection: TcpConnection
    const units: Units

    constructor (connection: TcpConnection, units: Units)
      ensures this.connection == connection && this.units == units
    {
      this.connection := connection;
      this.units := units;
    }

    method BuildRequestFrame(command: Command) returns (request: F.Frame)
      ensures request == Request(command, units)
      ensures request.flags == 0 && F.Code(request.kind) == Number(command.kind)
      ensures request.payload == if !command.kind.MoveJoint? then []
                                 else [command.jointIndex] + BigEndian(units.doubles.toBits(units.radians(command.targetDegrees)), 8)
    {
      request := F.Frame(0, CommandTypeOf(command.kind), []);
      if command.kind.MoveJoint? {
        var targetRadians := units.radians(command.targetDegrees);
        var payload := P.EncodeMoveJointPayload(P.MoveJointPayload(command.jointIndex, units.doubles.toBits(targetRadians)));
        request := request.(payload := payload);
      }
    }

    /**
     Sends the request; then what arrives decides, not how it was cut into segments. Of bytes beyond
     the response, those received together with its end are lost.
     */
    method Execute(command: Command) returns (r: Result<Outcome, P.CliError>)
      requires connection.Valid()
      modifies connection
      ensures connection.Valid()
      ensures connection.sent == old(connection.sent) + Take(F.Encoding(Request(command, units)), old(connection.writable))
      ensures r == if |F.Encoding(Request(command, units))| > old(connection.writable) then Err(P.TransportFailure)
                   else Interpreted(command, old(connection.Unread()))
      ensures if |F.Encoding(Request(command, units))| > old(connection.writable)
              then connection.Unread() == old(connection.Unread())
              else TakesResponse(old(connection.Unread()), connection.Unread())
    {
      var request := BuildRequestFrame(command);
      var encoded := F.Encode(request);
      var sent := connection.Send(encoded);
      if sent.Err? {
        return Err(P.TransportFailure);
      }
      var response := AwaitResponse();
      if response.Err? {
        return Err(response.error);
      }
      if response.value.kind != request.kind {
        return Err(P.UnexpectedResponseType);
      }
      if response.value.payload == [] {
        return Err(P.ProtocolFailure);
      }
      var status := response.value.payload[0];
      if status == ERROR_STATUS {
        return Err(P.ServerReportedError);
      }
      if command.kind.Status? {
        var statusPayload := P.DecodeStatusPayload(response.value.payload[1..]);
        if statusPayload.Err? {
          return Err(statusPayload.error);
        }
        return Ok(Outcome(status, Some(statusPayload.value)));
      }
      return Ok(Outcome(status, None));
    }

    /** The receive loop of `execute`. */
    method AwaitResponse() returns (r: Result<F.Frame, P.CliError>)
      requires connection.Valid()
      modifies connection`incoming
      ensures connection.Valid()
      ensures var decoded := F.Decode(old(connection.Unread()));
              r == if decoded == Err(F.Incomplete) then Err(P.TransportFailure)
                   else if decoded.Err? then Err(P.ProtocolFailure)
                   else Ok(decoded.value.frame)
      ensures TakesResponse(old(connection.Unread()), connection.Unread())
    {
      ghost var stream := connection.Unread();
      var received: seq<Byte> := [];
      var decoded: Result<F.Decoded, F.ProtocolError> := Err(F.Incomplete);
      assert received + stream == stream;
      while true
        invariant connection.Valid()
        invariant received + connection.Unread() == stream
        decreases |connection.Unread()|
      {
        decoded := F.Decode(received);
        if decoded != Err(F.Incomplete) {
          F.VerdictStable(received, connection.Unread());
          break;
        }
        ghost var unread := connection.Unread();
        var chunk := connection.Receive(CHUNK);
        if chunk.Err? {
          assert received + unread == received;
          return Err(P.TransportFailure);
        }
        assert (received + chunk.value) + connection.Unread() == received + unread;
        received := received + chunk.value;
      }
      assert stream[|received|..] == connection.Unread();
      if decoded.Err? {
        return Err(P.ProtocolFailure);
      }
      F.EncodingDecoded(received);
      return Ok(decoded.value.frame);
    }
  }

  // Agreement ------------------------------------------------------------------------------------

  /** The most joints a status response can carry. */
  const MAX_JOINTS: nat := 65534

  lemma {:induction false} JointsSize(joints: seq<P.JointStatus>)
    ensures |P.JointsEncoding(joints)| == 16 * |joints|
  {
    if joints == [] {
    } else {
      JointsSize(joints[1..]);
    }
  }

  lemma StatusSize(p: Plant, d: Doubles)
    ensures |P.StatusEncoding(StatusOf(p, d))| == 14 + |Name(p.controller)| + 16 * |p.joints|
  {
    JointsSize(StatusOf(p, d).joints);
  }

  /** What the client should report: the live status bit by bit, and an error only for a refused move. */
  function Expected(command: Command, p: Plant, u: Units): Result<Outcome, P.CliError> {
    if command.kind.MoveJoint? && !MoveAccepted(p, MoveRequest(command, u), u.doubles) then Err(P.ServerReportedError)
    else Ok(Outcome(0, if command.kind.Status? then Some(StatusOf(p, u.doubles)) else None))
  }

  lemma MoveDecided(p: Plant, request: P.MoveJointPayload, d: Doubles)
    ensures MoveTarget(p, P.MoveEncoding(request), d).Ok? <==> MoveAccepted(p, request, d)
  {
    P.MoveRoundTrip(request, [], 0);
    assert P.MoveEncoding(request) + [] == P.MoveEncoding(request);
  }

  lemma ResponseExpected(command: Command, p: Plant, u: Units)
    requires |p.joints| <= MAX_JOINTS
    ensures var response := Dispatched(p, Request(command, u), u.doubles).1;
            |response.payload| <= F.MAX_PAYLOAD && Outcomes(command, response) == Expected(command, p, u)
  {
    match command.kind
    case Status =>
      StatusSize(p, u.doubles);
      NamesDistinct(p.controller, p.controller);
      StatusDecoded(p, u.doubles);
    case MoveJoint => MoveDecided(p, MoveRequest(command, u), u.doubles);
    case _ =>
  }

  /**
   Client and server agree on every command, in every state with at most 65534 joints, whatever
   bytes follow the response.
   */
  lemma Agreement(command: Command, p: Plant, u: Units, tail: seq<Byte>)
    requires |p.joints| <= MAX_JOINTS
    ensures Interpreted(command, F.Encoding(Dispatched(p, Request(command, u), u.doubles).1) + tail) == Expected(command, p, u)
  {
    var response := Dispatched(p, Request(command, u), u.doubles).1;
    ResponseExpected(command, p, u);
    F.DecodeLegal(response, tail);
  }

  /** `r` carries the live status of the plant: state name, and position and velocity of every joint bit by bit. */
  predicate ReportsStatus(r: Result<Outcome, P.CliError>, p: Plant, d: Doubles) {
    && r.Ok? && r.value.status == 0 && r.value.statusPayload.Some?
    && var s := r.value.statusPayload.value;
       && s.robotName == Text("RE-6AXIS") && s.controllerStateName == Text(Name(p.controller))
       && |s.joints| == |p.joints|
       && forall i :: 0 <= i < |s.joints| ==>
            s.joints[i].position == d.toBits(p.joints[i].position) && s.joints[i].velocity == d.toBits(p.joints[i].velocity)
  }

  /** The bound is exact: with more joints the status the client reads, if any, is not the live one. */
  lemma StatusAgreesIff(command: Command, p: Plant, u: Units)
    requires command.kind.Status?
    ensures var response := Dispatched(p, Request(command, u), u.doubles).1;
            ReportsStatus(Interpreted(command, F.Encoding(response)), p, u.doubles) <==> |p.joints| <= MAX_JOINTS
  {
    var response := Dispatched(p, Request(command, u), u.doubles).1;
    if |p.joints| <= MAX_JOINTS {
      Agreement(command, p, u, []);
      assert F.Encoding(response) + [] == F.Encoding(response);
    } else if |p.joints| == 0xFFFF {
      StatusSize(p, u.doubles);
      NamesDistinct(p.controller, p.controller);
      TooLarge(response);
    } else {
      TooManyJoints(command, F.Encoding(response), p, u.doubles);
    }
  }

  lemma TooLarge(response: F.Frame)
    requires F.MAX_PAYLOAD < |response.payload| < 0x1_0000_0000
    ensures F.Decode(F.Encoding(response)) == Err(F.PayloadTooLarge)
  {
    F.HeaderFields(response, response.payload);
  }

  lemma TooManyJoints(command: Command, stream: seq<Byte>, p: Plant, d: Doubles)
    requires command.kind.Status? && |p.joints| > 0xFFFF
    ensures !ReportsStatus(Interpreted(command, stream), p, d)
  {
    if Interpreted(command, stream).Ok? {
      P.DecodedFits(F.Decode(stream).value.frame.payload[1..]);
    }
  }

  /**
   One command over one connection, end to end: if the client's socket takes the whole response,
   the client reports what it should; if the response is cut short, it reports a transport failure.
   */
  lemma EndToEnd(command: Command, p: Plant, u: Units, writable: nat)
    requires |p.joints| <= MAX_JOINTS
    ensures var session := SessionOf(p, Frames(F.Encoding(Request(command, u))), writable, u.doubles);
            var (p', response) := Dispatched(p, Request(command, u), u.doubles);
            && session.dispatched == [Request(command, u)] && session.plant == p'
            && Interpreted(command, session.sent) ==
               if |F.Encoding(response)| <= writable then Expected(command, p, u) else Err(P.TransportFailure)
  {
    var request := Request(command, u);
    var (p', response) := Dispatched(p, request, u.doubles);
    FirstFrame(request, []);
    assert F.Encoding(request) + [] == F.Encoding(request);
    ResponseExpected(command, p, u);
    if |F.Encoding(response)| <= writable {
      Agreement(command, p, u, []);
      assert [request][1..] == [];
    } else {
      F.PrefixIncomplete(response, writable);
    }
  }
}
