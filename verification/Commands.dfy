/**
 What each command of the client does to the robot, from the command line to the plant: stated for
 the command, not for the request that carries it.
 */
module Commands {
  import opened Wrappers
  import opened Bytes
  import opened Controller
  import opened Plant
  import opened Serving
  import opened Client
  import opened Safety
  import Conversation
  import F = FrameCodec
  import P = Payloads

  /** The target of a move in radians, as it arrives at the joint. */
  function TargetOf(command: Command, u: Units): real {
    u.doubles.toReal(u.doubles.toBits(u.radians(command.targetDegrees)))
  }

  predicate MovePossible(command: Command, p: Plant, u: Units) {
    && command.jointIndex < |p.joints|
    && var joint := p.joints[command.jointIndex];
       joint.enabled && joint.limits.minPosition <= TargetOf(command, u) <= joint.limits.maxPosition
  }

  /** Where the command leads from a settled state, and all it touches. */
  predicate CarriedOut(command: Command, p: Plant, p': Plant, u: Units) {
    match command.kind
    case Status => p' == p
    case Enable =>
      && p'.controller == (if p.controller.Idle? || p.controller.ServoOff? then Ready else p.controller)
      && SameBut(p.joints, p'.joints, true) && p'.brakes == p.brakes
    case Disable =>
      && p'.controller == (if p.controller.Ready? then ServoOff else p.controller)
      && SameBut(p.joints, p'.joints, false) && p'.brakes == p.brakes
    case Home => p'.controller == p.controller && AtHome(p.joints, p'.joints) && p'.brakes == p.brakes
    case MoveJoint =>
      if !MovePossible(command, p, u) then p' == p
      else
        && p'.controller == (if p.controller.Ready? then Moving else p.controller)
        && Retargeted(p.joints, p'.joints, command.jointIndex, TargetOf(command, u)) && p'.brakes == p.brakes
    case Stop => p' == p.(controller := if p.controller.Moving? then Ready else p.controller)
    case EmergencyStop =>
      && p'.controller == (if p.controller.Ready? || p.controller.Moving? then ControllerState.EmergencyStop else p.controller)
      && p'.joints == p.joints && p'.brakes == AllEngaged(|p.brakes|)
  }

  /** What the client reports of it. */
  predicate Reported(command: Command, p: Plant, r: Result<Outcome, P.CliError>, u: Units) {
    match command.kind
    case Status => ReportsStatus(r, p, u.doubles)
    case MoveJoint => r == if MovePossible(command, p, u) then Ok(Outcome(0, None)) else Err(P.ServerReportedError)
    case _ => r == Ok(Outcome(0, None))
  }

  /**
   What the bytes that arrive tell, whatever they are: each outcome but those of the status payload
   has exactly one cause, and a frame of another type or without a status is no answer.
   */
  lemma OutcomesTold(command: Command, stream: seq<Byte>)
    ensures var r, decoded := Interpreted(command, stream), F.Decode(stream);
            && (r == Err(P.TransportFailure) <==> decoded == Err(F.Incomplete))
            && (r == Err(P.UnexpectedResponseType) <==> decoded.Ok? && stream[7] as nat != Number(command.kind))
            && (decoded.Ok? && stream[7] as nat == Number(command.kind) ==>
                  var payload := decoded.value.frame.payload;
                  && (r == Err(P.ProtocolFailure) <==> payload == [])
                  && (r == Err(P.ServerReportedError) <==> payload != [] && payload[0] == 1)
                  && (r.Ok? ==> payload != [] && r.value.status == payload[0] != 1)
                  && (r.Ok? && !command.kind.Status? ==> r == Ok(Outcome(payload[0], None)))
                  && (r.Ok? && command.kind.Status? ==>
                        r.value.statusPayload.Some? && P.StatusDecoding(payload[1..]) == Ok(r.value.statusPayload.value)))
            && (decoded.Err? && decoded != Err(F.Incomplete) ==> r == Err(P.ProtocolFailure))
  {
    var decoded := F.Decode(stream);
    if decoded.Ok? {
      F.EncodingDecoded(stream);
      var frame := decoded.value.frame;
      F.OnTheWire(frame);
      assert stream[7] == F.Encoding(frame)[7];
      hide F.Encoding, F.Decode;
      if command.kind.Status? && frame.payload != [] {
        StatusErrors(frame.payload[1..]);
      }
    }
  }

  lemma StatusErrors(b: seq<Byte>)
    ensures P.StatusDecoding(b).Err? ==> P.StatusDecoding(b).error == P.TruncatedPayload
  {
    var name := P.NameDecoding(b);
    if name.Ok? {
      var state := P.NameDecoding(name.value.rest);
      if state.Ok? {
        var count := P.U16(state.value.rest);
        if count.Ok? {
          JointErrors(count.value.value, count.value.rest);
        }
      }
    }
  }

  lemma {:induction false} JointErrors(count: nat, b: seq<Byte>)
    ensures P.JointsDecoding(count, b).Err? ==> P.JointsDecoding(count, b).error == P.TruncatedPayload
  {
    if count > 0 && |b| >= 16 {
      JointErrors(count - 1, b[16..]);
    }
  }

  lemma MoveArrives(command: Command, u: Units)
    ensures P.MoveDecoding(P.MoveEncoding(MoveRequest(command, u))) == Ok(MoveRequest(command, u))
  {
    P.MoveRoundTrip(MoveRequest(command, u), [], 0);
    assert P.MoveEncoding(MoveRequest(command, u)) + [] == P.MoveEncoding(MoveRequest(command, u));
  }

  lemma RequestCarriedOut(command: Command, p: Plant, u: Units)
    requires Settled(p.controller)
    ensures CarriedOut(command, p, Dispatched(p, Request(command, u), u.doubles).0, u)
  {
    DispatchFollowsPolicy(p, Request(command, u), u.doubles);
    if command.kind.MoveJoint? {
      MoveArrives(command, u);
    }
  }

  lemma ExpectedReported(command: Command, p: Plant, u: Units)
    ensures Reported(command, p, Expected(command, p, u), u)
  {}

  /**
   The bytes `Execute` sends for a command, served by a server in a settled state: the command is
   carried out, and `Execute` reports it, or a transport failure if the socket it is sent back by is full.
   */
  lemma CommandCarriedOut(command: Command, p: Plant, u: Units, writable: nat)
    requires Settled(p.controller) && |p.joints| <= MAX_JOINTS
    ensures var session := SessionOf(p, Frames(F.Encoding(Request(command, u))), writable, u.doubles);
            && CarriedOut(command, p, session.plant, u)
            && var r := Interpreted(command, session.sent);
               Reported(command, p, r, u) || (r == Err(P.TransportFailure) && |session.sent| == writable)
  {
    hide Dispatched, Request, Interpreted, F.Encoding, CarriedOut, Reported, Expected;
    RequestCarriedOut(command, p, u);
    ExpectedReported(command, p, u);
    EndToEnd(command, p, u, writable);
    var response := Dispatched(p, Request(command, u), u.doubles).1;
    if |F.Encoding(response)| > writable {
      SentUpTo(p, Request(command, u), writable, u.doubles);
    }
  }

  lemma SentUpTo(p: Plant, request: F.Frame, writable: nat, d: Doubles)
    requires |request.payload| <= F.MAX_PAYLOAD && |F.Encoding(Dispatched(p, request, d).1)| > writable
    ensures |SessionOf(p, Frames(F.Encoding(request)), writable, d).sent| == writable
  {
    hide Dispatched, F.Encoding;
    FirstFrame(request, []);
    assert F.Encoding(request) + [] == F.Encoding(request);
  }

  /**
   In every run of a conversation, whatever other threads do between requests: every request
   served in a settled state carries out the command the client is executing, and every outcome
   the client has is the report of its command.
   */
  lemma EveryCommandCarriedOut(plant: Plant, moves: seq<Conversation.Move>, commands: seq<Command>, u: Units)
    requires |plant.joints| <= MAX_JOINTS && Conversation.Run(Conversation.Start(plant), moves, commands, u).Some?
    ensures var w := Conversation.Run(Conversation.Start(plant), moves, commands, u).value;
            && (forall i :: 0 <= i < |w.outcomes| ==>
                  i < |commands| && i < |w.answered| && Reported(commands[i], w.answered[i], w.outcomes[i], u))
            && var next := Conversation.Step(w, Conversation.Answers, commands, u);
               next.Some? && Settled(w.plant.controller) ==>
                 && |w.outcomes| < |commands|
                 && CarriedOut(commands[|w.outcomes|], w.plant, next.value.plant, u)
                 && next.value.answered == w.answered + [w.plant] && |w.answered| == |w.outcomes|
  {
    hide Dispatched, Request, F.Encoding, CarriedOut, Reported, Expected, F.Decode;
    var w := Conversation.Run(Conversation.Start(plant), moves, commands, u).value;
    Conversation.RunInStep(Conversation.Start(plant), moves, commands, u);
    forall i | 0 <= i < |w.outcomes| ensures Reported(commands[i], w.answered[i], w.outcomes[i], u) {
      ExpectedReported(commands[i], w.answered[i], u);
    }
    if Conversation.Step(w, Conversation.Answers, commands, u).Some? && Settled(w.plant.controller) {
      AnswerCarriesOut(w, commands, u);
    }
  }

  lemma AnswerCarriesOut(w: Conversation.World, commands: seq<Command>, u: Units)
    requires Conversation.InStep(w, commands, u) && Conversation.Step(w, Conversation.Answers, commands, u).Some?
    requires Settled(w.plant.controller)
    ensures |w.outcomes| < |commands| && |w.answered| == |w.outcomes|
    ensures CarriedOut(commands[|w.outcomes|], w.plant, Conversation.Step(w, Conversation.Answers, commands, u).value.plant, u)
    ensures Conversation.Step(w, Conversation.Answers, commands, u).value.answered == w.answered + [w.plant]
  {
    hide Dispatched, Expected, F.Encoding, Request, CarriedOut;
    assert F.Decode([]) == Err(F.Incomplete);
    var command := commands[|w.outcomes|];
    Conversation.RequestLegal(command, u);
    Conversation.WholeOrIncomplete(Request(command, u), w.buffer, w.toServer);
    RequestCarriedOut(command, w.plant, u);
  }
}
