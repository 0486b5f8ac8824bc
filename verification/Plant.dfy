/**
 The shared plant as a value: joints, controller state and brakes, with what each handler, the
 control step and the emergency stop make of it. The classes are proved against these functions.
 */
module Plant {
  import opened Wrappers
  import opened Bytes
  import opened Joint
  import opened Controller
  import F = FrameCodec
  import P = Payloads

  datatype BrakeState = Engaged | Released

  datatype Plant = Plant(joints: seq<JointValue>, controller: ControllerState, brakes: seq<BrakeState>)

  /** `std::bit_cast` between doubles and their 64-bit patterns, doubles being exact reals here. */
  datatype Doubles = Doubles(toReal: P.Bits -> real, toBits: real -> P.Bits)

  function AllEnabled(js: seq<JointValue>): (r: seq<JointValue>)
    ensures |r| == |js|
  {
    seq(|js|, i requires 0 <= i < |js| => js[i].(enabled := true))
  }

  function AllDisabled(js: seq<JointValue>): (r: seq<JointValue>)
    ensures |r| == |js|
  {
    seq(|js|, i requires 0 <= i < |js| => js[i].(enabled := false))
  }

  function AllHomed(js: seq<JointValue>): (r: seq<JointValue>)
    ensures |r| == |js|
  {
    seq(|js|, i requires 0 <= i < |js| => Homed(js[i]))
  }

  function AllUpdated(js: seq<JointValue>, ns: int): (r: seq<JointValue>)
    ensures |r| == |js|
  {
    seq(|js|, i requires 0 <= i < |js| => Updated(js[i], ns))
  }

  function AllEngaged(n: nat): (r: seq<BrakeState>)
    ensures |r| == n
  {
    seq(n, i => Engaged)
  }

  /** The plant when the boot sequence has completed: joints at 0 and disabled, brakes engaged. */
  function Booted(limits: seq<JointLimits>): (p: Plant)
    ensures |p.joints| == |limits|
  {
    Plant(seq(|limits|, i requires 0 <= i < |limits| => Fresh(limits[i])), Idle, AllEngaged(|limits|))
  }

  // Emergency stop and control step ------------------------------------------------------------

  /** `EmergencyStopController::trigger`: brakes first, then the transition, which may be refused. */
  function Triggered(p: Plant): Plant {
    p.(brakes := AllEngaged(|p.brakes|), controller := Fire(p.controller, EStopTriggered))
  }

  /** `ControlLoop::step` but for the cycle counter. */
  function Controlled(p: Plant, period: int): Plant {
    if p.controller == Moving then p.(joints := AllUpdated(p.joints, period)) else p
  }

  // Requests -----------------------------------------------------------------------------------

  const ROBOT_NAME := "RE-6AXIS"

  function OkResponse(kind: F.CommandType, extra: seq<Byte>): F.Frame {
    F.Frame(0, kind, [0] + extra)
  }

  function ErrorResponse(kind: F.CommandType): F.Frame {
    F.Frame(0, kind, [1])
  }

  function JointStatusOf(position: real, velocity: real, d: Doubles): P.JointStatus {
    P.JointStatus(d.toBits(position), d.toBits(velocity))
  }

  function StatusOf(p: Plant, d: Doubles): P.StatusPayload {
    P.StatusPayload(Text(ROBOT_NAME), Text(Name(p.controller)),
                    seq(|p.joints|, i requires 0 <= i < |p.joints| =>
                          JointStatusOf(p.joints[i].position, p.joints[i].velocity, d)))
  }

  /** What a client decodes from a status response, for as many joints as the count field can hold. */
  lemma StatusDecoded(p: Plant, d: Doubles)
    requires |p.joints| < 0x1_0000
    ensures P.StatusDecoding(OkResponse(F.GetStatus, P.StatusEncoding(StatusOf(p, d))).payload[1..]) == Ok(StatusOf(p, d))
  {
    var status := StatusOf(p, d);
    NamesDistinct(p.controller, p.controller);
    P.StatusRoundTrip(status, []);
    assert ([0] + P.StatusEncoding(status))[1..] == P.StatusEncoding(status) + [];
  }

  function AfterEnable(p: Plant): Plant {
    p.(joints := AllEnabled(p.joints), controller := Fire(Fire(p.controller, ServoEnable), ControllerReady))
  }

  function AfterDisable(p: Plant): Plant {
    p.(joints := AllDisabled(p.joints), controller := Fire(p.controller, ServoDisable))
  }

  function AfterHome(p: Plant): Plant {
    p.(joints := AllHomed(p.joints))
  }

  function AfterStop(p: Plant): Plant {
    p.(controller := Fire(Fire(p.controller, CommandStop), StopComplete))
  }

  /** The new target of a move request, if the request is acceptable. */
  function MoveTarget(p: Plant, payload: seq<Byte>, d: Doubles): (r: Result<(nat, JointValue), ()>)
    ensures r.Ok? ==> r.value.0 < |p.joints|
  {
    var request := P.MoveDecoding(payload);
    if request.Err? then Err(())
    else if request.value.jointIndex >= |p.joints| then Err(())
    else
      var targeted := SetTarget(p.joints[request.value.jointIndex], d.toReal(request.value.target));
      if targeted.1.Err? then Err(()) else Ok((request.value.jointIndex as nat, targeted.0))
  }

  /** The joint exists and is enabled, and the target is within its limits. */
  predicate MoveAccepted(p: Plant, request: P.MoveJointPayload, d: Doubles) {
    request.jointIndex < |p.joints| && p.joints[request.jointIndex].enabled
    && p.joints[request.jointIndex].limits.Contains(d.toReal(request.target))
  }

  function AfterMove(p: Plant, payload: seq<Byte>, d: Doubles): (Plant, F.Frame) {
    var move := MoveTarget(p, payload, d);
    if move.Err? then (p, ErrorResponse(F.MoveJoint))
    else
      (p.(joints := p.joints[move.value.0 := move.value.1],
          controller := if p.controller == Ready then Fire(p.controller, CommandMove) else p.controller),
       OkResponse(F.MoveJoint, []))
  }

  /** `CommandDispatcher::dispatch`: the plant afterwards and the response. */
  function Dispatched(p: Plant, request: F.Frame, d: Doubles): (Plant, F.Frame) {
    match request.kind
    case GetStatus => (p, OkResponse(F.GetStatus, P.StatusEncoding(StatusOf(p, d))))
    case Enable => (AfterEnable(p), OkResponse(F.Enable, []))
    case Disable => (AfterDisable(p), OkResponse(F.Disable, []))
    case Home => (AfterHome(p), OkResponse(F.Home, []))
    case MoveJoint => AfterMove(p, request.payload, d)
    case Stop => (AfterStop(p), OkResponse(F.Stop, []))
    case EmergencyStop => (Triggered(p), OkResponse(F.EmergencyStop, []))
    case _ => (p, ErrorResponse(request.kind))
  }

  function DispatchedAll(p: Plant, requests: seq<F.Frame>, d: Doubles): Plant
    decreases |requests|
  {
    if requests == [] then p else DispatchedAll(Dispatched(p, requests[0], d).0, requests[1..], d)
  }

  /** The responses to requests dispatched one after the other. */
  function Responses(p: Plant, requests: seq<F.Frame>, d: Doubles): seq<F.Frame>
    decreases |requests|
  {
    if requests == [] then []
    else
      var (p', response) := Dispatched(p, requests[0], d);
      [response] + Responses(p', requests[1..], d)
  }
}
