/**
 The objects the server wires together: robot, brakes, emergency stop, control loop and command
 dispatcher. None of them locks; who may run when is the subject of module Concurrency.
 */
module Server {
  import opened Wrappers
  import opened Bytes
  import opened Joint
  import opened Controller
  import opened Plant
  import F = FrameCodec
  import P = Payloads

  datatype RobotConfig = RobotConfig(name: string, joints: seq<JointLimits>) {
    predicate Valid() {
      joints != [] && forall i :: 0 <= i < |joints| ==> joints[i].Valid()
    }
  }

  class Robot {
    const name: string
    const joints: seq<Joint>

    ghost predicate Valid() {
      forall i, j :: 0 <= i < j < |joints| ==> joints[i] != joints[j]
    }

    ghost function Values(): (r: seq<JointValue>)
      reads joints
      ensures |r| == |joints|
    {
      seq(|joints|, i requires 0 <= i < |joints| reads joints => joints[i].Value())
    }

    constructor (name: string, joints: seq<Joint>)
      requires forall i, j :: 0 <= i < j < |joints| ==> joints[i] != joints[j]
      ensures Valid() && this.name == name && this.joints == joints
    {
      this.name := name;
      this.joints := joints;
    }

    /** `Robot::create`: one fresh joint for each limits of a valid configuration. */
    static method Create(config: RobotConfig) returns (r: Result<Robot, JointError>)
      ensures r.Ok? <==> config.Valid()
      ensures r.Err? ==> r.error == InvalidConfiguration
      ensures r.Ok? ==> fresh(r.value) && fresh(r.value.joints) && r.value.Valid() && r.value.name == config.name
                        && r.value.Values() == seq(|config.joints|, i requires 0 <= i < |config.joints| => Fresh(config.joints[i]))
    {
      if config.joints == [] {
        return Err(InvalidConfiguration);
      }
      for i := 0 to |config.joints|
        invariant forall k :: 0 <= k < i ==> config.joints[k].Valid()
      {
        if !config.joints[i].Valid() {
          return Err(InvalidConfiguration);
        }
      }
      var joints: seq<Joint> := [];
      for i := 0 to |config.joints|
        invariant |joints| == i && fresh(joints)
        invariant forall k, l :: 0 <= k < l < i ==> joints[k] != joints[l]
        invariant forall k :: 0 <= k < i ==> joints[k].Value() == Fresh(config.joints[k])
      {
        var joint := new Joint(config.joints[i]);
        joints := joints + [joint];
      }
      var robot := new Robot(config.name, joints);
      return Ok(robot);
    }

    method Update(ns: int)
      requires Valid()
      modifies joints
      ensures Values() == AllUpdated(old(Values()), ns)
    {
      for i := 0 to |joints|
        invariant forall k :: 0 <= k < i ==> joints[k].Value() == Updated(old(joints[k].Value()), ns)
        invariant forall k :: i <= k < |joints| ==> joints[k].Value() == old(joints[k].Value())
      {
        joints[i].Update(ns);
      }
    }
  }

  class VirtualBrake {
    var state: BrakeState

    constructor ()
      ensures state == Engaged
    {
      state := Engaged;
    }

    method Engage()
      modifies this
      ensures state == Engaged
    {
      state := Engaged;
    }
  }

  class EmergencyStopController {
    const controller: ControllerStateMachine
    const brakes: seq<VirtualBrake>

    ghost function BrakeStates(): (r: seq<BrakeState>)
      reads brakes
      ensures |r| == |brakes|
    {
      seq(|brakes|, i requires 0 <= i < |brakes| reads brakes => brakes[i].state)
    }

    constructor (controller: ControllerStateMachine, brakes: seq<VirtualBrake>)
      ensures this.controller == controller && this.brakes == brakes
    {
      this.controller := controller;
      this.brakes := brakes;
    }

    /** Engages every brake whether or not the controller then accepts the transition. */
    method Trigger()
      modifies controller, brakes
      ensures BrakeStates() == AllEngaged(|brakes|)
      ensures controller.state == Fire(old(controller.state), EStopTriggered)
    {
      for i := 0 to |brakes|
        invariant controller.state == old(controller.state)
        invariant forall k :: 0 <= k < i ==> brakes[k].state == Engaged
      {
        brakes[i].Engage();
      }
      var _ := controller.HandleEvent(EStopTriggered);
    }

    /** Leaves the brakes as they are. */
    method Reset() returns (r: Result<(), ControllerError>)
      modifies controller
      ensures controller.state == Fire(old(controller.state), EStopReset)
      ensures r.Ok? <==> old(controller.state) == EmergencyStop
      ensures BrakeStates() == old(BrakeStates())
    {
      r := controller.HandleEvent(EStopReset);
    }
  }

  datatype ControlLoopFrequency = Hz500 | Hz1000 | Hz2000 | Hz5000 | Hz10000

  function Hertz(f: ControlLoopFrequency): nat {
    match f
    case Hz500 => 500
    case Hz1000 => 1000
    case Hz2000 => 2000
    case Hz5000 => 5000
    case Hz10000 => 10000
  }

  function PeriodFor(f: ControlLoopFrequency): (ns: int)
    ensures ns * Hertz(f) == 1_000_000_000
    ensures 0.0 < POSITION_GAIN * Seconds(ns) <= 1.0
  {
    1_000_000_000 / Hertz(f)
  }

  /** The periods in nanoseconds. */
  lemma Periods()
    ensures PeriodFor(Hz500) == 2_000_000 && PeriodFor(Hz1000) == 1_000_000 && PeriodFor(Hz2000) == 500_000
    ensures PeriodFor(Hz5000) == 200_000 && PeriodFor(Hz10000) == 100_000
  {}

  const COUNTER_RANGE: nat := 0x1_0000_0000_0000_0000

  class ControlLoop {
    const robot: Robot
    const controller: ControllerStateMachine
    const period: int
    var cyclesExecuted: nat

    constructor (robot: Robot, controller: ControllerStateMachine, frequency: ControlLoopFrequency)
      ensures this.robot == robot && this.controller == controller && period == PeriodFor(frequency) && cyclesExecuted == 0
    {
      this.robot := robot;
      this.controller := controller;
      period := PeriodFor(frequency);
      cyclesExecuted := 0;
    }

    /** Moves the joints in state Moving only; counts the cycle in any state. */
    method Step()
      requires robot.Valid()
      modifies this, robot.joints
      ensures robot.Values() == if controller.state == Moving then AllUpdated(old(robot.Values()), period) else old(robot.Values())
      ensures cyclesExecuted == (old(cyclesExecuted) + 1) % COUNTER_RANGE
    {
      if controller.state == Moving {
        robot.Update(period);
      }
      cyclesExecuted := (cyclesExecuted + 1) % COUNTER_RANGE;
    }
  }

  class CommandDispatcher {
    const robot: Robot
    const controller: ControllerStateMachine
    const estop: EmergencyStopController
    const doubles: Doubles

    ghost predicate Valid() {
      robot.Valid() && estop.controller == controller
    }

    ghost function Snapshot(): Plant
      reads robot.joints, controller, estop.brakes
    {
      Plant(robot.Values(), controller.state, estop.BrakeStates())
    }

    constructor (robot: Robot, controller: ControllerStateMachine, estop: EmergencyStopController, doubles: Doubles)
      requires robot.Valid() && estop.controller == controller
      ensures Valid() && this.robot == robot && this.controller == controller && this.estop == estop && this.doubles == doubles
    {
      this.robot := robot;
      this.controller := controller;
      this.estop := estop;
      this.doubles := doubles;
    }

    method Dispatch(request: F.Frame) returns (response: F.Frame)
      requires Valid()
      modifies robot.joints, controller, estop.brakes
      ensures (Snapshot(), response) == Dispatched(old(Snapshot()), request, doubles)
    {
      match request.kind
      case GetStatus => response := HandleGetStatus();
      case Enable => response := HandleEnable();
      case Disable => response := HandleDisable();
      case Home => response := HandleHome();
      case MoveJoint => response := HandleMoveJoint(request);
      case Stop => response := HandleStop();
      case EmergencyStop => response := HandleEmergencyStop();
      case _ => response := ErrorResponse(request.kind);
    }

    method HandleGetStatus() returns (response: F.Frame)
      requires Valid()
      ensures response == OkResponse(F.GetStatus, P.StatusEncoding(StatusOf(Snapshot(), doubles)))
    {
      var joints: seq<P.JointStatus> := [];
      for i := 0 to |robot.joints|
        invariant |joints| == i
        invariant forall k :: 0 <= k < i ==> joints[k] == JointStatusOf(robot.joints[k].position, robot.joints[k].velocity, doubles)
      {
        joints := joints + [JointStatusOf(robot.joints[i].position, robot.joints[i].velocity, doubles)];
      }
      var status := P.StatusPayload(Text(ROBOT_NAME), Text(Name(controller.state)), joints);
      assert status == StatusOf(Snapshot(), doubles);
      var extra := P.EncodeStatusPayload(status);
      response := OkResponse(F.GetStatus, extra);
    }

    method HandleEnable() returns (response: F.Frame)
      requires Valid()
      modifies robot.joints, controller
      ensures Snapshot() == AfterEnable(old(Snapshot())) && response == OkResponse(F.Enable, [])
    {
      for i := 0 to |robot.joints|
        modifies robot.joints
        invariant forall k :: 0 <= k < i ==> robot.joints[k].Value() == old(robot.joints[k].Value()).(enabled := true)
        invariant forall k :: i <= k < |robot.joints| ==> robot.joints[k].Value() == old(robot.joints[k].Value())
      {
        robot.joints[i].Enable();
      }
      var _ := controller.HandleEvent(ServoEnable);
      var _ := controller.HandleEvent(ControllerReady);
      response := OkResponse(F.Enable, []);
    }

    method HandleDisable() returns (response: F.Frame)
      requires Valid()
      modifies robot.joints, controller
      ensures Snapshot() == AfterDisable(old(Snapshot())) && response == OkResponse(F.Disable, [])
    {
      for i := 0 to |robot.joints|
        modifies robot.joints
        invariant forall k :: 0 <= k < i ==> robot.joints[k].Value() == old(robot.joints[k].Value()).(enabled := false)
        invariant forall k :: i <= k < |robot.joints| ==> robot.joints[k].Value() == old(robot.joints[k].Value())
      {
        robot.joints[i].Disable();
      }
      var _ := controller.HandleEvent(ServoDisable);
      response := OkResponse(F.Disable, []);
    }

    method HandleHome() returns (response: F.Frame)
      requires Valid()
      modifies robot.joints
      ensures Snapshot() == AfterHome(old(Snapshot())) && response == OkResponse(F.Home, [])
    {
      for i := 0 to |robot.joints|
        invariant forall k :: 0 <= k < i ==> robot.joints[k].Value() == Homed(old(robot.joints[k].Value()))
        invariant forall k :: i <= k < |robot.joints| ==> robot.joints[k].Value() == old(robot.joints[k].Value())
      {
        robot.joints[i].Home();
      }
      response := OkResponse(F.Home, []);
    }

    method HandleMoveJoint(request: F.Frame) returns (response: F.Frame)
      requires Valid()
      modifies robot.joints, controller
      ensures (Snapshot(), response) == AfterMove(old(Snapshot()), request.payload, doubles)
    {
      var payload := P.DecodeMoveJointPayload(request.payload);
      if payload.Err? {
        return ErrorResponse(F.MoveJoint);
      }
      if payload.value.jointIndex >= |robot.joints| {
        return ErrorResponse(F.MoveJoint);
      }
      var accepted := robot.joints[payload.value.jointIndex].SetTargetPosition(doubles.toReal(payload.value.target));
      if accepted.Err? {
        assert Snapshot() == old(Snapshot());
        return ErrorResponse(F.MoveJoint);
      }
      if controller.state == Ready {
        var _ := controller.HandleEvent(CommandMove);
      }
      response := OkResponse(F.MoveJoint, []);
      ghost var move := MoveTarget(old(Snapshot()), request.payload, doubles);
      assert Snapshot().joints == old(Snapshot()).joints[move.value.0 := move.value.1];
    }

    method HandleStop() returns (response: F.Frame)
      requires Valid()
      modifies controller
      ensures Snapshot() == AfterStop(old(Snapshot())) && response == OkResponse(F.Stop, [])
    {
      var _ := controller.HandleEvent(CommandStop);
      var _ := controller.HandleEvent(StopComplete);
      response := OkResponse(F.Stop, []);
    }

    method HandleEmergencyStop() returns (response: F.Frame)
      requires Valid()
      modifies controller, estop.brakes
      ensures Snapshot() == Triggered(old(Snapshot())) && response == OkResponse(F.EmergencyStop, [])
    {
      estop.Trigger();
      response := OkResponse(F.EmergencyStop, []);
    }
  }

  /** Robot, controller taken through its boot sequence, engaged brakes, dispatcher and control loop. */
  method Boot(config: RobotConfig, frequency: ControlLoopFrequency, doubles: Doubles)
    returns (r: Result<(CommandDispatcher, ControlLoop), JointError>)
    ensures r.Ok? <==> config.Valid()
    ensures r.Ok? ==>
              var (dispatcher, loop) := r.value;
              && dispatcher.Valid() && dispatcher.Snapshot() == Booted(config.joints) && dispatcher.doubles == doubles
              && loop.robot == dispatcher.robot && loop.controller == dispatcher.controller
              && loop.period == PeriodFor(frequency) && loop.cyclesExecuted == 0
  {
    var created := Robot.Create(config);
    if created.Err? {
      return Err(created.error);
    }
    var controller := new ControllerStateMachine();
    var _ := controller.HandleEvent(PowerOn);
    var _ := controller.HandleEvent(BootComplete);
    var _ := controller.HandleEvent(InitComplete);
    var brakes: seq<VirtualBrake> := [];
    for i := 0 to |config.joints|
      invariant |brakes| == i && fresh(brakes)
      invariant forall k :: 0 <= k < i ==> brakes[k].state == Engaged
      invariant fresh(created.value.joints) && created.value.Valid()
      invariant created.value.Values() == Booted(config.joints).joints
      invariant controller.state == Idle
    {
      var brake := new VirtualBrake();
      brakes := brakes + [brake];
    }
    var estop := new EmergencyStopController(controller, brakes);
    var dispatcher := new CommandDispatcher(created.value, controller, estop, doubles);
    var loop := new ControlLoop(created.value, controller, frequency);
    assert dispatcher.Snapshot() == Booted(config.joints);
    return Ok((dispatcher, loop));
  }
}
