/**
 The emergency stop over whole runs: when it latches, what it freezes, and when it does not
 take hold.
 */
module EmergencyStopLatch {
  import opened Wrappers
  import opened Bytes
  import opened Joint
  import opened Controller
  import opened Plant
  import opened Concurrency
  import opened Safety
  import F = FrameCodec
  import P = Payloads

  // The latch --------------------------------------------------------------------------------

  /** No event the server ever fires leaves EmergencyStop: it never fires EStopReset. */
  lemma {:induction false} ControllerLatched(s: State, actions: seq<Action>, c: Config)
    requires s.shared.plant.controller == EmergencyStop && Run(s, actions, c).Some?
    ensures Run(s, actions, c).value.shared.plant.controller == EmergencyStop
    decreases |actions|
  {
    if actions == [] {
    } else {
      ControllerLatched(Step(s, actions[0], c).value, actions[1..], c);
    }
  }

  /** `after` is stopped, and moved no joint since `before` but by homing it. */
  predicate Frozen(before: Plant, after: Plant, homed: bool) {
    && after.controller == EmergencyStop
    && after.brakes == AllEngaged(|before.brakes|)
    && |after.joints| == |before.joints|
    && forall i :: 0 <= i < |before.joints| ==>
         if homed then after.joints[i].position == 0.0 && after.joints[i].velocity == 0.0
         else SameMotion(before.joints[i], after.joints[i])
  }

  predicate HomesNow(s: AtomicState, a: AtomicAction) {
    a == Performs(Connection) && s.threads.connection.Wanting? && s.threads.connection.task.RequestTask? && s.threads.connection.task.request.kind.Home?
  }

  /** A Home request is carried out in the course of the run. */
  predicate Homes(s: AtomicState, actions: seq<AtomicAction>, c: Config)
    decreases |actions|
  {
    actions != [] && AtomicStep(s, actions[0], c).Some?
    && (HomesNow(s, actions[0]) || Homes(AtomicStep(s, actions[0], c).value, actions[1..], c))
  }

  lemma DispatchFrozen(p0: Plant, p: Plant, request: F.Frame, d: Doubles, homed: bool)
    requires Frozen(p0, p, homed)
    ensures Frozen(p0, Dispatched(p, request, d).0, homed || request.kind.Home?)
  {}

  lemma StepFrozen(p0: Plant, s: AtomicState, a: AtomicAction, c: Config, homed: bool)
    requires Frozen(p0, s.shared.plant, homed) && TasksAssigned(s) && AtomicStep(s, a, c).Some?
    ensures var s' := AtomicStep(s, a, c).value;
            TasksAssigned(s') && Frozen(p0, s'.shared.plant, homed || HomesNow(s, a))
  {
    StepAssigned(s, a, c);
    if a.Performs? {
      assert Assigned(a.t, AtomicPhaseOf(s, a.t).task);
      if a.t.Connection? {
        DispatchFrozen(p0, s.shared.plant, s.threads.connection.task.request, c.doubles, homed);
      }
    }
  }

  lemma {:induction false} RunFrozen(p0: Plant, s: AtomicState, actions: seq<AtomicAction>, c: Config, homed: bool)
    requires Frozen(p0, s.shared.plant, homed) && TasksAssigned(s) && AtomicRun(s, actions, c).Some?
    ensures var s' := AtomicRun(s, actions, c).value;
            TasksAssigned(s') && Frozen(p0, s'.shared.plant, homed || Homes(s, actions, c))
    decreases |actions|
  {
    if actions == [] {
    } else {
      StepFrozen(p0, s, actions[0], c, homed);
      RunFrozen(p0, AtomicStep(s, actions[0], c).value, actions[1..], c, homed || HomesNow(s, actions[0]));
    }
  }

  /**
   Once a reachable state is in EmergencyStop, it stays there for ever, with every brake engaged
   and every joint where it was, still reporting the velocity it had: until a Home is carried
   out, after which positions and velocities are 0 for ever.
   */
  lemma EmergencyStopLatches(limits: seq<JointLimits>, s: State, actions: seq<Action>, c: Config)
    requires Reachable(limits, s, c) && !InProgress(s) && s.shared.plant.controller == EmergencyStop
    requires Run(s, actions, c).Some?
    ensures var s' := Run(s, actions, c).value;
            && s'.shared.plant.controller == EmergencyStop
            && Frozen(s.shared.plant, Abstract(s').shared.plant, Homes(Abstract(s), AbstractRun(s, actions, c), c))
            && (!InProgress(s') ==> Abstract(s').shared == s'.shared)
  {
    ReachableExcluded(limits, s, c);
    ReachableBelongs(limits, s, c);
    ReachableConsistent(limits, s, c);
    ControllerLatched(s, actions, c);
    RunRefines(s, actions, c);
    RunFrozen(s.shared.plant, Abstract(s), AbstractRun(s, actions, c), c, false);
  }

  /** The status a client decodes when the plant is latched: the frozen joints, under the name of the state. */
  function LatchedStatus(before: Plant, homed: bool, d: Doubles): P.StatusPayload {
    P.StatusPayload(Text(ROBOT_NAME), Text("EmergencyStop"),
                    seq(|before.joints|, i requires 0 <= i < |before.joints| =>
                          if homed then P.JointStatus(d.toBits(0.0), d.toBits(0.0))
                          else P.JointStatus(d.toBits(before.joints[i].position), d.toBits(before.joints[i].velocity))))
  }

  lemma LatchedStatusReported(p0: Plant, p: Plant, homed: bool, request: F.Frame, d: Doubles)
    requires Frozen(p0, p, homed) && request.kind.GetStatus? && |p0.joints| < 0x1_0000
    ensures var (p', reply) := Dispatched(p, request, d);
            p' == p && reply.payload != [] && P.StatusDecoding(reply.payload[1..]) == Ok(LatchedStatus(p0, homed, d))
  {
    StatusDecoded(p, d);
    FrozenStatus(p0, p, homed, d);
    assert Dispatched(p, request, d) == (p, OkResponse(F.GetStatus, P.StatusEncoding(StatusOf(p, d))));
  }

  lemma FrozenStatus(p0: Plant, p: Plant, homed: bool, d: Doubles)
    requires Frozen(p0, p, homed)
    ensures StatusOf(p, d) == LatchedStatus(p0, homed, d)
  {
    var s, t := StatusOf(p, d).joints, LatchedStatus(p0, homed, d).joints;
    forall i | 0 <= i < |s| ensures s[i] == t[i] {
      assert if homed then p.joints[i].position == 0.0 && p.joints[i].velocity == 0.0 else SameMotion(p0.joints[i], p.joints[i]);
    }
    assert s == t;
  }

  /** Every GetStatus carried out after the latch is answered with the latched status. */
  lemma LaterStatusSaysStopped(limits: seq<JointLimits>, s: State, actions: seq<Action>, request: F.Frame, c: Config)
    requires Reachable(limits, s, c) && !InProgress(s) && s.shared.plant.controller == EmergencyStop && |limits| < 0x1_0000
    requires Run(s, actions, c).Some?
    requires var s' := Run(s, actions, c).value;
             && s'.threads.connection.Inside? && s'.threads.connection.task == RequestTask(request) && request.kind.GetStatus?
             && AbstractActions(s', Executes(Connection), c) == [Performs(Connection)]
             && Step(s', Executes(Connection), c).Some?
    ensures var connection := Step(Run(s, actions, c).value, Executes(Connection), c).value.threads.connection;
            && connection.Inside? && connection.pc.Finished? && connection.pc.reply.Some?
            && var payload := connection.pc.reply.value.payload;
               payload != [] && P.StatusDecoding(payload[1..])
                  == Ok(LatchedStatus(s.shared.plant, Homes(Abstract(s), AbstractRun(s, actions, c), c), c.doubles))
  {
    var s', homed := Run(s, actions, c).value, Homes(Abstract(s), AbstractRun(s, actions, c), c);
    EmergencyStopLatches(limits, s, actions, c);
    ReachableConsistent(limits, s, c);
    ReachableExcluded(limits, s, c);
    RunRefines(s, actions, c);
    ExecutesRefines(s', Connection, c);
    OneAction(Abstract(s'), Performs(Connection), c);
    LatchedStatusReported(s.shared.plant, Abstract(s').shared.plant, homed, request, c.doubles);
  }

  // When it takes hold -------------------------------------------------------------------------

  lemma {:induction false} NoMotionAfterLatch(p: Plant, requests: seq<F.Frame>, d: Doubles)
    requires p.controller == EmergencyStop
    ensures DispatchedAll(p, requests, d).controller == EmergencyStop
    decreases |requests|
  {
    if requests == [] {
    } else {
      NoMotionAfterLatch(Dispatched(p, requests[0], d).0, requests[1..], d);
    }
  }

  /** Enable, then a legal move of joint 0. */
  function Restart(bits: P.Bits): seq<F.Frame> {
    [F.Frame(0, F.Enable, []), F.Frame(0, F.MoveJoint, P.MoveEncoding(P.MoveJointPayload(0, bits)))]
  }

  lemma RestartMoves(p: Plant, bits: P.Bits, d: Doubles)
    requires p.controller.Idle? || p.controller.ServoOff?
    requires |p.joints| > 0 && p.joints[0].limits.Contains(d.toReal(bits))
    ensures DispatchedAll(p, Restart(bits), d).controller == Moving
    ensures DispatchedAll(p, Restart(bits), d).brakes == p.brakes
  {
    var requests := Restart(bits);
    var enabled := Dispatched(p, requests[0], d).0;
    P.MoveRoundTrip(P.MoveJointPayload(0, bits), [], 0);
    assert requests[1].payload + [] == requests[1].payload;
    var moving := Dispatched(enabled, requests[1], d).0;
    assert moving.controller == Moving;
    assert requests[1..][0] == requests[1] && requests[1..][1..] == [];
    assert DispatchedAll(enabled, requests[1..], d) == moving;
  }

  /**
   An emergency stop, requested or from the watchdog, always engages the brakes. It keeps clients
   from setting the robot in motion exactly if the controller was not in Idle or ServoOff: there
   the tables have no row for it, and it leaves no trace in the controller.
   */
  lemma StopHoldsIff(p: Plant, bits: P.Bits, d: Doubles)
    requires Consistent(p) && |p.joints| > 0 && p.joints[0].limits.Contains(d.toReal(bits))
    ensures Triggered(p).brakes == AllEngaged(|p.brakes|)
    ensures Triggered(p).controller == EmergencyStop <==> !p.controller.Idle? && !p.controller.ServoOff?
    ensures (forall requests :: DispatchedAll(Triggered(p), requests, d).controller != Moving)
            <==> !p.controller.Idle? && !p.controller.ServoOff?
  {
    if p.controller.Idle? || p.controller.ServoOff? {
      RestartMoves(Triggered(p), bits, d);
    } else {
      forall requests ensures DispatchedAll(Triggered(p), requests, d).controller != Moving {
        NoMotionAfterLatch(Triggered(p), requests, d);
      }
    }
  }
}
