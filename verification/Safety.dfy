/**
 What holds in every reachable state of the server, whatever the clients send and however the
 threads interleave.
 */
module Safety {
  import opened Wrappers
  import opened Bytes
  import opened Joint
  import opened Controller
  import opened Plant
  import opened Concurrency
  import F = FrameCodec
  import P = Payloads

  // Consistency of the plant between critical sections ------------------------------------------

  /** The controller states the server leaves behind when it unlocks the mutex. */
  predicate Settled(s: ControllerState) {
    s.Idle? || s.ServoOff? || s.Ready? || s.Moving? || s.EmergencyStop?
  }

  predicate Powered(js: seq<JointValue>, on: bool) {
    forall i :: 0 <= i < |js| ==> js[i].enabled == on && !js[i].faulted
  }

  /** All joints are enabled or none is, and none is in Idle or ServoOff; the brakes are engaged. */
  predicate Consistent(p: Plant) {
    && Settled(p.controller)
    && (Powered(p.joints, false) || (Powered(p.joints, true) && !p.controller.Idle? && !p.controller.ServoOff?))
    && p.brakes == AllEngaged(|p.brakes|)
  }

  lemma ControlledConsistent(p: Plant, period: int)
    requires Consistent(p)
    ensures Consistent(Controlled(p, period)) && |Controlled(p, period).joints| == |p.joints|
  {
    assert forall i :: 0 <= i < |p.joints| ==> Updated(p.joints[i], period).enabled == p.joints[i].enabled;
    assert forall i :: 0 <= i < |p.joints| ==> Updated(p.joints[i], period).faulted == p.joints[i].faulted;
    assert forall on: bool :: Powered(p.joints, on) ==> Powered(AllUpdated(p.joints, period), on);
  }

  lemma AfterMoveConsistent(p: Plant, payload: seq<Byte>, d: Doubles)
    requires Consistent(p)
    ensures Consistent(AfterMove(p, payload, d).0) && |AfterMove(p, payload, d).0.joints| == |p.joints|
  {
    var move := MoveTarget(p, payload, d);
    if move.Ok? {
      var js := p.joints[move.value.0 := move.value.1];
      assert forall on: bool :: Powered(p.joints, on) ==> Powered(js, on);
    }
  }

  lemma DispatchedConsistent(p: Plant, request: F.Frame, d: Doubles)
    requires Consistent(p)
    ensures Consistent(Dispatched(p, request, d).0) && |Dispatched(p, request, d).0.joints| == |p.joints|
  {
    match request.kind
    case Enable => assert Powered(AllEnabled(p.joints), true);
    case Disable => assert Powered(AllDisabled(p.joints), false);
    case Home => assert forall on: bool :: Powered(p.joints, on) ==> Powered(AllHomed(p.joints), on);
    case MoveJoint => AfterMoveConsistent(p, request.payload, d);
    case _ =>
  }

  lemma PerformedConsistent(task: Task, sh: Shared, c: Config)
    requires Consistent(sh.plant)
    ensures Consistent(Performed(task, sh, c).1.plant) && |Performed(task, sh, c).1.plant.joints| == |sh.plant.joints|
  {
    match task
    case ControlTask => ControlledConsistent(sh.plant, c.period);
    case RequestTask(request) => DispatchedConsistent(sh.plant, request, c.doubles);
    case TriggerTask =>
  }

  /** `reply` answers GetStatus with the status of a consistent plant of `n` joints. */
  ghost predicate StatusReply(reply: F.Frame, n: nat, d: Doubles) {
    exists p: Plant :: Consistent(p) && |p.joints| == n && reply == OkResponse(F.GetStatus, P.StatusEncoding(StatusOf(p, d)))
  }

  ghost predicate AtomicConsistent(s: AtomicState, n: nat, c: Config) {
    && Consistent(s.shared.plant) && |s.shared.plant.joints| == n
    && (s.threads.connection.Replying? && s.threads.connection.reply.kind.GetStatus? ==> StatusReply(s.threads.connection.reply, n, c.doubles))
  }

  lemma AtomicStepConsistent(s: AtomicState, a: AtomicAction, n: nat, c: Config)
    requires AtomicConsistent(s, n, c) && AtomicStep(s, a, c).Some?
    ensures AtomicConsistent(AtomicStep(s, a, c).value, n, c)
  {
    if a.Performs? {
      var task := AtomicPhaseOf(s, a.t).task;
      PerformedConsistent(task, s.shared, c);
      var reply := Performed(task, s.shared, c).0;
      if reply.Some? && reply.value.kind.GetStatus? {
        assert reply.value == OkResponse(F.GetStatus, P.StatusEncoding(StatusOf(s.shared.plant, c.doubles)));
      }
    }
  }

  lemma {:induction false} AtomicRunConsistent(s: AtomicState, actions: seq<AtomicAction>, n: nat, c: Config)
    requires AtomicConsistent(s, n, c) && AtomicRun(s, actions, c).Some?
    ensures AtomicConsistent(AtomicRun(s, actions, c).value, n, c)
    decreases |actions|
  {
    if actions == [] {
    } else {
      AtomicStepConsistent(s, actions[0], n, c);
      AtomicRunConsistent(AtomicStep(s, actions[0], c).value, actions[1..], n, c);
    }
  }

  lemma ReachableConsistent(limits: seq<JointLimits>, s: State, c: Config)
    requires Reachable(limits, s, c)
    ensures AtomicConsistent(Abstract(s), |limits|, c)
  {
    var start := Initial(Booted(limits));
    var actions :| Run(start, actions, c) == Some(s);
    RunRefines(start, actions, c);
    assert Powered(Booted(limits).joints, false);
    AtomicRunConsistent(Abstract(start), AbstractRun(start, actions, c), |limits|, c);
  }

  /**
   Whenever no critical section is in progress, the plant is consistent; in particular the
   transient states ServoOn and Stopping are seen by the lock holder only.
   */
  lemma ConsistentBetweenSections(limits: seq<JointLimits>, s: State, c: Config)
    requires Reachable(limits, s, c)
    ensures !InProgress(s) ==> Consistent(s.shared.plant)
    ensures s.owner.None? ==> Consistent(s.shared.plant)
  {
    ReachableConsistent(limits, s, c);
  }

  lemma SettledNames(s: ControllerState)
    requires Settled(s)
    ensures Text(Name(s)) != Text(Name(ServoOn)) && Text(Name(s)) != Text(Name(Stopping))
  {
    assert Text(Name(ServoOff))[1] == 101 && Text(Name(Stopping))[1] == 116;
  }

  /** No status response ever names a transient state. */
  lemma StatusNeverTransient(limits: seq<JointLimits>, s: State, c: Config)
    requires Reachable(limits, s, c) && |limits| < 0x1_0000
    requires s.threads.connection.Replying? && s.threads.connection.reply.kind.GetStatus?
    ensures s.threads.connection.reply.payload != []
    ensures var status := P.StatusDecoding(s.threads.connection.reply.payload[1..]);
            && status.Ok? && |status.value.joints| == |limits|
            && status.value.controllerStateName != Text(Name(ServoOn))
            && status.value.controllerStateName != Text(Name(Stopping))
  {
    ReachableConsistent(limits, s, c);
    var p: Plant :| Consistent(p) && |p.joints| == |limits|
                    && s.threads.connection.reply == OkResponse(F.GetStatus, P.StatusEncoding(StatusOf(p, c.doubles)));
    StatusDecoded(p, c.doubles);
    SettledNames(p.controller);
  }

  // What the requests do -------------------------------------------------------------------------

  predicate SameBut(js: seq<JointValue>, js': seq<JointValue>, enabled: bool) {
    |js'| == |js| && forall i :: 0 <= i < |js| ==> js'[i] == js[i].(enabled := enabled)
  }

  predicate AtHome(js: seq<JointValue>, js': seq<JointValue>) {
    |js'| == |js| && forall i :: 0 <= i < |js| ==>
                       js'[i] == Fresh(js[i].limits).(enabled := js[i].enabled, homed := true, faulted := js[i].faulted)
  }

  predicate Retargeted(js: seq<JointValue>, js': seq<JointValue>, index: nat, target: real) {
    |js'| == |js| && forall i :: 0 <= i < |js| ==> js'[i] == if i == index then js[i].(targetPosition := target) else js[i]
  }

  /** The operational policy: where each request leads from each settled state, and all it touches. */
  predicate Policy(p: Plant, p': Plant, request: F.Frame, d: Doubles) {
    match request.kind
    case Enable =>
      && p'.controller == (if p.controller.Idle? || p.controller.ServoOff? then Ready else p.controller)
      && SameBut(p.joints, p'.joints, true) && p'.brakes == p.brakes
    case Disable =>
      && p'.controller == (if p.controller.Ready? then ServoOff else p.controller)
      && SameBut(p.joints, p'.joints, false) && p'.brakes == p.brakes
    case Home => p'.controller == p.controller && AtHome(p.joints, p'.joints) && p'.brakes == p.brakes
    case MoveJoint =>
      var move := P.MoveDecoding(request.payload);
      if move.Err? || !MoveAccepted(p, move.value, d) then p' == p
      else
        && p'.controller == (if p.controller.Ready? then Moving else p.controller)
        && Retargeted(p.joints, p'.joints, move.value.jointIndex, d.toReal(move.value.target)) && p'.brakes == p.brakes
    case Stop => p' == p.(controller := if p.controller.Moving? then Ready else p.controller)
    case EmergencyStop =>
      && p'.controller == (if p.controller.Ready? || p.controller.Moving? then EmergencyStop else p.controller)
      && p'.joints == p.joints && p'.brakes == AllEngaged(|p.brakes|)
    case _ => p' == p
  }

  /** Error status: an unknown or unsupported request, or a refused move. */
  predicate Refused(p: Plant, request: F.Frame, d: Doubles) {
    match request.kind
    case MoveJoint => P.MoveDecoding(request.payload).Err? || !MoveAccepted(p, P.MoveDecoding(request.payload).value, d)
    case Connect => true
    case MoveLinear => true
    case GetPosition => true
    case GetIO => true
    case SetIO => true
    case ResetFault => true
    case InjectFault => true
    case _ => false
  }

  /** The handlers' event sequences follow the policy; the reply echoes the type and tells refusals. */
  lemma DispatchFollowsPolicy(p: Plant, request: F.Frame, d: Doubles)
    requires Settled(p.controller)
    ensures var (p', reply) := Dispatched(p, request, d);
            && Policy(p, p', request, d)
            && reply.kind == request.kind && reply.flags == 0
            && reply.payload != [] && reply.payload[0] == if Refused(p, request, d) then 1 else 0
  {
    match request.kind
    case MoveJoint => MoveFollowsPolicy(p, request, d);
    case _ =>
  }

  lemma MoveFollowsPolicy(p: Plant, request: F.Frame, d: Doubles)
    requires Settled(p.controller) && request.kind.MoveJoint?
    ensures var (p', reply) := AfterMove(p, request.payload, d);
            Policy(p, p', request, d) && reply == if Refused(p, request, d) then ErrorResponse(F.MoveJoint) else OkResponse(F.MoveJoint, [])
  {}

  // Joint limits ---------------------------------------------------------------------------------

  predicate AllWithinLimits(js: seq<JointValue>) {
    forall i :: 0 <= i < |js| ==> WithinLimits(js[i])
  }

  predicate ZeroAllowed(js: seq<JointValue>) {
    forall i :: 0 <= i < |js| ==> js[i].limits.Contains(0.0)
  }

  lemma MicroStepWithinLimits(pc: Pc, sh: Shared, c: Config)
    requires AllWithinLimits(sh.plant.joints) && ZeroAllowed(sh.plant.joints)
    ensures var js := MicroStep(pc, sh, c).1.plant.joints; AllWithinLimits(js) && ZeroAllowed(js)
  {
    var js := sh.plant.joints;
    if pc.AtJoint? && pc.i < |js| {
      if pc.loop.UpdateLoop? {
        UpdatedWithinLimits(js[pc.i], c.period);
      }
      var j := Body(pc.loop, c)(js[pc.i]);
      assert j.limits == js[pc.i].limits;
      assert WithinLimits(j);
    }
  }

  lemma {:induction false} RunWithinLimits(s: State, actions: seq<Action>, c: Config)
    requires AllWithinLimits(s.shared.plant.joints) && ZeroAllowed(s.shared.plant.joints) && Run(s, actions, c).Some?
    ensures AllWithinLimits(Run(s, actions, c).value.shared.plant.joints)
    decreases |actions|
  {
    if actions == [] {
    } else {
      var a := actions[0];
      if a.Executes? {
        MicroStepWithinLimits(PhaseOf(s, a.t).pc, s.shared, c);
      }
      RunWithinLimits(Step(s, a, c).value, actions[1..], c);
    }
  }

  /**
   In every reachable state, between any two accesses of any threads, every joint's position and
   target are in limits, and its velocity and acceleration within bounds: exactly if the limits
   of every joint contain 0, where construction and homing put the joint.
   */
  lemma LimitsAlwaysHold(limits: seq<JointLimits>, c: Config)
    requires forall i :: 0 <= i < |limits| ==> limits[i].Valid()
    ensures (forall s :: Reachable(limits, s, c) ==> AllWithinLimits(s.shared.plant.joints))
            <==> forall i :: 0 <= i < |limits| ==> limits[i].Contains(0.0)
  {
    var start := Initial(Booted(limits));
    var js := start.shared.plant.joints;
    assert Run(start, [], c) == Some(start);
    assert Reachable(limits, start, c);
    if forall i :: 0 <= i < |limits| ==> limits[i].Contains(0.0) {
      forall s | Reachable(limits, s, c) ensures AllWithinLimits(s.shared.plant.joints) {
        var actions :| Run(start, actions, c) == Some(s);
        RunWithinLimits(start, actions, c);
      }
    } else {
      var i :| 0 <= i < |limits| && !limits[i].Contains(0.0);
      assert !WithinLimits(js[i]);
    }
  }

  // What moves a joint ---------------------------------------------------------------------------

  predicate Assigned(t: Thread, task: Task) {
    match t
    case Control => task.ControlTask?
    case Connection => task.RequestTask?
    case Responder => task.TriggerTask?
  }

  /** Where in which task a thread can be, given the controller state. */
  predicate Belongs(pc: Pc, task: Task, controller: ControllerState) {
    match pc
    case CheckMoving => task.ControlTask?
    case Dispatching(request) => task == RequestTask(request)
    case AtJoint(UpdateLoop, _) => task.ControlTask? && controller.Moving?
    case AtJoint(HomeLoop, _) => task.RequestTask? && task.request.kind.Home?
    case AtBrake(_, requested) => StopBelongs(requested, task)
    case FireEStop(requested) => StopBelongs(requested, task)
    case _ => true
  }

  predicate StopBelongs(requested: bool, task: Task) {
    if requested then task.RequestTask? && task.request.kind.EmergencyStop? else task.TriggerTask?
  }

  predicate PhaseBelongs(s: State, t: Thread) {
    var phase := PhaseOf(s, t);
    && (phase.Wanting? ==> Assigned(t, phase.task))
    && (phase.Inside? ==> Assigned(t, phase.task) && Belongs(phase.pc, phase.task, s.shared.plant.controller))
  }

  predicate AllBelong(s: State) {
    forall t: Thread :: PhaseBelongs(s, t)
  }

  lemma StepBelongs(s: State, a: Action, c: Config)
    requires Excluded(s, c) && AllBelong(s) && Step(s, a, c).Some?
    ensures AllBelong(Step(s, a, c).value)
  {
    var s' := Step(s, a, c).value;
    forall t: Thread ensures PhaseBelongs(s', t) {
      assert PhaseBelongs(s, t);
      if a.Executes? && t == a.t {
        MicroStepBelongs(PhaseOf(s, t).pc, PhaseOf(s, t).task, s.shared, c);
      } else if a.Executes? {
        assert s.owner == Some(a.t);
      }
    }
  }

  lemma MicroStepBelongs(pc: Pc, task: Task, sh: Shared, c: Config)
    requires Belongs(pc, task, sh.plant.controller)
    ensures var (pc', sh') := MicroStep(pc, sh, c); Belongs(pc', task, sh'.plant.controller)
  {}

  lemma {:induction false} RunBelongs(s: State, actions: seq<Action>, c: Config)
    requires Excluded(s, c) && AllBelong(s) && Run(s, actions, c).Some?
    ensures AllBelong(Run(s, actions, c).value)
    decreases |actions|
  {
    if actions == [] {
    } else {
      StepRefines(s, actions[0], c);
      StepBelongs(s, actions[0], c);
      RunBelongs(Step(s, actions[0], c).value, actions[1..], c);
    }
  }

  lemma ReachableBelongs(limits: seq<JointLimits>, s: State, c: Config)
    requires Reachable(limits, s, c)
    ensures AllBelong(s) && TasksAssigned(Abstract(s))
  {
    var start := Initial(Booted(limits));
    var before :| Run(start, before, c) == Some(s);
    RunRefines(start, before, c);
    RunBelongs(start, before, c);
    forall t: Thread ensures AtomicPhaseOf(Abstract(s), t).Wanting? ==> Assigned(t, AtomicPhaseOf(Abstract(s), t).task) {
      assert PhaseBelongs(s, t);
    }
  }

  predicate TasksAssigned(s: AtomicState) {
    forall t: Thread :: AtomicPhaseOf(s, t).Wanting? ==> Assigned(t, AtomicPhaseOf(s, t).task)
  }

  lemma StepAssigned(s: AtomicState, a: AtomicAction, c: Config)
    requires TasksAssigned(s) && AtomicStep(s, a, c).Some?
    ensures TasksAssigned(AtomicStep(s, a, c).value)
  {
    var s' := AtomicStep(s, a, c).value;
    forall t: Thread ensures AtomicPhaseOf(s', t).Wanting? ==> Assigned(t, AtomicPhaseOf(s', t).task) {
      assert AtomicPhaseOf(s, t).Wanting? ==> Assigned(t, AtomicPhaseOf(s, t).task);
    }
  }

  predicate SameMotion(j: JointValue, k: JointValue) {
    j.position == k.position && j.velocity == k.velocity
  }

  lemma MicroMotion(pc: Pc, sh: Shared, c: Config, i: nat)
    requires i < |sh.plant.joints|
    ensures var js, js' := sh.plant.joints, MicroStep(pc, sh, c).1.plant.joints;
            && |js'| == |js|
            && (SameMotion(js[i], js'[i]) || (pc == AtJoint(UpdateLoop, i) && js[i].enabled) || pc == AtJoint(HomeLoop, i))
  {}

  /** The step `a` moves joint `i` as a control cycle or a Home request should. */
  predicate MovesJoint(s: State, a: Action, i: nat) {
    || (a == Executes(Control) && s.threads.control.Inside? && s.threads.control.pc == AtJoint(UpdateLoop, i)
        && s.shared.plant.controller == Moving && i < |s.shared.plant.joints| && s.shared.plant.joints[i].enabled)
    || (a == Executes(Connection) && s.threads.connection.Inside? && s.threads.connection.pc == AtJoint(HomeLoop, i)
        && s.threads.connection.task.RequestTask? && s.threads.connection.task.request.kind.Home?)
  }

  lemma StepMotion(s: State, a: Action, c: Config, i: nat)
    requires AllBelong(s) && Step(s, a, c).Some? && i < |s.shared.plant.joints|
    ensures var js, js' := s.shared.plant.joints, Step(s, a, c).value.shared.plant.joints;
            |js'| == |js| && (SameMotion(js[i], js'[i]) || MovesJoint(s, a, i))
  {
    if a.Executes? {
      hide MicroStep;
      assert PhaseBelongs(s, a.t);
      MicroMotion(PhaseOf(s, a.t).pc, s.shared, c, i);
    }
  }

  /**
   A joint's position or velocity changes only in two ways: the control thread updates it while
   the controller is in Moving and the joint is enabled, or a client's Home request resets it.
   */
  lemma MotionHasCause(limits: seq<JointLimits>, s: State, a: Action, c: Config, i: nat)
    requires Reachable(limits, s, c) && Step(s, a, c).Some? && i < |s.shared.plant.joints|
    ensures var js, js' := s.shared.plant.joints, Step(s, a, c).value.shared.plant.joints;
            |js'| == |js| && (SameMotion(js[i], js'[i]) || MovesJoint(s, a, i))
  {
    var start := Initial(Booted(limits));
    var actions :| Run(start, actions, c) == Some(s);
    RunRefines(start, actions, c);
    RunBelongs(start, actions, c);
    StepMotion(s, a, c, i);
  }
}
