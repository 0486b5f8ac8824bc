/**
 The running server as a step system. Four threads share the plant and the cycle counter: the
 control thread, the connection thread, the watchdog's polling thread and the thread that
 responds to a trip. A step is a single access to shared state, a lock operation, or an event
 outside the lock; a run is any sequence of steps the threads can take in any interleaving.
 */
module Concurrency {
  import opened Wrappers
  import opened Bytes
  import opened Joint
  import opened Controller
  import opened Plant
  import opened Watchdog
  import F = FrameCodec
  import P = Payloads
  import Server

  /** What the mutex guards, and the atomic cycle counter. */
  datatype Shared = Shared(plant: Plant, cycles: nat)

  /** Constants of a server: the control period, the watchdog timeout and the encoding of doubles. */
  datatype Config = Config(period: int, timeout: int, doubles: Doubles)

  /** What a thread locks the mutex for. */
  datatype Task = ControlTask | RequestTask(request: F.Frame) | TriggerTask

  /** The loops over all joints. */
  datatype JointLoop = EnableLoop | DisableLoop | HomeLoop | UpdateLoop

  /** Where a thread is inside its critical section. */
  datatype Pc =
    | CheckMoving
    | AtJoint(loop: JointLoop, i: nat)
    | Count
    | FireServoEnable | FireControllerReady | FireServoDisable
    | Dispatching(request: F.Frame)
    | SettingTarget(index: nat, target: real) | CheckReady | FireCommandMove
    | FireCommandStop | FireStopComplete
    | AtBrake(i: nat, requested: bool) | FireEStop(requested: bool)
    | ReadingState | ReadingJoint(i: nat, state: ControllerState, joints: seq<P.JointStatus>)
    | Finished(reply: Option<F.Frame>)

  function Start(task: Task): Pc {
    match task
    case ControlTask => CheckMoving
    case RequestTask(request) => Dispatching(request)
    case TriggerTask => AtBrake(0, false)
  }

  function Body(loop: JointLoop, c: Config): JointValue -> JointValue {
    match loop
    case EnableLoop => (j: JointValue) => j.(enabled := true)
    case DisableLoop => (j: JointValue) => j.(enabled := false)
    case HomeLoop => Homed
    case UpdateLoop => (j: JointValue) => Updated(j, c.period)
  }

  /** Where a loop over the joints leads. */
  function AfterLoop(loop: JointLoop): Pc {
    match loop
    case EnableLoop => FireServoEnable
    case DisableLoop => FireServoDisable
    case HomeLoop => Finished(Some(OkResponse(F.Home, [])))
    case UpdateLoop => Count
  }

  /** The first step of a request: the switch on its type, and for a move the checks on its payload. */
  function Dispatching1(request: F.Frame, jointCount: nat, c: Config): Pc {
    match request.kind
    case GetStatus => ReadingState
    case Enable => AtJoint(EnableLoop, 0)
    case Disable => AtJoint(DisableLoop, 0)
    case Home => AtJoint(HomeLoop, 0)
    case MoveJoint =>
      var payload := P.MoveDecoding(request.payload);
      if payload.Err? || payload.value.jointIndex >= jointCount then Finished(Some(ErrorResponse(F.MoveJoint)))
      else SettingTarget(payload.value.jointIndex, c.doubles.toReal(payload.value.target))
    case Stop => FireCommandStop
    case EmergencyStop => AtBrake(0, true)
    case _ => Finished(Some(ErrorResponse(request.kind)))
  }

  function Fired(sh: Shared, e: ControllerEvent): Shared {
    sh.(plant := sh.plant.(controller := Fire(sh.plant.controller, e)))
  }

  /** One access to shared state. */
  function MicroStep(pc: Pc, sh: Shared, c: Config): (Pc, Shared) {
    var p := sh.plant;
    match pc
    case CheckMoving => (if p.controller == Moving then AtJoint(UpdateLoop, 0) else Count, sh)
    case AtJoint(loop, i) =>
      if i < |p.joints| then (AtJoint(loop, i + 1), sh.(plant := p.(joints := p.joints[i := Body(loop, c)(p.joints[i])])))
      else (AfterLoop(loop), sh)
    case Count => (Finished(None), sh.(cycles := (sh.cycles + 1) % Server.COUNTER_RANGE))
    case FireServoEnable => (FireControllerReady, Fired(sh, ServoEnable))
    case FireControllerReady => (Finished(Some(OkResponse(F.Enable, []))), Fired(sh, ControllerReady))
    case FireServoDisable => (Finished(Some(OkResponse(F.Disable, []))), Fired(sh, ServoDisable))
    case Dispatching(request) => (Dispatching1(request, |p.joints|, c), sh)
    case SettingTarget(index, target) =>
      if index >= |p.joints| then (Finished(Some(ErrorResponse(F.MoveJoint))), sh)
      else
        var targeted := SetTarget(p.joints[index], target);
        if targeted.1.Err? then (Finished(Some(ErrorResponse(F.MoveJoint))), sh)
        else (CheckReady, sh.(plant := p.(joints := p.joints[index := targeted.0])))
    case CheckReady => (if p.controller == Ready then FireCommandMove else Finished(Some(OkResponse(F.MoveJoint, []))), sh)
    case FireCommandMove => (Finished(Some(OkResponse(F.MoveJoint, []))), Fired(sh, CommandMove))
    case FireCommandStop => (FireStopComplete, Fired(sh, CommandStop))
    case FireStopComplete => (Finished(Some(OkResponse(F.Stop, []))), Fired(sh, StopComplete))
    case AtBrake(i, requested) =>
      if i < |p.brakes| then (AtBrake(i + 1, requested), sh.(plant := p.(brakes := p.brakes[i := Engaged])))
      else (FireEStop(requested), sh)
    case FireEStop(requested) =>
      (Finished(if requested then Some(OkResponse(F.EmergencyStop, [])) else None), Fired(sh, EStopTriggered))
    case ReadingState => (ReadingJoint(0, p.controller, []), sh)
    case ReadingJoint(i, state, joints) =>
      if i < |p.joints| then
        (ReadingJoint(i + 1, state, joints + [JointStatusOf(p.joints[i].position, p.joints[i].velocity, c.doubles)]), sh)
      else
        var status := P.StatusPayload(Text(ROBOT_NAME), Text(Name(state)), joints);
        (Finished(Some(OkResponse(F.GetStatus, P.StatusEncoding(status)))), sh)
    case Finished(_) => (pc, sh)
  }

  // Critical sections run to their end -------------------------------------------------------

  function Left(i: nat, n: nat): nat {
    if i < n then n - i else 0
  }

  /** How many steps are left at most. */
  function Rank(pc: Pc, p: Plant): nat {
    match pc
    case CheckMoving => |p.joints| + 5
    case AtJoint(_, i) => Left(i, |p.joints|) + 4
    case Count => 1
    case FireServoEnable => 2
    case FireControllerReady => 1
    case FireServoDisable => 1
    case Dispatching(_) => |p.joints| + |p.brakes| + 6
    case SettingTarget(_, _) => 3
    case CheckReady => 2
    case FireCommandMove => 1
    case FireCommandStop => 2
    case FireStopComplete => 1
    case AtBrake(i, _) => Left(i, |p.brakes|) + 2
    case FireEStop(_) => 1
    case ReadingState => |p.joints| + 2
    case ReadingJoint(i, _, _) => Left(i, |p.joints|) + 1
    case Finished(_) => 0
  }

  lemma StepsEnd(pc: Pc, sh: Shared, c: Config)
    requires !pc.Finished?
    ensures var (pc', sh') := MicroStep(pc, sh, c); Rank(pc', sh'.plant) < Rank(pc, sh.plant)
  {}

  /** The reply and the shared state at the end of the critical section. */
  function Complete(pc: Pc, sh: Shared, c: Config): (Option<F.Frame>, Shared)
    decreases Rank(pc, sh.plant)
  {
    if pc.Finished? then (pc.reply, sh)
    else
      StepsEnd(pc, sh, c);
      var (pc', sh') := MicroStep(pc, sh, c);
      Complete(pc', sh', c)
  }

  /** The task as one atomic step, in terms of what the handlers are proved to do. */
  function Performed(task: Task, sh: Shared, c: Config): (Option<F.Frame>, Shared) {
    match task
    case ControlTask => (None, Shared(Controlled(sh.plant, c.period), (sh.cycles + 1) % Server.COUNTER_RANGE))
    case RequestTask(request) =>
      var (plant, reply) := Dispatched(sh.plant, request, c.doubles);
      (Some(reply), sh.(plant := plant))
    case TriggerTask => (None, sh.(plant := Triggered(sh.plant)))
  }

  /** `f` applied to the elements from index `i` on. */
  function MapFrom<T>(s: seq<T>, i: nat, f: T -> T): (r: seq<T>)
    ensures |r| == |s|
  {
    seq(|s|, k requires 0 <= k < |s| => if k < i then s[k] else f(s[k]))
  }

  lemma {:induction false} LoopCompletes(loop: JointLoop, i: nat, sh: Shared, c: Config)
    ensures Complete(AtJoint(loop, i), sh, c) ==
            Complete(AfterLoop(loop), sh.(plant := sh.plant.(joints := MapFrom(sh.plant.joints, i, Body(loop, c)))), c)
    decreases Left(i, |sh.plant.joints|)
  {
    var js, f := sh.plant.joints, Body(loop, c);
    if i < |js| {
      var js' := js[i := f(js[i])];
      LoopCompletes(loop, i + 1, sh.(plant := sh.plant.(joints := js')), c);
      assert MapFrom(js', i + 1, f) == MapFrom(js, i, f);
    } else {
      assert MapFrom(js, i, f) == js;
    }
  }

  lemma {:induction false} BrakesComplete(i: nat, requested: bool, sh: Shared, c: Config)
    ensures Complete(AtBrake(i, requested), sh, c) ==
            Complete(FireEStop(requested), sh.(plant := sh.plant.(brakes := MapFrom(sh.plant.brakes, i, _ => Engaged))), c)
    decreases Left(i, |sh.plant.brakes|)
  {
    var bs := sh.plant.brakes;
    if i < |bs| {
      var bs' := bs[i := Engaged];
      BrakesComplete(i + 1, requested, sh.(plant := sh.plant.(brakes := bs')), c);
      assert MapFrom(bs', i + 1, _ => Engaged) == MapFrom(bs, i, _ => Engaged);
    } else {
      assert MapFrom(bs, i, _ => Engaged) == bs;
    }
  }

  lemma {:induction false} StatusCompletes(i: nat, sh: Shared, c: Config)
    requires i <= |sh.plant.joints|
    ensures var status := StatusOf(sh.plant, c.doubles);
            Complete(ReadingJoint(i, sh.plant.controller, status.joints[..i]), sh, c)
            == (Some(OkResponse(F.GetStatus, P.StatusEncoding(status))), sh)
    decreases |sh.plant.joints| - i
  {
    var status := StatusOf(sh.plant, c.doubles);
    if i < |sh.plant.joints| {
      assert status.joints[..i + 1] == status.joints[..i] + [status.joints[i]];
      StatusCompletes(i + 1, sh, c);
    } else {
      assert status.joints[..i] == status.joints;
    }
  }

  /** The last step of a critical section. */
  lemma LastStep(pc: Pc, sh: Shared, c: Config)
    requires !pc.Finished? && MicroStep(pc, sh, c).0.Finished?
    ensures Complete(pc, sh, c) == (MicroStep(pc, sh, c).0.reply, MicroStep(pc, sh, c).1)
  {
    var (pc', sh') := MicroStep(pc, sh, c);
    assert Complete(pc, sh, c) == Complete(pc', sh', c);
  }

  lemma ControlCompletes(sh: Shared, c: Config)
    ensures Complete(CheckMoving, sh, c) == Performed(ControlTask, sh, c)
  {
    var sh1 := sh.(plant := Controlled(sh.plant, c.period));
    if sh.plant.controller == Moving {
      assert Complete(CheckMoving, sh, c) == Complete(AtJoint(UpdateLoop, 0), sh, c);
      LoopCompletes(UpdateLoop, 0, sh, c);
      assert MapFrom(sh.plant.joints, 0, Body(UpdateLoop, c)) == AllUpdated(sh.plant.joints, c.period);
    } else {
      assert Complete(CheckMoving, sh, c) == Complete(Count, sh, c);
      assert sh1 == sh;
    }
    LastStep(Count, sh1, c);
  }

  lemma TriggerCompletes(requested: bool, sh: Shared, c: Config)
    ensures Complete(AtBrake(0, requested), sh, c)
            == (if requested then Some(OkResponse(F.EmergencyStop, [])) else None, sh.(plant := Triggered(sh.plant)))
  {
    BrakesComplete(0, requested, sh, c);
    assert MapFrom(sh.plant.brakes, 0, _ => Engaged) == AllEngaged(|sh.plant.brakes|);
    LastStep(FireEStop(requested), sh.(plant := sh.plant.(brakes := AllEngaged(|sh.plant.brakes|))), c);
  }

  lemma EnableCompletes(sh: Shared, c: Config)
    ensures Complete(AtJoint(EnableLoop, 0), sh, c)
            == (Some(OkResponse(F.Enable, [])), sh.(plant := AfterEnable(sh.plant)))
  {
    LoopCompletes(EnableLoop, 0, sh, c);
    assert MapFrom(sh.plant.joints, 0, Body(EnableLoop, c)) == AllEnabled(sh.plant.joints);
    var sh1 := sh.(plant := sh.plant.(joints := AllEnabled(sh.plant.joints)));
    assert Complete(FireServoEnable, sh1, c) == Complete(FireControllerReady, Fired(sh1, ServoEnable), c);
    LastStep(FireControllerReady, Fired(sh1, ServoEnable), c);
  }

  lemma DisableCompletes(sh: Shared, c: Config)
    ensures Complete(AtJoint(DisableLoop, 0), sh, c)
            == (Some(OkResponse(F.Disable, [])), sh.(plant := AfterDisable(sh.plant)))
  {
    LoopCompletes(DisableLoop, 0, sh, c);
    assert MapFrom(sh.plant.joints, 0, Body(DisableLoop, c)) == AllDisabled(sh.plant.joints);
    LastStep(FireServoDisable, sh.(plant := sh.plant.(joints := AllDisabled(sh.plant.joints))), c);
  }

  lemma HomeCompletes(sh: Shared, c: Config)
    ensures Complete(AtJoint(HomeLoop, 0), sh, c) == (Some(OkResponse(F.Home, [])), sh.(plant := AfterHome(sh.plant)))
  {
    LoopCompletes(HomeLoop, 0, sh, c);
    assert MapFrom(sh.plant.joints, 0, Body(HomeLoop, c)) == AllHomed(sh.plant.joints);
  }

  lemma StopCompletes(sh: Shared, c: Config)
    ensures Complete(FireCommandStop, sh, c) == (Some(OkResponse(F.Stop, [])), sh.(plant := AfterStop(sh.plant)))
  {
    var sh1 := Fired(sh, CommandStop);
    assert Complete(FireCommandStop, sh, c) == Complete(FireStopComplete, sh1, c);
    LastStep(FireStopComplete, sh1, c);
  }

  lemma MoveCompletes(request: F.Frame, sh: Shared, c: Config)
    requires request.kind == F.MoveJoint
    ensures Complete(Dispatching(request), sh, c) == Performed(RequestTask(request), sh, c)
  {
    var payload := P.MoveDecoding(request.payload);
    if payload.Err? || payload.value.jointIndex >= |sh.plant.joints| {
      LastStep(Dispatching(request), sh, c);
    } else {
      var index, target := payload.value.jointIndex, c.doubles.toReal(payload.value.target);
      assert Complete(Dispatching(request), sh, c) == Complete(SettingTarget(index, target), sh, c);
      var targeted := SetTarget(sh.plant.joints[index], target);
      if targeted.1.Err? {
        LastStep(SettingTarget(index, target), sh, c);
      } else {
        var sh1 := sh.(plant := sh.plant.(joints := sh.plant.joints[index := targeted.0]));
        assert Complete(SettingTarget(index, target), sh, c) == Complete(CheckReady, sh1, c);
        ReadyCompletes(sh1, c);
      }
    }
  }

  lemma ReadyCompletes(sh: Shared, c: Config)
    ensures Complete(CheckReady, sh, c)
            == (Some(OkResponse(F.MoveJoint, [])), if sh.plant.controller == Ready then Fired(sh, CommandMove) else sh)
  {
    if sh.plant.controller == Ready {
      assert Complete(CheckReady, sh, c) == Complete(FireCommandMove, sh, c);
      LastStep(FireCommandMove, sh, c);
    } else {
      LastStep(CheckReady, sh, c);
    }
  }

  /** Run without interruption, the steps of a critical section do what the handler does. */
  lemma TaskCompletes(task: Task, sh: Shared, c: Config)
    ensures Complete(Start(task), sh, c) == Performed(task, sh, c)
  {
    match task
    case ControlTask => ControlCompletes(sh, c);
    case TriggerTask => TriggerCompletes(false, sh, c);
    case RequestTask(request) =>
      if request.kind.MoveJoint? {
        MoveCompletes(request, sh, c);
      } else {
        var next := Dispatching1(request, |sh.plant.joints|, c);
        assert Complete(Dispatching(request), sh, c) == Complete(next, sh, c);
        match request.kind
        case GetStatus =>
          assert Complete(ReadingState, sh, c) == Complete(ReadingJoint(0, sh.plant.controller, []), sh, c);
          assert StatusOf(sh.plant, c.doubles).joints[..0] == [];
          StatusCompletes(0, sh, c);
        case Enable => EnableCompletes(sh, c);
        case Disable => DisableCompletes(sh, c);
        case Home => HomeCompletes(sh, c);
        case Stop => StopCompletes(sh, c);
        case EmergencyStop => TriggerCompletes(true, sh, c);
        case _ => LastStep(Dispatching(request), sh, c);
      }
  }

  // The step system --------------------------------------------------------------------------

  datatype Thread = Control | Connection | Responder

  datatype Phase = Outside | Wanting(task: Task) | Inside(task: Task, pc: Pc) | Replying(reply: F.Frame)

  /** What the threads keep outside the mutex: where each is, the watchdog, and whether its trip was handled. */
  datatype Threads = Threads(
    control: Phase, connection: Phase, responder: Phase, watchdog: WatchdogValue, tripHandled: bool)

  function PhaseIn(threads: Threads, t: Thread): Phase {
    match t
    case Control => threads.control
    case Connection => threads.connection
    case Responder => threads.responder
  }

  function WithPhaseIn(threads: Threads, t: Thread, p: Phase): Threads {
    match t
    case Control => threads.(control := p)
    case Connection => threads.(connection := p)
    case Responder => threads.(responder := p)
  }

  /** `entry` records the shared state when the mutex was last locked; no step depends on it. */
  datatype State = State(shared: Shared, owner: Option<Thread>, threads: Threads, entry: Shared)

  function PhaseOf(s: State, t: Thread): Phase {
    PhaseIn(s.threads, t)
  }

  function WithPhase(s: State, t: Thread, p: Phase): State {
    s.(threads := WithPhaseIn(s.threads, t, p))
  }

  /** Where a thread goes when it has unlocked. */
  function AfterTask(reply: Option<F.Frame>): Phase {
    match reply
    case None => Outside
    case Some(frame) => Replying(frame)
  }

  /** What the threads do outside the mutex. */
  datatype Event =
    | ControlWakes
    | FrameArrives(request: F.Frame)
    | ReplySent(reply: F.Frame)
    | WatchdogStarts(now: int)
    | WatchdogPolls(now: int)
    | ResponderWakes

  /** An event outside the mutex, with the cycle counter as the watchdog reads it; None if it is not possible. */
  function EventStep(threads: Threads, event: Event, cycles: nat, timeout: int): Option<Threads> {
    match event
    case ControlWakes =>
      if threads.control == Outside then Some(threads.(control := Wanting(ControlTask))) else None
    case FrameArrives(request) =>
      if threads.watchdog.running && threads.connection == Outside then
        Some(threads.(connection := Wanting(RequestTask(request))))
      else None
    case ReplySent(reply) =>
      if threads.connection == Replying(reply) then Some(threads.(connection := Outside)) else None
    case WatchdogStarts(now) =>
      if threads.watchdog.running then None else Some(threads.(watchdog := Started(cycles, now)))
    case WatchdogPolls(now) =>
      if threads.watchdog.running then Some(threads.(watchdog := Polled(threads.watchdog, timeout, cycles, now)))
      else None
    case ResponderWakes =>
      if threads.responder != Outside then None
      else if threads.watchdog.tripped && !threads.tripHandled then
        Some(threads.(tripHandled := true, responder := Wanting(TriggerTask)))
      else Some(threads)
  }

  datatype Action = Seen(event: Event) | Locks(t: Thread) | Executes(t: Thread) | Unlocks(t: Thread)

  /** One step of the server; None if the action is not possible. */
  function Step(s: State, a: Action, c: Config): Option<State> {
    match a
    case Locks(t) =>
      var phase := PhaseOf(s, t);
      if phase.Wanting? && s.owner == None then
        Some(WithPhase(s, t, Inside(phase.task, Start(phase.task))).(owner := Some(t), entry := s.shared))
      else None
    case Executes(t) =>
      var phase := PhaseOf(s, t);
      if phase.Inside? && !phase.pc.Finished? then
        var (pc, shared) := MicroStep(phase.pc, s.shared, c);
        Some(WithPhase(s, t, Inside(phase.task, pc)).(shared := shared))
      else None
    case Unlocks(t) =>
      var phase := PhaseOf(s, t);
      if phase.Inside? && phase.pc.Finished? then
        Some(WithPhase(s, t, AfterTask(phase.pc.reply)).(owner := None))
      else None
    case Seen(event) =>
      var threads := EventStep(s.threads, event, s.shared.cycles, c.timeout);
      if threads.Some? then Some(s.(threads := threads.value)) else None
  }

  function Run(s: State, actions: seq<Action>, c: Config): Option<State>
    decreases |actions|
  {
    if actions == [] then Some(s)
    else
      var next := Step(s, actions[0], c);
      if next == None then None else Run(next.value, actions[1..], c)
  }

  lemma {:induction false} RunConcat(s: State, first: seq<Action>, second: seq<Action>, c: Config)
    ensures Run(s, first + second, c) ==
            if Run(s, first, c).Some? then Run(Run(s, first, c).value, second, c) else None
    decreases |first|
  {
    if first == [] {
      assert first + second == second;
    } else {
      assert (first + second)[1..] == first[1..] + second;
      var next := Step(s, first[0], c);
      if next.Some? {
        RunConcat(next.value, first[1..], second, c);
      }
    }
  }

  // The atomic system ------------------------------------------------------------------------

  /** The same server with every critical section collapsed into one step; it needs no mutex. */
  datatype AtomicState = AtomicState(shared: Shared, threads: Threads)

  datatype AtomicAction = Visible(event: Event) | Performs(t: Thread)

  function AtomicPhaseOf(s: AtomicState, t: Thread): Phase {
    PhaseIn(s.threads, t)
  }

  function AtomicStep(s: AtomicState, a: AtomicAction, c: Config): Option<AtomicState> {
    match a
    case Performs(t) =>
      var phase := AtomicPhaseOf(s, t);
      if phase.Wanting? then
        var (reply, shared) := Performed(phase.task, s.shared, c);
        Some(AtomicState(shared, WithPhaseIn(s.threads, t, AfterTask(reply))))
      else None
    case Visible(event) =>
      var threads := EventStep(s.threads, event, s.shared.cycles, c.timeout);
      if threads.Some? then Some(s.(threads := threads.value)) else None
  }

  function AtomicRun(s: AtomicState, actions: seq<AtomicAction>, c: Config): Option<AtomicState>
    decreases |actions|
  {
    if actions == [] then Some(s)
    else
      var next := AtomicStep(s, actions[0], c);
      if next == None then None else AtomicRun(next.value, actions[1..], c)
  }

  // Refinement -------------------------------------------------------------------------------

  /** A critical section takes effect at its last access to shared state. */
  function AbstractPhase(p: Phase): Phase {
    if p.Inside? then (if p.pc.Finished? then AfterTask(p.pc.reply) else Wanting(p.task)) else p
  }

  predicate InProgress(s: State) {
    s.owner.Some? && PhaseOf(s, s.owner.value).Inside? && !PhaseOf(s, s.owner.value).pc.Finished?
  }

  function Abstract(s: State): AtomicState {
    var t := s.threads;
    AtomicState(if InProgress(s) then s.entry else s.shared,
                t.(control := AbstractPhase(t.control), connection := AbstractPhase(t.connection),
                   responder := AbstractPhase(t.responder)))
  }

  /** The atomic actions a step stands for: one where it completes a critical section, none inside or at the lock. */
  function AbstractActions(s: State, a: Action, c: Config): seq<AtomicAction> {
    match a
    case Seen(event) => [Visible(event)]
    case Executes(t) =>
      if PhaseOf(s, t).Inside? && MicroStep(PhaseOf(s, t).pc, s.shared, c).0.Finished? then [Performs(t)] else []
    case _ => []
  }

  function AbstractRun(s: State, actions: seq<Action>, c: Config): seq<AtomicAction>
    decreases |actions|
  {
    if actions == [] || Step(s, actions[0], c) == None then []
    else AbstractActions(s, actions[0], c) + AbstractRun(Step(s, actions[0], c).value, actions[1..], c)
  }

  /** The events of a run, in order. */
  function Events(actions: seq<Action>): seq<Event> {
    if actions == [] then []
    else (if actions[0].Seen? then [actions[0].event] else []) + Events(actions[1..])
  }

  function AtomicEvents(actions: seq<AtomicAction>): seq<Event> {
    if actions == [] then []
    else (if actions[0].Visible? then [actions[0].event] else []) + AtomicEvents(actions[1..])
  }

  /** Mutual exclusion, and what the section in progress is bound to do to the state it found. */
  predicate Excluded(s: State, c: Config) {
    && (forall t: Thread :: PhaseOf(s, t).Inside? <==> s.owner == Some(t))
    && (s.owner.Some? ==>
        var phase := PhaseOf(s, s.owner.value);
        && Complete(phase.pc, s.shared, c) == Performed(phase.task, s.entry, c)
        && (!phase.pc.Finished? ==> s.shared.cycles == s.entry.cycles))
  }

  lemma CyclesCountedLast(pc: Pc, sh: Shared, c: Config)
    requires !pc.Finished? && !MicroStep(pc, sh, c).0.Finished?
    ensures MicroStep(pc, sh, c).1.cycles == sh.cycles
  {}

  /** Every step keeps mutual exclusion and is simulated by its atomic actions. */
  lemma StepRefines(s: State, a: Action, c: Config)
    requires Excluded(s, c) && Step(s, a, c).Some?
    ensures var s' := Step(s, a, c).value;
            Excluded(s', c) && AtomicRun(Abstract(s), AbstractActions(s, a, c), c) == Some(Abstract(s'))
  {
    match a
    case Seen(event) => SeenRefines(s, event, c);
    case Locks(t) => LocksRefines(s, t, c);
    case Executes(t) => ExecutesRefines(s, t, c);
    case Unlocks(t) => UnlocksRefines(s, t, c);
  }

  lemma LocksRefines(s: State, t: Thread, c: Config)
    requires Excluded(s, c) && Step(s, Locks(t), c).Some?
    ensures var s' := Step(s, Locks(t), c).value; Excluded(s', c) && Abstract(s') == Abstract(s)
  {
    TaskCompletes(PhaseOf(s, t).task, s.shared, c);
  }

  lemma UnlocksRefines(s: State, t: Thread, c: Config)
    requires Excluded(s, c) && Step(s, Unlocks(t), c).Some?
    ensures var s' := Step(s, Unlocks(t), c).value; Excluded(s', c) && Abstract(s') == Abstract(s)
  {}

  lemma ExecutesRefines(s: State, t: Thread, c: Config)
    requires Excluded(s, c) && Step(s, Executes(t), c).Some?
    ensures var s' := Step(s, Executes(t), c).value;
            Excluded(s', c) && AtomicRun(Abstract(s), AbstractActions(s, Executes(t), c), c) == Some(Abstract(s'))
  {
    var phase := PhaseOf(s, t);
    assert s.owner == Some(t);
    var (pc, shared) := MicroStep(phase.pc, s.shared, c);
    assert Complete(phase.pc, s.shared, c) == Complete(pc, shared, c);
    if pc.Finished? {
      assert Complete(pc, shared, c) == (pc.reply, shared);
      OneAction(Abstract(s), Performs(t), c);
    } else {
      CyclesCountedLast(phase.pc, s.shared, c);
    }
  }

  lemma OneAction(s: AtomicState, a: AtomicAction, c: Config)
    ensures AtomicRun(s, [a], c) == AtomicStep(s, a, c)
  {
    if AtomicStep(s, a, c).Some? {
      assert [a][1..] == [];
    }
  }

  lemma SeenRefines(s: State, event: Event, c: Config)
    requires Excluded(s, c) && Step(s, Seen(event), c).Some?
    ensures var s' := Step(s, Seen(event), c).value;
            Excluded(s', c) && AtomicRun(Abstract(s), [Visible(event)], c) == Some(Abstract(s'))
  {
    OneAction(Abstract(s), Visible(event), c);
  }

  lemma {:induction false} AtomicRunConcat(s: AtomicState, first: seq<AtomicAction>, second: seq<AtomicAction>, c: Config)
    ensures AtomicRun(s, first + second, c) ==
            if AtomicRun(s, first, c).Some? then AtomicRun(AtomicRun(s, first, c).value, second, c) else None
    decreases |first|
  {
    if first == [] {
      assert first + second == second;
    } else {
      assert (first + second)[1..] == first[1..] + second;
      var next := AtomicStep(s, first[0], c);
      if next.Some? {
        AtomicRunConcat(next.value, first[1..], second, c);
      }
    }
  }

  lemma {:induction false} AtomicEventsConcat(first: seq<AtomicAction>, second: seq<AtomicAction>)
    ensures AtomicEvents(first + second) == AtomicEvents(first) + AtomicEvents(second)
  {
    if first == [] {
      assert first + second == second;
    } else {
      assert (first + second)[1..] == first[1..] + second && (first + second)[0] == first[0];
      AtomicEventsConcat(first[1..], second);
      var seen := if first[0].Visible? then [first[0].event] else [];
      assert AtomicEvents(first + second) == seen + AtomicEvents(first[1..] + second);
      assert AtomicEvents(first) == seen + AtomicEvents(first[1..]);
    }
  }

  /**
   Every interleaving of the threads' steps is a run of the atomic system: same events in the
   same order, same replies, and the same plant whenever no critical section is in progress.
   */
  lemma {:induction false} RunRefines(s: State, actions: seq<Action>, c: Config)
    requires Excluded(s, c) && Run(s, actions, c).Some?
    ensures var s' := Run(s, actions, c).value;
            && Excluded(s', c)
            && AtomicRun(Abstract(s), AbstractRun(s, actions, c), c) == Some(Abstract(s'))
            && AtomicEvents(AbstractRun(s, actions, c)) == Events(actions)
    decreases |actions|
  {
    if actions == [] {
    } else {
      var next := Step(s, actions[0], c).value;
      var first, rest := AbstractActions(s, actions[0], c), AbstractRun(next, actions[1..], c);
      StepRefines(s, actions[0], c);
      RunRefines(next, actions[1..], c);
      AtomicRunConcat(Abstract(s), first, rest, c);
      AtomicEventsConcat(first, rest);
      OneActionEvents(s, actions[0], c);
    }
  }

  lemma OneActionEvents(s: State, a: Action, c: Config)
    ensures AtomicEvents(AbstractActions(s, a, c)) == if a.Seen? then [a.event] else []
  {
    var actions := AbstractActions(s, a, c);
    if actions != [] {
      assert actions[1..] == [];
    }
  }

  predicate Belong(actions: seq<Action>, t: Thread) {
    forall i :: 0 <= i < |actions| ==> actions[i] == Executes(t) || actions[i] == Unlocks(t)
  }

  /**
   No deadlock: whoever holds the mutex can, by its own steps alone and in a bounded number of
   them, carry its critical section to the end and unlock.
   */
  lemma {:induction false} HolderReleases(s: State, t: Thread, c: Config) returns (actions: seq<Action>)
    requires Excluded(s, c) && s.owner == Some(t)
    ensures Belong(actions, t) && |actions| <= Rank(PhaseOf(s, t).pc, s.shared.plant) + 1
    ensures var (reply, shared) := Performed(PhaseOf(s, t).task, s.entry, c);
            Run(s, actions, c) == Some(WithPhase(s, t, AfterTask(reply)).(owner := None, shared := shared))
    decreases Rank(PhaseOf(s, t).pc, s.shared.plant)
  {
    assert PhaseOf(s, t).Inside?;
    var first := if PhaseOf(s, t).pc.Finished? then Unlocks(t) else Executes(t);
    var next, rest := Step(s, first, c).value, [];
    if first.Executes? {
      StepsEnd(PhaseOf(s, t).pc, s.shared, c);
      ExecutesRefines(s, t, c);
      rest := HolderReleases(next, t, c);
    } else {
      assert Complete(PhaseOf(s, t).pc, s.shared, c) == (PhaseOf(s, t).pc.reply, s.shared);
    }
    actions := [first] + rest;
    assert actions[1..] == rest;
  }

  // Where runs start -------------------------------------------------------------------------

  /** The server when its threads start. */
  function Initial(plant: Plant): State {
    var threads := Threads(Outside, Outside, Outside, WatchdogValue(false, false, 0, 0), false);
    State(Shared(plant, 0), None, threads, Shared(plant, 0))
  }

  ghost predicate Reachable(limits: seq<JointLimits>, s: State, c: Config) {
    exists actions :: Run(Initial(Booted(limits)), actions, c) == Some(s)
  }

  lemma ReachableExcluded(limits: seq<JointLimits>, s: State, c: Config)
    requires Reachable(limits, s, c)
    ensures Excluded(s, c)
  {
    var actions :| Run(Initial(Booted(limits)), actions, c) == Some(s);
    RunRefines(Initial(Booted(limits)), actions, c);
  }
}
