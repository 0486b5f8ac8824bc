/**
 Joints under control in the running server: convergence over runs in which clients go on reading
 the status and moving other joints.
 */
module Motion {
  import opened Joint
  import opened Convergence
  import opened Controller
  import opened Plant
  import opened Concurrency
  import opened Safety
  import F = FrameCodec
  import P = Payloads
  import Server

  /** A request that neither stops the motion nor concerns joint `i`. */
  predicate Quiet(request: F.Frame, i: nat) {
    match request.kind
    case Disable => false
    case Home => false
    case Stop => false
    case EmergencyStop => false
    case MoveJoint =>
      var move := P.MoveDecoding(request.payload);
      move.Err? || move.value.jointIndex != i
    case _ => true
  }

  /** What is carried out is a control cycle or a quiet request; anything may happen outside. */
  predicate Undisturbing(s: AtomicState, a: AtomicAction, i: nat) {
    match a
    case Visible(_) => true
    case Performs(Control) => true
    case Performs(Responder) => false
    case Performs(Connection) =>
      s.threads.connection.Wanting? && s.threads.connection.task.RequestTask? ==> Quiet(s.threads.connection.task.request, i)
  }

  predicate Undisturbed(s: AtomicState, actions: seq<AtomicAction>, i: nat, c: Config)
    decreases |actions|
  {
    actions != [] && AtomicStep(s, actions[0], c).Some? ==>
      Undisturbing(s, actions[0], i) && Undisturbed(AtomicStep(s, actions[0], c).value, actions[1..], i, c)
  }

  /** The number of control cycles carried out. */
  function ControlCycles(actions: seq<AtomicAction>): nat {
    if actions == [] then 0 else (if actions[0] == Performs(Control) then 1 else 0) + ControlCycles(actions[1..])
  }

  /** Joint `i` is `j`, and moving. */
  predicate MovingAs(p: Plant, i: nat, j: JointValue) {
    p.controller == Moving && i < |p.joints| && p.joints[i] == j && j.enabled
  }

  lemma QuietKeeps(p: Plant, request: F.Frame, d: Doubles, i: nat, j: JointValue)
    requires MovingAs(p, i, j) && Quiet(request, i)
    ensures MovingAs(Dispatched(p, request, d).0, i, j)
  {}

  lemma StepMoves(s: AtomicState, a: AtomicAction, i: nat, j: JointValue, c: Config)
    requires TasksAssigned(s) && MovingAs(s.shared.plant, i, j)
    requires AtomicStep(s, a, c).Some? && Undisturbing(s, a, i)
    ensures MovingAs(AtomicStep(s, a, c).value.shared.plant, i, if a == Performs(Control) then Updated(j, c.period) else j)
  {
    if a.Performs? {
      assert Assigned(a.t, AtomicPhaseOf(s, a.t).task);
      if a.t.Connection? {
        QuietKeeps(s.shared.plant, s.threads.connection.task.request, c.doubles, i, j);
      }
    }
  }

  lemma {:induction false} UpdatedFirst(j: JointValue, ns: int, n: nat)
    ensures UpdatedTimes(Updated(j, ns), ns, n) == UpdatedTimes(j, ns, n + 1)
  {
    if n == 0 {
      assert UpdatedTimes(j, ns, 1) == Updated(UpdatedTimes(j, ns, 0), ns);
    } else {
      UpdatedFirst(j, ns, n - 1);
    }
  }

  lemma {:induction false} RunMoves(s: AtomicState, actions: seq<AtomicAction>, i: nat, j: JointValue, c: Config)
    requires TasksAssigned(s) && MovingAs(s.shared.plant, i, j)
    requires AtomicRun(s, actions, c).Some? && Undisturbed(s, actions, i, c)
    ensures MovingAs(AtomicRun(s, actions, c).value.shared.plant, i, UpdatedTimes(j, c.period, ControlCycles(actions)))
    decreases |actions|
  {
    if actions == [] {
    } else {
      var a, next := actions[0], AtomicStep(s, actions[0], c).value;
      StepAssigned(s, a, c);
      StepMoves(s, a, i, j, c);
      if a == Performs(Control) {
        RunMoves(next, actions[1..], i, Updated(j, c.period), c);
        UpdatedFirst(j, c.period, ControlCycles(actions[1..]));
      } else {
        RunMoves(next, actions[1..], i, j, c);
      }
    }
  }

  lemma PeriodPositive(frequency: Server.ControlLoopFrequency)
    ensures Server.PeriodFor(frequency) > 0
  {}

  /**
   At each of the five frequencies, over every run of the server in which no request stops the
   motion or concerns joint `i` and the watchdog's response is not carried out: near its target
   the joint comes geometrically closer with every control cycle, and never past it.
   */
  lemma MovingConverges(
    limits: seq<JointLimits>, s: State, actions: seq<Action>, frequency: Server.ControlLoopFrequency,
    i: nat, factor: real, e: real, c: Config)
    requires Reachable(limits, s, c) && !InProgress(s) && Run(s, actions, c).Some?
    requires c.period == Server.PeriodFor(frequency)
    requires s.shared.plant.controller == Moving && i < |s.shared.plant.joints|
    requires LinearRegion(s.shared.plant.joints[i], Seconds(c.period))
    requires Undisturbed(Abstract(s), AbstractRun(s, actions, c), i, c)
    requires factor == 1.0 - POSITION_GAIN * Seconds(c.period) && e == Error(s.shared.plant.joints[i])
    ensures 0.0 <= factor < 1.0
    ensures var p, n := Abstract(Run(s, actions, c).value).shared.plant, ControlCycles(AbstractRun(s, actions, c));
            && p.controller == Moving && i < |p.joints|
            && Scaled(e, Power(factor, n), Error(p.joints[i])) && Towards(Error(p.joints[i]), e)
  {
    hide Run, AtomicRun, AbstractRun, Undisturbed, UpdatedTimes, Power, ControlCycles, Reachable, Excluded, Scaled;
    var j, n := s.shared.plant.joints[i], ControlCycles(AbstractRun(s, actions, c));
    PeriodPositive(frequency);
    ReachableExcluded(limits, s, c);
    ReachableBelongs(limits, s, c);
    RunRefines(s, actions, c);
    RunMoves(Abstract(s), AbstractRun(s, actions, c), i, j, c);
    GeometricConvergence(j, c.period, factor, e, n);
  }

  /** After `cycles` control cycles of an undisturbed run, joint `i` is within `eps` of its target. */
  predicate Arrived(s: State, actions: seq<Action>, i: nat, cycles: nat, eps: real, c: Config) {
    Run(s, actions, c).Some? && Undisturbed(Abstract(s), AbstractRun(s, actions, c), i, c)
    && ControlCycles(AbstractRun(s, actions, c)) >= cycles ==>
      var p := Abstract(Run(s, actions, c).value).shared.plant;
      p.controller == Moving && i < |p.joints| && Abs(Error(p.joints[i])) <= eps
  }

  /**
   At each of the five frequencies, wherever joint `i` is within its limits and however fast it
   moves, for every tolerance there is a number of control cycles after which, in every such run,
   the joint is within the tolerance of its target.
   */
  lemma MovingArrives(
    limits: seq<JointLimits>, s: State, frequency: Server.ControlLoopFrequency, i: nat, eps: real, c: Config)
    returns (cycles: nat)
    requires Reachable(limits, s, c) && !InProgress(s) && c.period == Server.PeriodFor(frequency) && eps > 0.0
    requires s.shared.plant.controller == Moving && i < |s.shared.plant.joints| && UnderControl(s.shared.plant.joints[i])
    ensures forall actions :: Arrived(s, actions, i, cycles, eps, c)
  {
    hide Run, AtomicRun, AbstractRun, Undisturbed, UpdatedTimes, ControlCycles, Reachable, Excluded;
    var j := s.shared.plant.joints[i];
    PeriodPositive(frequency);
    ReachableExcluded(limits, s, c);
    ReachableBelongs(limits, s, c);
    cycles := Arrives(j, c.period, eps);
    forall actions ensures Arrived(s, actions, i, cycles, eps, c) {
      if Run(s, actions, c).Some? && Undisturbed(Abstract(s), AbstractRun(s, actions, c), i, c) {
        RunRefines(s, actions, c);
        RunMoves(Abstract(s), AbstractRun(s, actions, c), i, j, c);
      }
    }
  }
}
