/**
 The watchdog's response thread: when it asks for the mutex, what its one emergency stop achieves,
 and what is lost when that stop finds the robot in Idle or ServoOff.
 */
module StallResponse {
  import opened Wrappers
  import opened Joint
  import opened Controller
  import opened Plant
  import opened Watchdog
  import opened Concurrency
  import opened Safety
  import opened EmergencyStopLatch
  import opened ServerWatchdog

  // When the responder asks for the mutex --------------------------------------------------------

  /**
   The watchdog's response is given once: after it has been given, the responder never asks for
   the mutex again, whatever the watchdog reports.
   */
  lemma {:induction false} ResponseIsOneShot(s: State, actions: seq<Action>, c: Config)
    requires s.threads.tripHandled && s.threads.responder == Outside && Run(s, actions, c).Some?
    ensures var s' := Run(s, actions, c).value; s'.threads.tripHandled && s'.threads.responder == Outside
    decreases |actions|
  {
    if actions == [] {
    } else {
      ResponseIsOneShot(Step(s, actions[0], c).value, actions[1..], c);
    }
  }

  lemma {:induction false} UnhandledIsOutside(s: State, actions: seq<Action>, c: Config)
    requires (s.threads.tripHandled || s.threads.responder == Outside) && Run(s, actions, c).Some?
    ensures var s' := Run(s, actions, c).value; s'.threads.tripHandled || s'.threads.responder == Outside
    decreases |actions|
  {
    if actions == [] {
    } else {
      UnhandledIsOutside(Step(s, actions[0], c).value, actions[1..], c);
    }
  }

  function Later(x: int, y: int): int {
    if x < y then y else x
  }

  /** The watchdog polls twice without a cycle in between, not before `now`, and the responder wakes. */
  function StallAndWake(s: State, now: int, c: Config): seq<Action> {
    var first := if s.threads.watchdog.running then Later(now, s.threads.watchdog.lastChangeTime) else now;
    [Seen(if s.threads.watchdog.running then WatchdogPolls(first) else WatchdogStarts(first)),
     Seen(WatchdogPolls(first + Later(c.timeout, 0))), Seen(ResponderWakes)]
  }

  /** The responder asks for the mutex in the course of the run. */
  predicate Asks(s: State, actions: seq<Action>, c: Config)
    decreases |actions|
  {
    actions != [] && Step(s, actions[0], c).Some?
    && (AsksNow(s, actions[0], c) || Asks(Step(s, actions[0], c).value, actions[1..], c))
  }

  /** The same, to quantify over. */
  predicate AsksIn(s: State, actions: seq<Action>, c: Config) {
    Asks(s, actions, c)
  }

  predicate AsksNow(s: State, a: Action, c: Config)
    requires Step(s, a, c).Some?
  {
    s.threads.responder == Outside && Step(s, a, c).value.threads.responder == Wanting(TriggerTask)
  }

  lemma StallWakes(s: State, now: int, c: Config)
    requires !s.threads.tripHandled && s.threads.responder == Outside
    ensures Run(s, StallAndWake(s, now, c), c).Some?
    ensures var r := Run(s, StallAndWake(s, now, c), c).value;
            && r.threads.responder == Wanting(TriggerTask) && r.threads.tripHandled
            && r.shared == s.shared && r.owner == s.owner
    ensures Asks(s, StallAndWake(s, now, c), c)
  {
    var actions := StallAndWake(s, now, c);
    var s1 := Step(s, actions[0], c).value;
    var s2 := Step(s1, actions[1], c).value;
    assert s2.threads.watchdog.tripped;
    var s3 := Step(s2, actions[2], c).value;
    assert actions[1..][0] == actions[1] && actions[1..][1..] == [actions[2]];
    assert [actions[2]][1..] == [];
    assert Run(s2, [actions[2]], c) == Some(s3);
    assert Run(s1, actions[1..], c) == Some(s3);
    assert Asks(s2, [actions[2]], c) && Asks(s1, actions[1..], c);
  }

  lemma {:induction false} HandledNeverAsks(s: State, actions: seq<Action>, c: Config)
    requires s.threads.tripHandled
    ensures !Asks(s, actions, c)
    decreases |actions|
  {
    if actions == [] || Step(s, actions[0], c).None? {
    } else {
      HandledNeverAsks(Step(s, actions[0], c).value, actions[1..], c);
    }
  }

  /**
   From every reachable state, the responder asks for the mutex in some continuation exactly if no
   trip has been handled yet.
   */
  lemma AsksAgainIff(limits: seq<JointLimits>, s: State, c: Config)
    requires Reachable(limits, s, c)
    ensures !s.threads.tripHandled ==> s.threads.responder == Outside
    ensures (exists actions :: AsksIn(s, actions, c)) <==> !s.threads.tripHandled
  {
    var start := Initial(Booted(limits));
    var before :| Run(start, before, c) == Some(s);
    UnhandledIsOutside(start, before, c);
    if s.threads.tripHandled {
      forall actions ensures !AsksIn(s, actions, c) {
        HandledNeverAsks(s, actions, c);
      }
    } else {
      StallWakes(s, 0, c);
      var actions := StallAndWake(s, 0, c);
      assert AsksIn(s, actions, c);
    }
  }

  lemma BootedExcluded(limits: seq<JointLimits>, actions: seq<Action>, c: Config)
    requires Run(Initial(Booted(limits)), actions, c).Some?
    ensures Excluded(Run(Initial(Booted(limits)), actions, c).value, c)
  {
    RunRefines(Initial(Booted(limits)), actions, c);
  }

  /** A trip can be handled without effect: a stall right after booting is answered in Idle. */
  lemma HandledInIdle(limits: seq<JointLimits>, c: Config) returns (actions: seq<Action>)
    ensures var r := Run(Initial(Booted(limits)), actions, c);
            && r.Some? && Reachable(limits, r.value, c)
            && r.value.threads.tripHandled && r.value.threads.responder == Outside
            && r.value.shared.plant.controller == Idle
  {
    hide StallAndWake, AbstractRun, AtomicRun, MicroStep, EventStep, Excluded, Complete;
    var start, stall := Initial(Booted(limits)), StallAndWake(Initial(Booted(limits)), 0, c);
    StallWakes(start, 0, c);
    var woken := Run(start, stall, c).value;
    var lock := [Locks(Responder)];
    var locked := Step(woken, Locks(Responder), c).value;
    assert lock[1..] == [] && Run(woken, lock, c) == Some(locked);
    RunConcat(start, stall, lock, c);
    BootedExcluded(limits, stall + lock, c);
    var section := HolderReleases(locked, Responder, c);
    RunConcat(start, stall + lock, section, c);
    actions := stall + lock + section;
  }

  // What the response achieves -------------------------------------------------------------------

  /** The controller state the responder's section finds, when it is carried out. */
  function FoundByResponder(s: AtomicState, actions: seq<AtomicAction>, c: Config): Option<ControllerState>
    decreases |actions|
  {
    if actions == [] || AtomicStep(s, actions[0], c).None? then None
    else if actions[0] == Performs(Responder) then Some(s.shared.plant.controller)
    else FoundByResponder(AtomicStep(s, actions[0], c).value, actions[1..], c)
  }

  /** The response has not been carried out yet. */
  predicate ResponsePending(s: AtomicState) {
    s.threads.responder == Wanting(TriggerTask) || (!s.threads.tripHandled && s.threads.responder == Outside)
  }

  lemma {:induction false} ResponseLatches(s: AtomicState, actions: seq<AtomicAction>, n: nat, c: Config)
    requires TasksAssigned(s) && AtomicConsistent(s, n, c) && ResponsePending(s) && AtomicRun(s, actions, c).Some?
    requires var s' := AtomicRun(s, actions, c).value; s'.threads.tripHandled && s'.threads.responder == Outside
    ensures var found := FoundByResponder(s, actions, c);
            && found.Some?
            && (found == Some(Idle) || found == Some(ServoOff)
                || AtomicRun(s, actions, c).value.shared.plant.controller == EmergencyStop)
    decreases |actions|
  {
    if actions == [] {
    } else {
      var next := AtomicStep(s, actions[0], c).value;
      StepAssigned(s, actions[0], c);
      if actions[0] == Performs(Responder) {
        var p := next.shared.plant;
        if p.controller == EmergencyStop {
          RunFrozen(p, next, actions[1..], c, false);
        }
      } else {
        AtomicStepConsistent(s, actions[0], n, c);
        StillPending(s, actions[0], c);
        ResponseLatches(next, actions[1..], n, c);
      }
    }
  }

  lemma StillPending(s: AtomicState, a: AtomicAction, c: Config)
    requires ResponsePending(s) && AtomicStep(s, a, c).Some? && a != Performs(Responder)
    ensures ResponsePending(AtomicStep(s, a, c).value)
  {}

  /**
   In every run in which a trip is handled, the response is carried out, and the server is in
   EmergencyStop from then on: unless the section found Idle or ServoOff.
   */
  lemma ResponseStops(limits: seq<JointLimits>, s: State, actions: seq<Action>, c: Config)
    requires Reachable(limits, s, c) && !s.threads.tripHandled && Run(s, actions, c).Some?
    requires var s' := Run(s, actions, c).value; s'.threads.tripHandled && s'.threads.responder == Outside
    ensures var s', found := Run(s, actions, c).value, FoundByResponder(Abstract(s), AbstractRun(s, actions, c), c);
            && found.Some?
            && (found == Some(Idle) || found == Some(ServoOff) || Abstract(s').shared.plant.controller == EmergencyStop)
  {
    AsksAgainIff(limits, s, c);
    ReachableExcluded(limits, s, c);
    ReachableBelongs(limits, s, c);
    ReachableConsistent(limits, s, c);
    RunRefines(s, actions, c);
    ResponseLatches(Abstract(s), AbstractRun(s, actions, c), |limits|, c);
  }

  /** After a trip the response can always be completed, whoever holds the mutex when it happens. */
  lemma ResponseCompletes(s: State, c: Config) returns (actions: seq<Action>)
    requires Excluded(s, c) && s.threads.watchdog.tripped && !s.threads.tripHandled && s.threads.responder == Outside
    ensures Run(s, actions, c).Some?
    ensures var s' := Run(s, actions, c).value; s'.threads.tripHandled && s'.threads.responder == Outside
  {
    var release: seq<Action> := [];
    if s.owner.Some? {
      release := HolderReleases(s, s.owner.value, c);
    }
    RunRefines(s, release, c);
    var s1 := Run(s, release, c).value;
    assert s1.owner == None && s1.threads.responder == Outside && s1.threads.watchdog == s.threads.watchdog && !s1.threads.tripHandled;
    var wake := [Seen(ResponderWakes), Locks(Responder)];
    WakesAndLocks(s1, c);
    RunRefines(s1, wake, c);
    var s2 := Run(s1, wake, c).value;
    var trigger := HolderReleases(s2, Responder, c);
    RunConcat(s, release, wake, c);
    RunConcat(s, release + wake, trigger, c);
    actions := release + wake + trigger;
  }

  lemma WakesAndLocks(s: State, c: Config)
    requires s.owner == None && s.threads.responder == Outside && s.threads.watchdog.tripped && !s.threads.tripHandled
    ensures var r := Run(s, [Seen(ResponderWakes), Locks(Responder)], c);
            && r.Some? && r.value.owner == Some(Responder) && r.value.threads.tripHandled
            && r.value.threads.responder == Inside(TriggerTask, Concurrency.Start(TriggerTask))
  {
    var actions := [Seen(ResponderWakes), Locks(Responder)];
    var s1 := Step(s, actions[0], c).value;
    assert actions[1..] == [Locks(Responder)] && [Locks(Responder)][1..] == [];
    assert Run(s1, [Locks(Responder)], c) == Step(s1, Locks(Responder), c);
  }

  /**
   A stalled control thread stops the robot: if no cycle is completed from time s on, polls are at
   most g apart, and the trip this makes by s + timeout + 2 g is the first to be handled, then in
   every run on which the response is over, the server is in EmergencyStop, unless the response
   found it in Idle or ServoOff. And the response can always be completed.
   */
  lemma StallStops(
    limits: seq<JointLimits>, before: seq<Action>, after: seq<Action>, s: int, g: int, now: int,
    rest: seq<Action>, c: Config)
    returns (response: seq<Action>)
    requires c.timeout > 0 && g >= 0 && now >= s + c.timeout + 2 * g
    requires var start := Initial(Booted(limits));
             var h, h' := HistoryOf(start, before, c, History(0, [])), HistoryOf(start, before + after, c, History(0, []));
             && Run(start, before, c).Some? && Run(start, before + after, c).Some?
             && Chronological(h'.readings) && PolledEvery(h'.readings, g, now) && StalledSince(h, h', s)
    requires var tripped := Run(Initial(Booted(limits)), before + after, c).value;
             && !tripped.threads.tripHandled && Run(tripped, rest, c).Some?
             && Run(tripped, rest, c).value.threads.tripHandled && Run(tripped, rest, c).value.threads.responder == Outside
    ensures var tripped := Run(Initial(Booted(limits)), before + after, c).value;
            var found := FoundByResponder(Abstract(tripped), AbstractRun(tripped, rest, c), c);
            && tripped.threads.watchdog.tripped && found.Some?
            && (found == Some(Idle) || found == Some(ServoOff)
                || Abstract(Run(tripped, rest, c).value).shared.plant.controller == EmergencyStop)
            && Run(tripped, response, c).Some?
            && Run(tripped, response, c).value.threads.tripHandled && Run(tripped, response, c).value.threads.responder == Outside
  {
    hide Step, AbstractRun, FoundByResponder, HistoryOf, Excluded;
    var tripped := Run(Initial(Booted(limits)), before + after, c).value;
    StallTrips(limits, before, after, s, g, now, c);
    assert Reachable(limits, tripped, c);
    ReachableExcluded(limits, tripped, c);
    AsksAgainIff(limits, tripped, c);
    ResponseStops(limits, tripped, rest, c);
    response := ResponseCompletes(tripped, c);
  }

  // What is lost otherwise -----------------------------------------------------------------------

  /** A client's EmergencyStop request fires its event in the course of the run. */
  predicate ClientStops(s: State, actions: seq<Action>, c: Config)
    decreases |actions|
  {
    actions != [] && Step(s, actions[0], c).Some?
    && (StopsNow(s, actions[0]) || ClientStops(Step(s, actions[0], c).value, actions[1..], c))
  }

  predicate StopsNow(s: State, a: Action) {
    && a == Executes(Connection) && s.threads.connection.Inside? && s.threads.connection.pc == FireEStop(true)
    && s.threads.connection.task.RequestTask? && s.threads.connection.task.request.kind.EmergencyStop?
  }

  lemma OnlyClientStops(s: State, a: Action, c: Config)
    requires AllBelong(s) && s.threads.responder == Outside && Step(s, a, c).Some?
    requires s.shared.plant.controller != EmergencyStop && Step(s, a, c).value.shared.plant.controller == EmergencyStop
    ensures StopsNow(s, a)
  {
    assert PhaseBelongs(s, a.t);
    OnlyEStopStops(PhaseOf(s, a.t).pc, s.shared, c);
  }

  lemma OnlyEStopStops(pc: Pc, sh: Shared, c: Config)
    requires sh.plant.controller != EmergencyStop && MicroStep(pc, sh, c).1.plant.controller == EmergencyStop
    ensures pc.FireEStop?
  {}

  lemma HandledStays(s: State, a: Action, c: Config)
    requires s.threads.tripHandled && s.threads.responder == Outside && Step(s, a, c).Some?
    ensures var s' := Step(s, a, c).value; s'.threads.tripHandled && s'.threads.responder == Outside
  {}

  lemma {:induction false} StallsIgnored(s: State, actions: seq<Action>, c: Config)
    requires Excluded(s, c) && AllBelong(s) && s.threads.tripHandled && s.threads.responder == Outside
    requires s.shared.plant.controller != EmergencyStop && Run(s, actions, c).Some?
    ensures Run(s, actions, c).value.shared.plant.controller == EmergencyStop ==> ClientStops(s, actions, c)
    decreases |actions|
  {
    hide MicroStep, EventStep, Excluded, AllBelong;
    if actions == [] {
    } else {
      var a, next := actions[0], Step(s, actions[0], c).value;
      StepRefines(s, a, c);
      StepBelongs(s, a, c);
      HandledStays(s, a, c);
      if next.shared.plant.controller == EmergencyStop {
        OnlyClientStops(s, a, c);
      } else {
        StallsIgnored(next, actions[1..], c);
      }
    }
  }

  /**
   After a trip that was handled without effect, no stall of the control thread ever stops the
   robot again: only a client's EmergencyStop request does.
   */
  lemma LaterStallsIgnored(limits: seq<JointLimits>, s: State, actions: seq<Action>, c: Config)
    requires Reachable(limits, s, c) && s.threads.tripHandled && s.threads.responder == Outside
    requires s.shared.plant.controller != EmergencyStop && Run(s, actions, c).Some?
    ensures Run(s, actions, c).value.shared.plant.controller == EmergencyStop ==> ClientStops(s, actions, c)
  {
    ReachableExcluded(limits, s, c);
    ReachableBelongs(limits, s, c);
    StallsIgnored(s, actions, c);
  }
}
