/**
 The controller state machine: two transition tables scanned in order, and the machine object
 that the handlers drive with events.
 */
module Controller {
  import opened Wrappers

  datatype ControllerState =
    | PowerOff | Booting | Initializing | Idle | ServoOff | ServoOn | Ready
    | Moving | Paused | Stopping | EmergencyStop | Fault | Recovery | Shutdown

  datatype ControllerEvent =
    | PowerOn | BootComplete | InitComplete | ServoEnable | ServoDisable | ControllerReady
    | CommandMove | MotionComplete | CommandPause | CommandResume | CommandStop | StopComplete
    | EStopTriggered | EStopReset | FaultDetected | RecoveryStart | RecoveryComplete | PowerOffRequested

  datatype Transition = Transition(from: ControllerState, event: ControllerEvent, to: ControllerState)

  const TRANSITION_TABLE: seq<Transition> := [
    Transition(PowerOff, PowerOn, Booting),
    Transition(Booting, BootComplete, Initializing),
    Transition(Initializing, InitComplete, Idle),
    Transition(Idle, ServoEnable, ServoOn),
    Transition(ServoOff, ServoEnable, ServoOn),
    Transition(ServoOn, ServoDisable, ServoOff),
    Transition(ServoOn, ControllerReady, Ready),
    Transition(Ready, ServoDisable, ServoOff),
    Transition(Ready, CommandMove, Moving),
    Transition(Moving, MotionComplete, Ready),
    Transition(Moving, CommandPause, Paused),
    Transition(Paused, CommandResume, Moving),
    Transition(Moving, CommandStop, Stopping),
    Transition(Paused, CommandStop, Stopping),
    Transition(Ready, CommandStop, Stopping),
    Transition(Stopping, StopComplete, Ready),
    Transition(ServoOn, EStopTriggered, EmergencyStop),
    Transition(Ready, EStopTriggered, EmergencyStop),
    Transition(Moving, EStopTriggered, EmergencyStop),
    Transition(Paused, EStopTriggered, EmergencyStop),
    Transition(Stopping, EStopTriggered, EmergencyStop),
    Transition(EmergencyStop, EStopReset, Ready),
    Transition(Fault, RecoveryStart, Recovery),
    Transition(Recovery, RecoveryComplete, Ready),
    Transition(Idle, PowerOffRequested, Shutdown),
    Transition(ServoOff, PowerOffRequested, Shutdown)
  ]

  const FAULT_AND_SHUTDOWN_TABLE: seq<Transition> := [
    Transition(Idle, FaultDetected, Fault),
    Transition(ServoOff, FaultDetected, Fault),
    Transition(ServoOn, FaultDetected, Fault),
    Transition(Ready, FaultDetected, Fault),
    Transition(Moving, FaultDetected, Fault),
    Transition(Paused, FaultDetected, Fault),
    Transition(Stopping, FaultDetected, Fault),
    Transition(EmergencyStop, FaultDetected, Fault),
    Transition(Ready, PowerOffRequested, Shutdown),
    Transition(Fault, PowerOffRequested, Shutdown)
  ]

  const ALL_ROWS := TRANSITION_TABLE + FAULT_AND_SHUTDOWN_TABLE

  /** The first row of `table` for this state and event, as `std::find_if` returns it. */
  function Find(table: seq<Transition>, from: ControllerState, event: ControllerEvent): (r: Option<Transition>)
    ensures r.Some? ==> r.value in table && r.value.from == from && r.value.event == event
    ensures r.None? ==> forall t :: t in table ==> !(t.from == from && t.event == event)
  {
    if table == [] then None
    else if table[0].from == from && table[0].event == event then Some(table[0])
    else Find(table[1..], from, event)
  }

  /** `findTransition`: the first table, then the second. */
  function FindTransition(from: ControllerState, event: ControllerEvent): Option<Transition> {
    var first := Find(TRANSITION_TABLE, from, event);
    if first.Some? then first else Find(FAULT_AND_SHUTDOWN_TABLE, from, event)
  }

  /** The state diagram the tables encode, arranged by event. */
  function Target(from: ControllerState, event: ControllerEvent): Option<ControllerState> {
    match event
    case PowerOn => if from == PowerOff then Some(Booting) else None
    case BootComplete => if from == Booting then Some(Initializing) else None
    case InitComplete => if from == Initializing then Some(Idle) else None
    case ServoEnable => if from.Idle? || from.ServoOff? then Some(ServoOn) else None
    case ServoDisable => if from.ServoOn? || from.Ready? then Some(ServoOff) else None
    case ControllerReady => if from.ServoOn? then Some(Ready) else None
    case CommandMove => if from.Ready? then Some(Moving) else None
    case MotionComplete => if from.Moving? then Some(Ready) else None
    case CommandPause => if from.Moving? then Some(Paused) else None
    case CommandResume => if from.Paused? then Some(Moving) else None
    case CommandStop => if from.Ready? || from.Moving? || from.Paused? then Some(Stopping) else None
    case StopComplete => if from.Stopping? then Some(Ready) else None
    case EStopTriggered =>
      if from.ServoOn? || from.Ready? || from.Moving? || from.Paused? || from.Stopping? then Some(EmergencyStop) else None
    case EStopReset => if from.EmergencyStop? then Some(Ready) else None
    case FaultDetected =>
      if from.PowerOff? || from.Booting? || from.Initializing? || from.Fault? || from.Recovery? || from.Shutdown?
      then None else Some(Fault)
    case RecoveryStart => if from.Fault? then Some(Recovery) else None
    case RecoveryComplete => if from.Recovery? then Some(Ready) else None
    case PowerOffRequested =>
      if from.Idle? || from.ServoOff? || from.Ready? || from.Fault? then Some(Shutdown) else None
  }

  lemma FirstHalfFollows(i: nat)
    requires i < 13
    ensures Target(TRANSITION_TABLE[i].from, TRANSITION_TABLE[i].event) == Some(TRANSITION_TABLE[i].to)
  {}

  lemma SecondHalfFollows(i: nat)
    requires 13 <= i < 26
    ensures Target(TRANSITION_TABLE[i].from, TRANSITION_TABLE[i].event) == Some(TRANSITION_TABLE[i].to)
  {}

  lemma FaultTableFollows(i: nat)
    requires i < 10
    ensures var t := FAULT_AND_SHUTDOWN_TABLE[i]; Target(t.from, t.event) == Some(t.to)
  {}

  /** Every row of both tables is an edge of the diagram. */
  lemma RowsFollowDiagram(t: Transition)
    requires t in ALL_ROWS
    ensures Target(t.from, t.event) == Some(t.to)
  {
    var i :| 0 <= i < |ALL_ROWS| && ALL_ROWS[i] == t;
    if i < 13 {
      FirstHalfFollows(i);
    } else if i < 26 {
      SecondHalfFollows(i);
    } else {
      FaultTableFollows(i - 26);
    }
  }

  lemma InFirstTable(from: ControllerState, event: ControllerEvent)
    requires Target(from, event).Some? && !event.FaultDetected?
    requires event.PowerOffRequested? ==> !from.Ready? && !from.Fault?
    ensures Transition(from, event, Target(from, event).value) in TRANSITION_TABLE
  {}

  /** Every edge of the diagram is a row of one of the tables. */
  lemma DiagramHasRows(from: ControllerState, event: ControllerEvent)
    requires Target(from, event).Some?
    ensures Transition(from, event, Target(from, event).value) in ALL_ROWS
  {
    var t := Transition(from, event, Target(from, event).value);
    if event.FaultDetected? || (event.PowerOffRequested? && (from.Ready? || from.Fault?)) {
      assert t in FAULT_AND_SHUTDOWN_TABLE;
    } else {
      InFirstTable(from, event);
    }
  }

  /** The rows of `rows` are the edges of the diagram, each at least once. */
  ghost predicate RowsAreEdges(rows: seq<Transition>) {
    && (forall t :: t in rows ==> Target(t.from, t.event) == Some(t.to))
    && (forall from, event :: Target(from, event).Some? ==> Transition(from, event, Target(from, event).value) in rows)
  }

  lemma AllRowsAreEdges()
    ensures RowsAreEdges(ALL_ROWS)
  {
    forall t | t in ALL_ROWS ensures Target(t.from, t.event) == Some(t.to) {
      RowsFollowDiagram(t);
    }
    forall from, event | Target(from, event).Some?
      ensures Transition(from, event, Target(from, event).value) in ALL_ROWS
    {
      DiagramHasRows(from, event);
    }
  }

  /** Scanning the edges of the diagram, in any order, computes the diagram. */
  lemma FindIsDiagram(rows: seq<Transition>, from: ControllerState, event: ControllerEvent)
    requires RowsAreEdges(rows)
    ensures var r := Find(rows, from, event);
            r == if Target(from, event).Some? then Some(Transition(from, event, Target(from, event).value)) else None
  {}

  lemma {:induction false} FindConcat(first: seq<Transition>, second: seq<Transition>, from: ControllerState, event: ControllerEvent)
    ensures Find(first + second, from, event) ==
            if Find(first, from, event).Some? then Find(first, from, event) else Find(second, from, event)
  {
    if first == [] {
      assert first + second == second;
    } else {
      assert (first + second)[1..] == first[1..] + second;
      FindConcat(first[1..], second, from, event);
    }
  }

  lemma Rearranged(rows: seq<Transition>, others: seq<Transition>)
    requires multiset(rows) == multiset(others) && RowsAreEdges(others)
    ensures RowsAreEdges(rows)
  {
    assert forall t :: t in rows <==> t in multiset(rows);
    assert forall t :: t in others <==> t in multiset(others);
    forall from, event | Target(from, event).Some?
      ensures Transition(from, event, Target(from, event).value) in rows
    {
      assert Transition(from, event, Target(from, event).value) in multiset(others);
    }
  }

  /** The two-table scan computes the diagram. */
  lemma ScanIsDiagram(from: ControllerState, event: ControllerEvent)
    ensures FindTransition(from, event) ==
            if Target(from, event).Some? then Some(Transition(from, event, Target(from, event).value)) else None
  {
    AllRowsAreEdges();
    FindIsDiagram(ALL_ROWS, from, event);
    FindConcat(TRANSITION_TABLE, FAULT_AND_SHUTDOWN_TABLE, from, event);
  }

  /**
   Splitting the rows into two tables, and their order, is immaterial: scanning any arrangement
   of the same rows as a single table gives the same transition.
   */
  lemma AnyRowOrder(rows: seq<Transition>, from: ControllerState, event: ControllerEvent)
    ensures multiset(rows) == multiset(ALL_ROWS) ==> Find(rows, from, event) == FindTransition(from, event)
  {
    if multiset(rows) == multiset(ALL_ROWS) {
      AllRowsAreEdges();
      Rearranged(rows, ALL_ROWS);
      FindIsDiagram(rows, from, event);
      ScanIsDiagram(from, event);
    }
  }

  predicate KeysDiffer(t: Transition, u: Transition) {
    t.from != u.from || t.event != u.event
  }

  lemma FirstHalfKeys(i: nat, j: nat)
    requires i < j < 13
    ensures KeysDiffer(TRANSITION_TABLE[i], TRANSITION_TABLE[j])
  {}

  lemma SecondHalfKeys(i: nat, j: nat)
    requires 13 <= i < j < 26
    ensures KeysDiffer(TRANSITION_TABLE[i], TRANSITION_TABLE[j])
  {}

  lemma HalvesApart(i: nat, j: nat)
    requires i < 13 <= j < 26
    ensures KeysDiffer(TRANSITION_TABLE[i], TRANSITION_TABLE[j])
  {}

  lemma SecondTableKeys(i: nat, j: nat)
    requires i < j < 10
    ensures KeysDiffer(FAULT_AND_SHUTDOWN_TABLE[i], FAULT_AND_SHUTDOWN_TABLE[j])
  {}

  lemma TablesApart(i: nat, j: nat)
    requires i < 26 && j < 10
    ensures KeysDiffer(TRANSITION_TABLE[i], FAULT_AND_SHUTDOWN_TABLE[j])
  {}

  /** No two of the 36 rows have the same state and event. */
  lemma KeysUnique(i: nat, j: nat)
    requires i < j < |ALL_ROWS|
    ensures |ALL_ROWS| == 36 && KeysDiffer(ALL_ROWS[i], ALL_ROWS[j])
  {
    if j < 13 {
      FirstHalfKeys(i, j);
    } else if j < 26 && i < 13 {
      HalvesApart(i, j);
    } else if j < 26 {
      SecondHalfKeys(i, j);
    } else if i < 26 {
      TablesApart(i, j - 26);
    } else {
      SecondTableKeys(i - 26, j - 26);
    }
  }

  /** The state after an event: a rejected event leaves it unchanged. */
  function Fire(s: ControllerState, e: ControllerEvent): ControllerState {
    if Target(s, e).Some? then Target(s, e).value else s
  }

  function FireAll(s: ControllerState, events: seq<ControllerEvent>): ControllerState
    decreases |events|
  {
    if events == [] then s else FireAll(Fire(s, events[0]), events[1..])
  }

  /** Every state but Shutdown can be brought to Ready; Shutdown never changes. */
  lemma ReadyReachable(s: ControllerState)
    ensures (exists events :: FireAll(s, events) == Ready) <==> s != Shutdown
  {
    if s == Shutdown {
      forall events ensures FireAll(s, events) == Shutdown {
        ShutdownAbsorbing(events);
      }
    } else {
      var last := [ServoEnable, ControllerReady];
      var events := match s {
        case PowerOff => [PowerOn, BootComplete, InitComplete] + last
        case Booting => [BootComplete, InitComplete] + last
        case Initializing => [InitComplete] + last
        case Idle => last
        case ServoOff => last
        case ServoOn => [ControllerReady]
        case Ready => []
        case Moving => [MotionComplete]
        case Paused => [CommandResume, MotionComplete]
        case Stopping => [StopComplete]
        case EmergencyStop => [EStopReset]
        case Fault => [RecoveryStart, RecoveryComplete]
        case Recovery => [RecoveryComplete]
      };
      Unfold(s, events);
    }
  }

  /** Runs of up to five events, unfolded. */
  lemma Unfold(s: ControllerState, events: seq<ControllerEvent>)
    requires |events| <= 5
    ensures FireAll(s, events) ==
            var s1 := if |events| > 0 then Fire(s, events[0]) else s;
            var s2 := if |events| > 1 then Fire(s1, events[1]) else s1;
            var s3 := if |events| > 2 then Fire(s2, events[2]) else s2;
            var s4 := if |events| > 3 then Fire(s3, events[3]) else s3;
            if |events| > 4 then Fire(s4, events[4]) else s4
    decreases |events|
  {
    if |events| <= 1 {
    } else {
      Unfold(Fire(s, events[0]), events[1..]);
    }
  }

  lemma {:induction false} ShutdownAbsorbing(events: seq<ControllerEvent>)
    ensures FireAll(Shutdown, events) == Shutdown
  {
    if events == [] {
    } else {
      assert Fire(Shutdown, events[0]) == Shutdown;
      ShutdownAbsorbing(events[1..]);
    }
  }

  /**
   Motion after an emergency stop needs a deliberate EStopReset or a completed recovery since
   then, whatever else was fired, accepted or not.
   */
  lemma {:induction false} MotionAfterEStop(s: ControllerState, events: seq<ControllerEvent>)
    requires s in {EmergencyStop, Fault, Recovery, Shutdown}
    requires EStopReset !in events && RecoveryComplete !in events
    ensures FireAll(s, events) in {EmergencyStop, Fault, Recovery, Shutdown}
    decreases |events|
  {
    if events == [] {
    } else {
      MotionAfterEStop(Fire(s, events[0]), events[1..]);
    }
  }

  /** Motion after the servos were off needs ServoEnable or a completed recovery since then. */
  lemma {:induction false} MotionAfterServoOff(s: ControllerState, events: seq<ControllerEvent>)
    requires s in {Idle, ServoOff, Fault, Recovery, Shutdown}
    requires ServoEnable !in events && RecoveryComplete !in events
    ensures FireAll(s, events) in {Idle, ServoOff, Fault, Recovery, Shutdown}
    decreases |events|
  {
    if events == [] {
    } else {
      MotionAfterServoOff(Fire(s, events[0]), events[1..]);
    }
  }

  datatype ControllerError = InvalidTransition

  class ControllerStateMachine {
    var state: ControllerState

    constructor ()
      ensures state == PowerOff
    {
      state := PowerOff;
    }

    predicate CanHandle(event: ControllerEvent)
      reads this
      ensures CanHandle(event) <==> Target(state, event).Some?
    {
      ScanIsDiagram(state, event);
      FindTransition(state, event).Some?
    }

    /** Applies `event` if the tables have a row for it; otherwise the state is untouched. */
    method HandleEvent(event: ControllerEvent) returns (r: Result<(), ControllerError>)
      modifies this
      ensures state == Fire(old(state), event)
      ensures r == if Target(old(state), event).Some? then Ok(()) else Err(InvalidTransition)
    {
      ScanIsDiagram(state, event);
      var transition := FindTransition(state, event);
      if transition.None? {
        return Err(InvalidTransition);
      }
      state := transition.value.to;
      return Ok(());
    }
  }

  function Name(s: ControllerState): string {
    match s
    case PowerOff => "PowerOff"
    case Booting => "Booting"
    case Initializing => "Initializing"
    case Idle => "Idle"
    case ServoOff => "ServoOff"
    case ServoOn => "ServoOn"
    case Ready => "Ready"
    case Moving => "Moving"
    case Paused => "Paused"
    case Stopping => "Stopping"
    case EmergencyStop => "EmergencyStop"
    case Fault => "Fault"
    case Recovery => "Recovery"
    case Shutdown => "Shutdown"
  }

  /** Each state goes by the name of its own. */
  lemma Named(s: ControllerState)
    ensures (Name(s) == "PowerOff" <==> s == PowerOff) && (Name(s) == "Booting" <==> s == Booting)
    ensures (Name(s) == "Initializing" <==> s == Initializing) && (Name(s) == "Idle" <==> s == Idle)
    ensures (Name(s) == "ServoOff" <==> s == ServoOff) && (Name(s) == "ServoOn" <==> s == ServoOn)
    ensures (Name(s) == "Ready" <==> s == Ready) && (Name(s) == "Moving" <==> s == Moving)
    ensures (Name(s) == "Paused" <==> s == Paused) && (Name(s) == "Stopping" <==> s == Stopping)
    ensures (Name(s) == "EmergencyStop" <==> s == EmergencyStop) && (Name(s) == "Fault" <==> s == Fault)
    ensures (Name(s) == "Recovery" <==> s == Recovery) && (Name(s) == "Shutdown" <==> s == Shutdown)
  {
  }

  /** The names tell the states apart and have at most 13 characters. */
  lemma NamesDistinct(s: ControllerState, t: ControllerState)
    ensures Name(s) == Name(t) <==> s == t
    ensures 4 <= |Name(s)| <= 13
  {
  }
}
