/**
 What the running server owes its client: every frame that arrives is carried out once, in its
 turn and as one section, and answered by the reply it calls for. Stated over the frames that
 arrive and the replies that are sent, not over the tasks by which the threads pass them on.
 */
module Requests {
  import opened Wrappers
  import opened Joint
  import opened Plant
  import opened Concurrency
  import F = FrameCodec

  // One request --------------------------------------------------------------------------------

  /** Neither does a frame arrive nor is a reply sent. */
  predicate Quiet(actions: seq<AtomicAction>) {
    forall a <- actions :: a.Visible? ==> !a.event.FrameArrives? && !a.event.ReplySent?
  }

  /** The k-th action, and no other, is the connection's section. */
  predicate OnlySection(actions: seq<AtomicAction>, k: nat) {
    forall i :: 0 <= i < |actions| ==> (actions[i] == Performs(Connection) <==> i == k)
  }

  /** While the reply is under way, the connection does nothing. */
  lemma {:induction false} ReplyWaits(s: AtomicState, actions: seq<AtomicAction>, reply: F.Frame, c: Config)
    requires s.threads.connection == Replying(reply) && Quiet(actions) && AtomicRun(s, actions, c).Some?
    ensures AtomicRun(s, actions, c).value.threads.connection == Replying(reply)
    ensures Performs(Connection) !in actions
    decreases |actions|
  {
    if actions == [] {
    } else {
      assert actions[0] in actions;
      ReplyWaits(AtomicStep(s, actions[0], c).value, actions[1..], reply, c);
    }
  }

  /** Before the section, the others may act; `k` is where it comes. */
  lemma {:induction false} SectionComes(s: AtomicState, r: F.Frame, actions: seq<AtomicAction>, c: Config)
    returns (k: nat)
    requires s.threads.connection == Wanting(RequestTask(r)) && Quiet(actions) && AtomicRun(s, actions, c).Some?
    requires AtomicRun(s, actions, c).value.threads.connection.Replying?
    ensures k < |actions| && OnlySection(actions, k) && AtomicRun(s, actions[..k], c).Some?
    ensures var p := AtomicRun(s, actions[..k], c).value.shared.plant;
            && AtomicRun(s, actions[..k + 1], c).Some?
            && AtomicRun(s, actions[..k + 1], c).value.shared.plant == Dispatched(p, r, c.doubles).0
            && AtomicRun(s, actions, c).value.threads.connection == Replying(Dispatched(p, r, c.doubles).1)
    decreases |actions|
  {
    hide Dispatched;
    assert actions != [];
    var first, rest := actions[0], actions[1..];
    var next := AtomicStep(s, first, c).value;
    assert first in actions;
    if first == Performs(Connection) {
      k := 0;
      ReplyWaits(next, rest, Dispatched(s.shared.plant, r, c.doubles).1, c);
      assert actions[..0] == [] && actions[..1] == [first];
      OneAction(s, first, c);
      assert forall i :: 0 < i < |actions| ==> actions[i] == rest[i - 1] && rest[i - 1] in rest;
    } else {
      var j := SectionComes(next, r, rest, c);
      k := j + 1;
      assert actions[..k][1..] == rest[..j] && actions[..k + 1][1..] == rest[..j + 1];
      assert forall i :: 0 < i < |actions| ==> actions[i] == rest[i - 1];
    }
  }

  /**
   Between the arrival of a frame and the next reply there is exactly one section of the
   connection. It carries out that frame on the plant it finds, and the reply is the frame's.
   */
  lemma OneSectionPerRequest(s: AtomicState, r: F.Frame, between: seq<AtomicAction>, reply: F.Frame, c: Config)
    returns (k: nat)
    requires Quiet(between)
    requires AtomicRun(s, [Visible(FrameArrives(r))] + between + [Visible(ReplySent(reply))], c).Some?
    ensures k < |between| && OnlySection(between, k)
    ensures var found := AtomicRun(s, [Visible(FrameArrives(r))] + between[..k], c);
            var left := AtomicRun(s, [Visible(FrameArrives(r))] + between[..k + 1], c);
            && found.Some? && left.Some?
            && left.value.shared.plant == Dispatched(found.value.shared.plant, r, c.doubles).0
            && reply == Dispatched(found.value.shared.plant, r, c.doubles).1
  {
    hide Dispatched;
    var arrives, sends := [Visible(FrameArrives(r))], [Visible(ReplySent(reply))];
    AtomicRunConcat(s, arrives + between, sends, c);
    AtomicRunConcat(s, arrives, between, c);
    OneAction(s, Visible(FrameArrives(r)), c);
    var s1 := AtomicRun(s, arrives, c).value;
    OneAction(AtomicRun(s1, between, c).value, Visible(ReplySent(reply)), c);
    k := SectionComes(s1, r, between, c);
    AtomicRunConcat(s, arrives, between[..k], c);
    AtomicRunConcat(s, arrives, between[..k + 1], c);
  }

  // All requests of a run ------------------------------------------------------------------------

  /** Frames and replies in the order of their events, and the plant before and after each section of the connection. */
  datatype Ledger = Ledger(arrived: seq<F.Frame>, served: seq<(Plant, Plant)>, sent: seq<F.Frame>)

  function Entered(l: Ledger, a: AtomicAction, before: Plant, after: Plant): Ledger {
    match a
    case Visible(FrameArrives(r)) => l.(arrived := l.arrived + [r])
    case Visible(ReplySent(reply)) => l.(sent := l.sent + [reply])
    case Performs(Connection) => l.(served := l.served + [(before, after)])
    case _ => l
  }

  function Kept(l: Ledger, s: AtomicState, actions: seq<AtomicAction>, c: Config): Ledger
    decreases |actions|
  {
    if actions == [] || AtomicStep(s, actions[0], c).None? then l
    else
      var next := AtomicStep(s, actions[0], c).value;
      Kept(Entered(l, actions[0], s.shared.plant, next.shared.plant), next, actions[1..], c)
  }

  function LedgerOf(limits: seq<JointLimits>, actions: seq<Action>, c: Config): Ledger {
    var start := Initial(Booted(limits));
    Kept(Ledger([], [], []), Abstract(start), AbstractRun(start, actions, c), c)
  }

  function Arrivals(events: seq<Event>): seq<F.Frame> {
    if events == [] then []
    else (if events[0].FrameArrives? then [events[0].request] else []) + Arrivals(events[1..])
  }

  function Replies(events: seq<Event>): seq<F.Frame> {
    if events == [] then []
    else (if events[0].ReplySent? then [events[0].reply] else []) + Replies(events[1..])
  }

  /** The i-th section carries out the i-th frame, and the i-th reply is what it calls for. */
  predicate Honoured(l: Ledger, d: Doubles) {
    && |l.sent| <= |l.served| <= |l.arrived| <= |l.sent| + 1
    && (forall i :: 0 <= i < |l.served| ==> l.served[i].1 == Dispatched(l.served[i].0, l.arrived[i], d).0)
    && (forall i :: 0 <= i < |l.sent| ==> l.sent[i] == Dispatched(l.served[i].0, l.arrived[i], d).1)
  }

  /** Where the connection is with the last frame. */
  predicate Underway(l: Ledger, connection: Phase, d: Doubles) {
    match connection
    case Outside => |l.sent| == |l.arrived|
    case Wanting(task) => |l.served| < |l.arrived| && task == RequestTask(l.arrived[|l.served|])
    case Inside(_, _) => false
    case Replying(reply) =>
      |l.sent| < |l.served| == |l.arrived| && reply == Dispatched(l.served[|l.sent|].0, l.arrived[|l.sent|], d).1
  }

  lemma EnteredHonoured(l: Ledger, s: AtomicState, a: AtomicAction, c: Config)
    requires Honoured(l, c.doubles) && Underway(l, s.threads.connection, c.doubles) && AtomicStep(s, a, c).Some?
    ensures var next := AtomicStep(s, a, c).value;
            var l' := Entered(l, a, s.shared.plant, next.shared.plant);
            Honoured(l', c.doubles) && Underway(l', next.threads.connection, c.doubles)
  {
    hide Dispatched;
  }

  lemma {:induction false} KeptHonoured(l: Ledger, s: AtomicState, actions: seq<AtomicAction>, c: Config)
    requires Honoured(l, c.doubles) && Underway(l, s.threads.connection, c.doubles) && AtomicRun(s, actions, c).Some?
    ensures var l', s' := Kept(l, s, actions, c), AtomicRun(s, actions, c).value;
            Honoured(l', c.doubles) && Underway(l', s'.threads.connection, c.doubles)
    decreases |actions|
  {
    hide Honoured, Underway, AtomicStep, Entered;
    if actions == [] {
    } else {
      var next := AtomicStep(s, actions[0], c).value;
      EnteredHonoured(l, s, actions[0], c);
      KeptHonoured(Entered(l, actions[0], s.shared.plant, next.shared.plant), next, actions[1..], c);
    }
  }

  /** The ledger has the frames and the replies of the run's events. */
  lemma {:induction false} KeptEvents(l: Ledger, s: AtomicState, actions: seq<AtomicAction>, c: Config)
    requires AtomicRun(s, actions, c).Some?
    ensures Kept(l, s, actions, c).arrived == l.arrived + Arrivals(AtomicEvents(actions))
    ensures Kept(l, s, actions, c).sent == l.sent + Replies(AtomicEvents(actions))
    decreases |actions|
  {
    hide AtomicStep, Entered, Arrivals, Replies;
    if actions == [] {
      NothingEntered(l);
    } else {
      var a, next := actions[0], AtomicStep(s, actions[0], c).value;
      KeptEvents(Entered(l, a, s.shared.plant, next.shared.plant), next, actions[1..], c);
      EnteredEvents(l, a, s.shared.plant, next.shared.plant, AtomicEvents(actions[1..]));
    }
  }

  lemma NothingEntered(l: Ledger)
    ensures l.arrived + Arrivals([]) == l.arrived && l.sent + Replies([]) == l.sent
  {}

  lemma EnteredEvents(l: Ledger, a: AtomicAction, before: Plant, after: Plant, events: seq<Event>)
    ensures var l', seen := Entered(l, a, before, after), if a.Visible? then [a.event] else [];
            && l'.arrived + Arrivals(events) == l.arrived + Arrivals(seen + events)
            && l'.sent + Replies(events) == l.sent + Replies(seen + events)
  {
    if a.Visible? {
      assert ([a.event] + events)[1..] == events;
    } else {
      assert [] + events == events;
    }
  }

  /**
   In every run of the server, in whatever order its threads take their steps: the frames that
   arrived are carried out one by one in the order of their arrival, each reply that was sent is the
   one its frame calls for on the plant its section found, and at most one frame is unanswered.
   */
  lemma EveryRequestHonoured(limits: seq<JointLimits>, actions: seq<Action>, c: Config)
    requires Run(Initial(Booted(limits)), actions, c).Some?
    ensures var l := LedgerOf(limits, actions, c);
            && l.arrived == Arrivals(Events(actions)) && l.sent == Replies(Events(actions))
            && |l.sent| <= |l.served| <= |l.arrived| <= |l.sent| + 1
            && (forall i :: 0 <= i < |l.served| ==> l.served[i].1 == Dispatched(l.served[i].0, l.arrived[i], c.doubles).0)
            && (forall i :: 0 <= i < |l.sent| ==> l.sent[i] == Dispatched(l.served[i].0, l.arrived[i], c.doubles).1)
  {
    hide Dispatched;
    var start := Initial(Booted(limits));
    RunRefines(start, actions, c);
    KeptHonoured(Ledger([], [], []), Abstract(start), AbstractRun(start, actions, c), c);
    KeptEvents(Ledger([], [], []), Abstract(start), AbstractRun(start, actions, c), c);
  }

  // Every request can be answered ------------------------------------------------------------------

  /** The plant once whoever holds the mutex has unlocked it. */
  function Released(s: State, c: Config): Plant {
    if s.owner.Some? && PhaseOf(s, s.owner.value).Inside? then
      Performed(PhaseOf(s, s.owner.value).task, s.entry, c).1.plant
    else s.shared.plant
  }

  /** A frame that arrives can always be answered: by steps of the mutex's holder, then of the connection, alone. */
  lemma RequestIsAnswered(s: State, r: F.Frame, c: Config) returns (actions: seq<Action>)
    requires Excluded(s, c) && s.threads.connection == Outside && s.threads.watchdog.running
    ensures var (plant, reply) := Dispatched(Released(s, c), r, c.doubles);
            && Events(actions) == [FrameArrives(r), ReplySent(reply)]
            && Run(s, actions, c).Some? && Run(s, actions, c).value.shared.plant == plant
            && Run(s, actions, c).value.threads.connection == Outside
  {
    hide Dispatched, Excluded, Step;
    var release := Releases(s, c);
    RunRefines(s, release, c);
    var s1 := Run(s, release, c).value;
    var arrive := ArrivesAndLocks(s1, r, c);
    RunRefines(s1, arrive, c);
    var answer := Answers(Run(s1, arrive, c).value, r, c);
    RunConcat(s, release, arrive, c);
    RunConcat(s, release + arrive, answer, c);
    actions := release + arrive + answer;
    EventsConcat(release + arrive, answer);
    EventsConcat(release, arrive);
  }

  lemma Releases(s: State, c: Config) returns (actions: seq<Action>)
    requires Excluded(s, c) && s.threads.connection == Outside
    ensures Events(actions) == [] && Run(s, actions, c).Some?
    ensures var s' := Run(s, actions, c).value;
            && s'.owner == None && s'.threads.connection == Outside && s'.threads.watchdog == s.threads.watchdog
            && s'.shared.plant == Released(s, c)
  {
    actions := [];
    if s.owner.Some? {
      actions := HolderReleases(s, s.owner.value, c);
      NoEvents(actions);
    }
  }

  lemma ArrivesAndLocks(s: State, r: F.Frame, c: Config) returns (actions: seq<Action>)
    requires s.owner == None && s.threads.connection == Outside && s.threads.watchdog.running
    ensures Events(actions) == [FrameArrives(r)] && Run(s, actions, c).Some?
    ensures var s' := Run(s, actions, c).value;
            && s'.owner == Some(Connection) && s'.entry == s.shared
            && s'.threads.connection == Inside(RequestTask(r), Start(RequestTask(r)))
  {
    actions := [Seen(FrameArrives(r)), Locks(Connection)];
    var s1 := Step(s, actions[0], c).value;
    assert actions[1..] == [Locks(Connection)] && [Locks(Connection)][1..] == [];
    assert Run(s1, [Locks(Connection)], c) == Step(s1, Locks(Connection), c);
  }

  lemma Answers(s: State, r: F.Frame, c: Config) returns (actions: seq<Action>)
    requires Excluded(s, c) && s.owner == Some(Connection)
    requires s.threads.connection.Inside? && s.threads.connection.task == RequestTask(r)
    ensures var (plant, reply) := Dispatched(s.entry.plant, r, c.doubles);
            && Events(actions) == [ReplySent(reply)]
            && Run(s, actions, c).Some? && Run(s, actions, c).value.shared.plant == plant
            && Run(s, actions, c).value.threads.connection == Outside
  {
    hide Dispatched, Excluded;
    var serve := HolderReleases(s, Connection, c);
    var reply := Dispatched(s.entry.plant, r, c.doubles).1;
    var send := [Seen(ReplySent(reply))];
    assert send[1..] == [];
    var s' := Run(s, serve, c).value;
    assert s'.threads.connection == Replying(reply);
    assert Run(s', send, c) == Step(s', send[0], c);
    RunConcat(s, serve, send, c);
    actions := serve + send;
    NoEvents(serve);
    EventsConcat(serve, send);
  }

  lemma {:induction false} NoEvents(actions: seq<Action>)
    requires forall a <- actions :: !a.Seen?
    ensures Events(actions) == []
  {
    if actions != [] {
      assert actions[0] in actions;
      NoEvents(actions[1..]);
    }
  }

  lemma {:induction false} EventsConcat(first: seq<Action>, second: seq<Action>)
    ensures Events(first + second) == Events(first) + Events(second)
  {
    if first == [] {
      assert first + second == second;
    } else {
      assert (first + second)[1..] == first[1..] + second && (first + second)[0] == first[0];
      EventsConcat(first[1..], second);
      var seen := if first[0].Seen? then [first[0].event] else [];
      assert Events(first + second) == seen + Events(first[1..] + second);
      assert Events(first) == seen + Events(first[1..]);
    }
  }
}
