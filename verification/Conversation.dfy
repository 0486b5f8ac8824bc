/**
 A client that executes one command after another over one connection, the network, and the server
 that answers: as a step system, with the network delivering any number of bytes at a time.
 */
module Conversation {
  import opened Wrappers
  import opened Bytes
  import opened Plant
  import opened Serving
  import opened Client
  import F = FrameCodec
  import P = Payloads

  /**
   `received` is what the client has received of the response it awaits, if it awaits one; `buffer`
   is the server's receive buffer. `answered` records the plant before each request dispatched so
   far; no step depends on it.
   */
  datatype World = World(
    received: Option<seq<Byte>>, outcomes: seq<Result<Outcome, P.CliError>>,
    toServer: seq<Byte>, buffer: seq<Byte>, toClient: seq<Byte>,
    plant: Plant, answered: seq<Plant>)

  datatype Move =
    | Sends
    | ClientReceives(n: nat)
    | Finishes
    | ServerReceives(n: nat)
    | Answers
    | OthersAct(plant: Plant)

  function Start(plant: Plant): World {
    World(None, [], [], [], [], plant, [])
  }

  /** A receive of at most a chunk of what is under way. */
  predicate Receivable(n: nat, underway: seq<Byte>) {
    0 < n <= CHUNK && n <= |underway|
  }

  function Step(w: World, m: Move, commands: seq<Command>, u: Units): Option<World> {
    match m
    case Sends =>
      if w.received.None? && |w.outcomes| < |commands| then
        var request := Request(commands[|w.outcomes|], u);
        Some(w.(received := Some([]), toServer := w.toServer + F.Encoding(request)))
      else None
    case ClientReceives(n) =>
      if w.received.Some? && F.Decode(w.received.value) == Err(F.Incomplete) && Receivable(n, w.toClient) then
        Some(w.(received := Some(w.received.value + w.toClient[..n]), toClient := w.toClient[n..]))
      else None
    case Finishes =>
      if w.received.Some? && F.Decode(w.received.value) != Err(F.Incomplete) && |w.outcomes| < |commands| then
        var outcome := Interpreted(commands[|w.outcomes|], w.received.value);
        Some(w.(received := None, outcomes := w.outcomes + [outcome]))
      else None
    case ServerReceives(n) =>
      if F.Decode(w.buffer) == Err(F.Incomplete) && Receivable(n, w.toServer) then
        Some(w.(buffer := w.buffer + w.toServer[..n], toServer := w.toServer[n..]))
      else None
    case Answers =>
      var decoded := F.Decode(w.buffer);
      if decoded.Ok? then
        F.EncodingDecoded(w.buffer);
        var (plant, response) := Dispatched(w.plant, decoded.value.frame, u.doubles);
        Some(w.(buffer := w.buffer[decoded.value.consumed..], toClient := w.toClient + F.Encoding(response),
                plant := plant, answered := w.answered + [w.plant]))
      else None
    case OthersAct(plant) => if |plant.joints| == |w.plant.joints| then Some(w.(plant := plant)) else None
  }

  function Run(w: World, moves: seq<Move>, commands: seq<Command>, u: Units): Option<World>
    decreases |moves|
  {
    if moves == [] then Some(w)
    else
      var next := Step(w, moves[0], commands, u);
      if next.None? then None else Run(next.value, moves[1..], commands, u)
  }

  // The invariant ----------------------------------------------------------------------------

  predicate Agreed(outcomes: seq<Result<Outcome, P.CliError>>, answered: seq<Plant>, commands: seq<Command>, u: Units) {
    && |outcomes| <= |answered| && |outcomes| <= |commands|
    && forall i :: 0 <= i < |outcomes| ==> outcomes[i] == Expected(commands[i], answered[i], u)
  }

  predicate NothingUnderway(w: World) {
    w.toServer == [] && w.buffer == [] && w.toClient == []
  }

  /** The request is on its way, in whatever part arrived. */
  predicate Requesting(w: World, request: F.Frame) {
    && |w.answered| == |w.outcomes| && w.received == Some([]) && w.toClient == []
    && w.buffer + w.toServer == F.Encoding(request)
  }

  /** The response is on its way, in whatever part arrived. */
  predicate Responding(w: World, request: F.Frame, d: Doubles) {
    && |w.answered| == |w.outcomes| + 1 && w.received.Some? && w.buffer == [] && w.toServer == []
    && w.received.value + w.toClient == F.Encoding(Dispatched(w.answered[|w.outcomes|], request, d).1)
  }

  predicate InStep(w: World, commands: seq<Command>, u: Units) {
    && |w.plant.joints| <= MAX_JOINTS && (forall i :: 0 <= i < |w.answered| ==> |w.answered[i].joints| <= MAX_JOINTS)
    && Agreed(w.outcomes, w.answered, commands, u)
    && if w.received.None? then NothingUnderway(w) && |w.answered| == |w.outcomes|
       else
         && |w.outcomes| < |commands|
         && var request := Request(commands[|w.outcomes|], u);
            Requesting(w, request) || Responding(w, request, u.doubles)
  }

  /** What has arrived of a legal frame is decided on only when it is the whole frame. */
  lemma WholeOrIncomplete(frame: F.Frame, arrived: seq<Byte>, underway: seq<Byte>)
    requires |frame.payload| <= F.MAX_PAYLOAD && arrived + underway == F.Encoding(frame)
    ensures F.Decode(arrived) != Err(F.Incomplete) <==> underway == []
    ensures underway == [] ==> arrived == F.Encoding(frame) && F.Decode(arrived) == Ok(F.Decoded(frame, |arrived|))
  {
    if underway == [] {
      assert arrived + [] == arrived;
      F.DecodeLegal(frame, []);
    } else {
      assert F.Encoding(frame)[..|arrived|] == arrived;
      F.PrefixIncomplete(frame, |arrived|);
    }
  }

  lemma RequestLegal(command: Command, u: Units)
    ensures |Request(command, u).payload| <= F.MAX_PAYLOAD
  {}

  lemma ReceiveConserves(arrived: seq<Byte>, underway: seq<Byte>, n: nat)
    requires n <= |underway|
    ensures (arrived + underway[..n]) + underway[n..] == arrived + underway
  {}

  lemma DispatchKeepsJoints(p: Plant, request: F.Frame, d: Doubles)
    ensures |Dispatched(p, request, d).0.joints| == |p.joints|
  {}

  lemma AnswersInStep(w: World, commands: seq<Command>, u: Units)
    requires InStep(w, commands, u) && Step(w, Answers, commands, u).Some?
    ensures InStep(Step(w, Answers, commands, u).value, commands, u)
  {
    hide Dispatched, Expected, F.Encoding, Request;
    assert F.Decode([]) == Err(F.Incomplete);
    var request := Request(commands[|w.outcomes|], u);
    RequestLegal(commands[|w.outcomes|], u);
    WholeOrIncomplete(request, w.buffer, w.toServer);
    DispatchKeepsJoints(w.plant, request, u.doubles);
    var response := Dispatched(w.plant, request, u.doubles).1;
    assert [] + F.Encoding(response) == F.Encoding(response);
  }

  lemma FinishesInStep(w: World, commands: seq<Command>, u: Units)
    requires InStep(w, commands, u) && Step(w, Finishes, commands, u).Some?
    ensures InStep(Step(w, Finishes, commands, u).value, commands, u)
  {
    hide Dispatched, Expected, F.Encoding, Request, Interpreted;
    assert F.Decode([]) == Err(F.Incomplete);
    var command, before := commands[|w.outcomes|], w.answered[|w.outcomes|];
    var response := Dispatched(before, Request(command, u), u.doubles).1;
    ResponseExpected(command, before, u);
    WholeOrIncomplete(response, w.received.value, w.toClient);
    Agreement(command, before, u, []);
    assert F.Encoding(response) + [] == F.Encoding(response);
  }

  lemma StepInStep(w: World, m: Move, commands: seq<Command>, u: Units)
    requires InStep(w, commands, u) && Step(w, m, commands, u).Some?
    ensures InStep(Step(w, m, commands, u).value, commands, u)
  {
    hide Dispatched, Expected, F.Encoding, Request, F.Decode, Interpreted;
    match m
    case Sends => assert [] + F.Encoding(Request(commands[|w.outcomes|], u)) == F.Encoding(Request(commands[|w.outcomes|], u));
    case ClientReceives(n) => ReceiveConserves(w.received.value, w.toClient, n);
    case Finishes => FinishesInStep(w, commands, u);
    case ServerReceives(n) => ReceiveConserves(w.buffer, w.toServer, n);
    case Answers => AnswersInStep(w, commands, u);
    case OthersAct(plant) =>
  }

  lemma {:induction false} RunInStep(w: World, moves: seq<Move>, commands: seq<Command>, u: Units)
    requires InStep(w, commands, u) && Run(w, moves, commands, u).Some?
    ensures InStep(Run(w, moves, commands, u).value, commands, u)
    decreases |moves|
  {
    if moves == [] {
    } else {
      StepInStep(w, moves[0], commands, u);
      RunInStep(Step(w, moves[0], commands, u).value, moves[1..], commands, u);
    }
  }

  /**
   In every run, however bytes are delivered and whatever other threads do to the plant between
   requests: the i-th outcome is what the client should report of the plant as it was before the
   i-th request, and whenever the client is done with a command, no byte is left anywhere.
   */
  lemma ConversationAgrees(plant: Plant, moves: seq<Move>, commands: seq<Command>, u: Units)
    requires |plant.joints| <= MAX_JOINTS && Run(Start(plant), moves, commands, u).Some?
    ensures var w := Run(Start(plant), moves, commands, u).value;
            && |w.outcomes| <= |w.answered|
            && (forall i :: 0 <= i < |w.outcomes| ==>
                  i < |commands| && w.outcomes[i] == Expected(commands[i], w.answered[i], u))
            && (w.received.None? ==> NothingUnderway(w) && |w.answered| == |w.outcomes|)
  {
    RunInStep(Start(plant), moves, commands, u);
  }

  // Completion -------------------------------------------------------------------------------

  /** The next move of client, network or server. */
  function Next(w: World, commands: seq<Command>): Move {
    if w.received.None? then Sends
    else if |w.answered| == |w.outcomes| then
      if w.toServer == [] then Answers else ServerReceives(1)
    else if w.toClient == [] then Finishes
    else ClientReceives(1)
  }

  /** How far the current command is, for the order in which moves bring it forward. */
  function Stage(w: World): nat {
    if w.received.None? then 2 else if |w.answered| == |w.outcomes| then 1 else 0
  }

  lemma NextPossible(w: World, commands: seq<Command>, u: Units)
    requires InStep(w, commands, u) && |w.outcomes| < |commands|
    ensures Step(w, Next(w, commands), commands, u).Some?
  {
    hide Dispatched, Expected, F.Encoding, Request, Interpreted;
    if w.received.Some? {
      var command := commands[|w.outcomes|];
      if |w.answered| == |w.outcomes| {
        RequestLegal(command, u);
        WholeOrIncomplete(Request(command, u), w.buffer, w.toServer);
      } else {
        var before := w.answered[|w.outcomes|];
        ResponseExpected(command, before, u);
        WholeOrIncomplete(Dispatched(before, Request(command, u), u.doubles).1, w.received.value, w.toClient);
      }
    }
  }

  /** Client and server never wait for each other: every run can be continued until all commands have an outcome. */
  lemma {:induction false} ConversationEnds(w: World, commands: seq<Command>, u: Units) returns (moves: seq<Move>)
    requires InStep(w, commands, u)
    ensures Run(w, moves, commands, u).Some? && |Run(w, moves, commands, u).value.outcomes| == |commands|
    decreases |commands| - |w.outcomes|, Stage(w), |w.toServer| + |w.toClient|
  {
    hide Dispatched, Expected, F.Encoding, Request, F.Decode, Interpreted;
    if |w.outcomes| == |commands| {
      moves := [];
    } else {
      var m := Next(w, commands);
      NextPossible(w, commands, u);
      StepInStep(w, m, commands, u);
      var rest := ConversationEnds(Step(w, m, commands, u).value, commands, u);
      moves := [m] + rest;
      assert moves[1..] == rest;
    }
  }
}
