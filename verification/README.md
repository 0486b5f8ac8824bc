# Robot emulator: model and proofs

A Dafny model of an emulated robot controller: a server that moves simulated joints under a mutex
shared by several threads, answers a binary protocol over TCP, stops itself when its control loop
stalls, plans trajectories, and speaks a small part of RFC 6455 to a viewer.

`dafny verify dfyconfig.toml` checks everything.

## How the model is built

Every component the source updates in place is a class whose methods are proved against a function
on values; what the source promises is then proved about those functions.

| module | models |
|---|---|
| `Bytes` | bytes, big-endian reading and writing |
| `FrameCodec` | protocol frames |
| `Payloads` | the payloads of status responses and move requests |
| `TcpConnection` | a socket: segments still to arrive, bytes sent |
| `Controller` | the controller's transition tables |
| `Joint`, `Convergence` | one joint, its control law, and where that leads |
| `Trajectory`, `TimeOptimality` | the trapezoidal planner |
| `Plant` | joints, controller state and brakes as one value; what each request makes of it |
| `Server` | robot, brakes, emergency stop, control loop, dispatcher and boot |
| `Serving` | the loop that serves one client |
| `Client`, `Commands` | the client of the server, its agreement with it on one command, and what each command does |
| `Conversation` | client, network and server over many commands on one connection |
| `Watchdog` | the heartbeat monitor |
| `Concurrency` | the threads as a step system, and its refinement to atomic steps |
| `Requests`, `Safety`, `Motion`, `EmergencyStopLatch`, `ServerWatchdog`, `StallResponse` | what holds over all runs of that system |
| `Sha1`, `Sha1Vectors`, `Base64`, `Handshake`, `WebSocket` | the WebSocket layer |

**The step system.** A step of `Concurrency` is one access to shared state (one joint of a loop, one
brake, one controller event, one status read), a lock, an unlock, or an event outside the mutex
(a thread wakes, a frame arrives, the watchdog polls). A run is any sequence of possible steps.
`RunRefines` shows that every run is a run of a system in which each critical section is one step;
`Requests`, `Safety`, `Motion`, `EmergencyStopLatch`, `ServerWatchdog` and `StallResponse` prove their claims of
every reachable state of the fine-grained system.

**The conversation.** A move of `Conversation` is one receive of either side, one dispatch with its
response, one request or one finished command: the rounds of the loops in `Serving` and `Client`. The
network delivers any number of bytes at a time, and other threads may change the plant at any point.

**Assumptions.** Joint and trajectory arithmetic is over exact reals; time is in whole nanoseconds.
The square root in the planner is a parameter `root` with `root >= 0` and `root * root` equal to the
radicand. Doubles on the wire are 64-bit patterns, and the conversions between patterns and reals and
between degrees and radians are arbitrary functions; a target read off the wire is thus a number, not
NaN. Each poll and each reset of the watchdog is one step. A received stream is an arbitrary list of
non-empty segments, each delivered in pieces no larger than the reader's buffer; a peer accepts an
arbitrary number of bytes before sending to it fails. Shifts and masks of bytes are written as
division and remainder.

## Where the code does not do what one might expect

- An emergency stop is not latched from Idle or ServoOff: the tables have no row for it there. The
  brakes are engaged, but a client can enable and move the robot afterwards; brakes do not act on
  joints (`EmergencyStopLatch.StopHoldsIff`).
- The server responds to the first watchdog trip only. If that response finds Idle or ServoOff, no later
  stall of the control thread ever stops the robot (`StallResponse.AsksAgainIff`,
  `StallResponse.LaterStallsIgnored`, with a run that gets there in `StallResponse.HandledInIdle`).
- The control law always brings a joint to its target, but at the emulator's own limits it overshoots: a
  move of 0.651 rad from rest does (`Convergence.EmulatorOvershoots`). It cannot if the acceleration
  limit is at least eight times the velocity limit (`Convergence.NoOvershoot`).
- Joint limits that exclude 0 are violated from construction on, and by every homing
  (`Safety.LimitsAlwaysHold`).
- Sampling a trajectory at time 0 gives its end, not its initial state, if the whole move takes at most
  100 ns (`Trajectory.StartsAtStart`, with an input in `Trajectory.ShortMoveStartsAtEnd`); the header
  promises the initial state for all times up to 0.
- A status response cannot carry 65535 joints although their number fits the count field
  (`Client.StatusAgreesIff`).
- How TCP cuts the stream can decide whether a WebSocket handshake is accepted. The key is searched in
  all that was received, so a key that comes after the header counts if it arrives with the header's
  end; and a header that ends past byte 15873 can be refused unseen. `Handshake.AnswerImmaterialIff`
  says exactly when the stream alone decides the answer, `Handshake.ShortStreamUndecided` gives 25
  bytes for which it does not, and `Handshake.ChunkingImmaterialIff` is the condition for finding the
  header, which the stream in `Handshake.LateHeaderUndecided` fails.
- `pollForClose` reports a receive that fails on an error as ConnectionClosed; its documentation says
  TransportFailure. It never reports that, so it does as documented if and only if a whole frame
  arrives or the peer closes (`WebSocket.PollAsDocumentedIff`, with an input in
  `WebSocket.FailedReceiveReadsAsClosed`).

## Model

| member | source | states |
|---|---|---|
| Concurrency.TaskCompletes | src/server/command_dispatcher.cpp:39-123 | run without interruption, the accesses of a control step, of any request and of the watchdog's response have the effect and the reply the handlers are proved to have |
| Concurrency.StepRefines | apps/robot-emulator/main.cpp:115-192 | every single step of any thread keeps mutual exclusion and is simulated by the atomic system, taking effect at the last access of its critical section |
| Concurrency.RunRefines | apps/robot-emulator/main.cpp:115-192 | every interleaving is a run of the atomic system with the same events in the same order, the same replies, and the same plant whenever no section is in progress; that an arriving frame is the one carried out is `Requests` |
| Concurrency.HolderReleases | apps/robot-emulator/main.cpp:124-156 | no deadlock: the holder of the mutex alone reaches the unlock within a bound given by joints and brakes, leaving what its task should |
| Requests.OneSectionPerRequest | apps/robot-emulator/main.cpp:175-192 | between the arrival of a frame and the next reply there is exactly one critical section of the connection; it carries out that frame on the plant it finds, and the reply is what that frame calls for there |
| Requests.EveryRequestHonoured | apps/robot-emulator/main.cpp:175-192 | in every run: the frames that arrive are carried out once each and in order, the i-th reply is what the i-th frame calls for on the plant its section found, and at most one frame is unanswered |
| Requests.RequestIsAnswered | apps/robot-emulator/main.cpp:182-191 | a frame that arrives, whoever holds the mutex, can be answered by steps of the holder and of the connection alone |
| Safety.ConsistentBetweenSections | src/server/command_dispatcher.cpp:67-123 | in every reachable state with the mutex free, the controller is in one of five states, all joints are enabled or none is (none in Idle and ServoOff), none is faulted, and all brakes are engaged |
| Safety.DispatchFollowsPolicy | docs/task-briefs/server-integration.md:105-114 | from each settled state, each request leads where the operational policy says and touches nothing else; the reply echoes the type, and says Error exactly for unsupported requests and refused moves |
| Safety.StatusNeverTransient | src/server/command_dispatcher.cpp:56-65 | no status reply in any run names ServoOn or Stopping; each decodes to as many joints as the robot has |
| Safety.LimitsAlwaysHold | src/core/joint.cpp:33-102 | in every reachable state, inside critical sections too, all joints keep position, target, velocity and acceleration limits: if and only if every joint's limits contain 0 |
| Safety.MotionHasCause | src/runtime/control_loop.cpp:42-47 | a step changes a joint's position or velocity only as the control thread's update in Moving of that enabled joint, or as a client's Home |
| EmergencyStopLatch.ControllerLatched | src/controller/controller_state_machine.cpp:30-81 | no step of any thread, at any point of any critical section, leaves EmergencyStop |
| EmergencyStopLatch.EmergencyStopLatches | src/safety/emergency_stop_controller.cpp:18-32 | from any reachable stopped state on: stopped for ever, brakes engaged, every joint's position and velocity frozen until a Home is carried out and 0 from then on |
| EmergencyStopLatch.LaterStatusSaysStopped | src/server/command_dispatcher.cpp:56-65 | every status carried out after the latch decodes to "EmergencyStop" with exactly the frozen (or homed) joints |
| EmergencyStopLatch.StopHoldsIff | src/safety/emergency_stop_controller.cpp:18-32 | an emergency stop always engages the brakes; it keeps every later sequence of requests from reaching Moving if and only if the controller was neither in Idle nor in ServoOff |
| StallResponse.ResponseIsOneShot | apps/robot-emulator/main.cpp:145-156 | once the watchdog's trip has been handled, the response thread never asks for the mutex again |
| StallResponse.AsksAgainIff | apps/robot-emulator/main.cpp:145-156 | from every reachable state, some continuation makes the response thread ask for the mutex if and only if no trip has been handled |
| StallResponse.HandledInIdle | apps/robot-emulator/main.cpp:145-156 | a run from boot in which a trip is handled and the controller stays in Idle |
| StallResponse.ResponseStops | apps/robot-emulator/main.cpp:149-154 | in every run in which the trip is handled, the response is carried out and the server is in EmergencyStop after it, unless the response found Idle or ServoOff |
| StallResponse.ResponseCompletes | apps/robot-emulator/main.cpp:149-154 | after a trip, whoever holds the mutex, the response can be carried to its end |
| StallResponse.StallStops | apps/robot-emulator/main.cpp:124-156 | control thread, watchdog and response together: a stall from time s on, with polls at most g apart, trips by s + timeout + 2g and ends in EmergencyStop, unless the response finds Idle or ServoOff |
| StallResponse.LaterStallsIgnored | apps/robot-emulator/main.cpp:145-156 | after a trip handled without effect, only a client's EmergencyStop request ever reaches EmergencyStop |
| ServerWatchdog.TrippedIffCountStands | apps/robot-emulator/main.cpp:136-143 | in every run, the watchdog has tripped if and only if some of its readings, spanning the timeout, all showed the same 64-bit count of completed control cycles |
| ServerWatchdog.TrippedIffControlStalled | src/safety/watchdog.cpp:83-95 | while the counter has not wrapped: if and only if two readings at least the timeout apart had no completed control cycle between them |
| ServerWatchdog.StallTrips | apps/robot-emulator/main.cpp:136-143 | in every run: if no control cycle is completed from time s on and polls are at most g apart, the watchdog has tripped by s + timeout + 2g |
| Watchdog.TrippedIffStalled | src/safety/watchdog.cpp:76-97 | after any polls, tripped if and only if the counter was once seen constant over polls spanning the timeout: no false trip, none forgotten |
| Watchdog.TripsInTime | src/safety/watchdog.cpp:76-97 | if the counter stalls at s and polls are at most g apart, the watchdog is tripped from s + timeout + 2g on |
| Watchdog.Watchdog.Start | src/safety/watchdog.cpp:36-48 | a second start is refused and changes nothing; a first one takes a new baseline and clears the trip |
| Watchdog.Watchdog.Stop | src/safety/watchdog.cpp:50-60 | refused if not running; a trip stays visible after it |
| Watchdog.Watchdog.Reset | src/safety/watchdog.cpp:70-74 | takes a new baseline and clears the trip, running or not |
| Watchdog.Watchdog.Poll | src/safety/watchdog.cpp:83-95 | one poll, as the histories above compose it |
| Joint.Joint.Update | src/core/joint.cpp:64-92 | ramp, integration and clamp assign the fields exactly as the control law on values; `StopsAtLimit`, `RampTowardsSetpoint` and `LinearStep` say what this does to position and velocity |
| Joint.Joint.SetTargetPosition | src/core/joint.cpp:42-51 | accepted if and only if enabled and within limits; refused, it changes nothing |
| Joint.Joint.Home | src/core/joint.cpp:33-40 | position, velocity, acceleration and targets become 0; enabled and faulted stay |
| Joint.Joint.ClampToLimits | src/core/joint.cpp:94-102 | past a limit: at the limit, with no velocity further out; `ClampStopsOutward` says which velocities are kept |
| Joint.ClampStopsOutward | src/core/joint.cpp:94-102 | past a limit, velocity out of the limits becomes 0 and velocity back is kept; within the limits nothing changes |
| Joint.StopsAtLimit | src/core/joint.cpp:77-102 | a step that would lead past a limit ends at the limit at rest, any other keeps the velocity it moved with; a joint at a limit has a velocity out of it exactly if the step led there without the clamp |
| Joint.UpdatedOnlyIf | src/core/joint.cpp:64-72 | only an enabled joint without a fault is changed by an update, and only in positive time |
| Joint.AdvancedWithinLimits | src/core/joint.cpp:74-102 | one step brings position, velocity and acceleration within limits whatever they were before |
| Joint.RampTowardsSetpoint | src/core/joint.cpp:81-87 | the velocity moves towards the setpoint and never past it, reaches it exactly if the acceleration limit allows, and the reported acceleration is the rate of that change |
| Joint.AdvancedReach | src/core/joint.cpp:85-102 | one step, clamp included, moves the joint by at most maximum velocity times dt |
| Joint.UpdatedWithinLimits | src/core/joint.cpp:64-102 | updating keeps a joint within its limits for any time step, negative ones too |
| Joint.LinearStep | src/core/joint.cpp:77-91 | near the target no clamp fires, the error shrinks by exactly 1 - 8 dt without changing sign, and the region is kept |
| Joint.GeometricConvergence | src/core/joint.cpp:64-102 | after n updates the error is exactly (1 - 8 dt)^n times the first, and never overshoots |
| Convergence.EnergyDrops | src/core/joint.cpp:77-89 | outside the linear region, every step takes a fixed amount off an energy of speed and remaining distance, whichever clamps fire and whether or not it passes the target |
| Convergence.ClampLowersEnergy | src/core/joint.cpp:94-102 | the position clamp never adds to that energy |
| Convergence.EntersLinearRegion | src/core/joint.cpp:64-102 | hence from any state within the limits, a number of updates known in advance leads into the linear region, for good |
| Convergence.Arrives | src/core/joint.cpp:64-102 | the joint always converges to its target: for every tolerance, all updates from some number on are within it |
| Convergence.NoOvershoot | src/core/joint.cpp:64-102 | with an acceleration limit of at least eight times the velocity limit, moves of any length from rest never turn back and never pass the target |
| Convergence.EmulatorOvershoots | apps/robot-emulator/main.cpp:56-63 | at the emulator's limits and 1 kHz, a move of 0.651 rad from rest passes its target within 800 cycles |
| Motion.MovingConverges | src/runtime/control_loop.cpp:19-47 | at each of the five frequencies, over every run in which clients only read the status, enable, or move other joints, and the watchdog's response is not carried out, a joint near its target comes geometrically closer with every control cycle, never past it |
| Motion.MovingArrives | src/runtime/control_loop.cpp:19-47 | in such runs, from wherever within its limits and at whatever speed, after a number of control cycles the joint is within any given tolerance of its target |
| Server.PeriodFor | src/runtime/control_loop.cpp:19-22 | exact for all five frequencies, each of which meets 0 < 8 dt <= 1 |
| Server.Periods | src/runtime/control_loop.cpp:19-22 | 2 ms, 1 ms, 500, 200 and 100 microseconds |
| Server.Robot.Create | src/core/robot.cpp:19-32 | succeeds if and only if there is a joint and all limits are valid; then one fresh joint per limits, in order |
| Server.Robot.Update | src/core/robot.cpp:34-38 | updates every joint once, each by the control law |
| Server.EmergencyStopController.Trigger | src/safety/emergency_stop_controller.cpp:18-32 | all brakes engaged whether or not the controller accepts the transition |
| Server.EmergencyStopController.Reset | src/safety/emergency_stop_controller.cpp:34-36 | succeeds exactly in EmergencyStop and leaves the brakes as they are |
| Server.ControlLoop.Step | src/runtime/control_loop.cpp:42-47 | joints move in Moving only, the cycle is counted in any state, modulo 2^64 |
| Server.CommandDispatcher.Dispatch | src/server/command_dispatcher.cpp:39-54 | the seven handlers on objects do to plant and response what `Dispatched` says of values, and any other request is answered with an error and changes nothing |
| Server.CommandDispatcher.HandleGetStatus | src/server/command_dispatcher.cpp:56-65 | the reply carries the encoding of the live state name and every joint's position and velocity |
| Server.CommandDispatcher.HandleEnable | src/server/command_dispatcher.cpp:67-74 | every joint enabled, then both events, each of which may be refused |
| Server.CommandDispatcher.HandleDisable | src/server/command_dispatcher.cpp:76-82 | every joint disabled whether or not the controller accepts the event |
| Server.CommandDispatcher.HandleHome | src/server/command_dispatcher.cpp:84-91 | every joint homed in any state, the controller untouched |
| Server.CommandDispatcher.HandleStop | src/server/command_dispatcher.cpp:114-118 | both events, joints and brakes untouched |
| Server.CommandDispatcher.HandleEmergencyStop | src/server/command_dispatcher.cpp:120-123 | triggers the emergency stop and always answers Ok |
| Server.CommandDispatcher.HandleMoveJoint | src/server/command_dispatcher.cpp:93-112 | a refused move changes nothing; an accepted one sets one target and starts motion from Ready only |
| Server.Boot | apps/robot-emulator/main.cpp:93-113 | wiring and boot sequence lead to the initial plant of all runs: joints at 0 and disabled, Idle, brakes engaged |
| Controller.ScanIsDiagram | src/controller/controller_state_machine.cpp:83-95 | the scan of the two tables computes the state diagram, for every state and event |
| Controller.AnyRowOrder | src/controller/controller_state_machine.cpp:30-95 | any arrangement of the same rows in a single table gives the same transitions |
| Controller.KeysUnique | src/controller/controller_state_machine.cpp:30-81 | no two of the 36 rows have the same state and event |
| Controller.ReadyReachable | src/controller/controller_state_machine.cpp:30-81 | a state can be brought to Ready if and only if it is not Shutdown, which is absorbing |
| Controller.ShutdownAbsorbing | src/controller/controller_state_machine.cpp:30-81 | no event sequence leaves Shutdown |
| Controller.MotionAfterEStop | src/controller/controller_state_machine.cpp:51-81 | Moving after EmergencyStop needs EStopReset or RecoveryComplete since, over every event trace |
| Controller.MotionAfterServoOff | src/controller/controller_state_machine.cpp:35-81 | Moving after Idle or ServoOff needs ServoEnable or RecoveryComplete since, over every event trace |
| Controller.ControllerStateMachine.HandleEvent | src/controller/controller_state_machine.cpp:109-116 | follows the diagram; a rejected event leaves the state untouched |
| Controller.ControllerStateMachine.CanHandle | src/controller/controller_state_machine.cpp:105-107 | true exactly where the diagram has an edge |
| Controller.NamesDistinct | src/controller/controller_state_machine.cpp:118-136 | the names of two states are equal only for equal states |
| Controller.Named | src/controller/controller_state_machine.cpp:118-136 | which of the 14 names belongs to which state |
| Trajectory.CreatedFor | src/motion/trapezoidal_trajectory.cpp:20-40 | planning succeeds exactly for valid limits and positions within them; which error otherwise; an empty move takes no time |
| Trajectory.CreatedProfile | src/motion/trapezoidal_trajectory.cpp:42-58 | both shapes satisfy one set of phase equations and the velocity limit, strictly below it for the triangular one |
| Trajectory.CreatedIsPlanned | src/motion/trapezoidal_trajectory.cpp:20-58 | whatever `create` returns meets the premise of all claims about sampling and optimality |
| Trajectory.PhasesMeet | src/motion/trapezoidal_trajectory.cpp:105-124 | the phase formulas agree at their boundaries, start at rest and end at rest at the target |
| Trajectory.MotionBetween | src/motion/trapezoidal_trajectory.cpp:105-124 | between any two times, in whichever phases: forward travel, bounded by the speed; speed change bounded by the acceleration |
| Trajectory.MonotoneTowardsTarget | src/motion/trapezoidal_trajectory.cpp:79-125 | for all t1 <= t2, clamping and end snap included, positions lie between start and target and move towards the target |
| Trajectory.SampleWithinLimits | src/motion/trapezoidal_trajectory.cpp:79-125 | every sample of every planned move keeps the position, velocity and acceleration limits |
| Trajectory.SamplesAreKinematic | src/motion/trapezoidal_trajectory.cpp:105-124 | within each phase, velocity changes at exactly the rate of the reported acceleration, and position as the velocities say, signs included |
| Trajectory.PositionChange | src/motion/trapezoidal_trajectory.cpp:79-125 | positions at two times differ by at most maximum velocity times (their distance + 100 ns) |
| Trajectory.VelocityChange | src/motion/trapezoidal_trajectory.cpp:79-125 | velocities at two times differ by at most maximum acceleration times (their distance + 100 ns) |
| Trajectory.EndsExactly | src/motion/trapezoidal_trajectory.cpp:74-101 | sampling at the rounded duration, and at any time after it, gives exactly the target at rest |
| Trajectory.AtTargetIff | src/motion/trapezoidal_trajectory.cpp:79-125 | a sample of a moving plan is at the target if and only if it is taken in the last 100 ns or later, or the whole move takes no more |
| Trajectory.DurationNearest | src/motion/trapezoidal_trajectory.cpp:74-77 | the duration is the nearest whole nanosecond, halves to even |
| Trajectory.StartsAtStart | src/motion/trapezoidal_trajectory.cpp:95-110 | sampling at times up to 0 gives the initial state (start, at rest, initial acceleration) if and only if the move is empty or takes more than 100 ns |
| Trajectory.ShortMoveStartsAtEnd | src/motion/trapezoidal_trajectory.cpp:93-101 | a planned move of 20 ns that is sampled at its target at time 0 |
| Trajectory.TravelSymmetric | src/motion/trapezoidal_trajectory.cpp:105-124 | the distance still to go at total - t is the distance covered at t |
| Trajectory.ReversedSample | src/motion/trapezoidal_trajectory.cpp:79-125 | away from the snap, the move back sampled at total - t is where the move there is at t |
| TimeOptimality.SegmentLoss | src/motion/trapezoidal_trajectory.cpp:30-58 | any stretch of admissible speeds on a grid loses, against full speed, at least what its change of speed costs |
| TimeOptimality.PlanIsTimeOptimal | src/motion/trapezoidal_trajectory.cpp:30-58 | no motion on a time grid from rest to rest within the same limits that covers the distance takes less time, for both shapes and both directions |
| TimeOptimality.CreateIsTimeOptimal | src/motion/trapezoidal_trajectory.cpp:20-58 | so for every successful `create`: no admissible motion between the two positions takes less time |
| FrameCodec.Encode | src/protocol/frame_codec.cpp:91-103 | the buffer built byte by byte is header and payload, with the size cut to 32 bits |
| FrameCodec.WriteU32 | src/protocol/frame_codec.cpp:68-73 | the four shifts append the big-endian bytes |
| FrameCodec.HeaderFields | include/robot/protocol/frame_codec.hpp:20-64 | an encoded frame has magic, version, flags, type and length at their documented offsets |
| FrameCodec.OnTheWire | include/robot/protocol/frame_codec.hpp:20-31 | every frame begins with "ROBO", version 1 and the flags, and the fourteen commands have the type numbers 1 to 14 in their order |
| FrameCodec.DecodeEncoding | src/protocol/frame_codec.cpp:105-142 | decoding an encoding with any bytes after it gives the frame and its length if and only if the payload has at most 1 MiB |
| FrameCodec.EncodingDecoded | src/protocol/frame_codec.cpp:105-142 | the bytes a successful decode consumes are the encoding of its frame |
| FrameCodec.VerdictStable | src/protocol/frame_codec.cpp:105-142 | a verdict other than Incomplete is unchanged by bytes that arrive later |
| FrameCodec.PrefixIncomplete | src/protocol/frame_codec.cpp:105-133 | every strict prefix of a legal encoding is Incomplete |
| FrameCodec.CommandOf | src/protocol/frame_codec.cpp:18-37 | inverse of the numbering of the fourteen commands: known exactly if some command has this number |
| Bytes.WriteU64 | src/cli/byte_order_internal.hpp:35-40 | the shifting loop writes the eight big-endian bytes |
| Bytes.ReadU64 | src/cli/byte_order_internal.hpp:42-48 | the folding loop reads them back |
| Bytes.WriteU16 | src/cli/byte_order_internal.hpp:25-28 | the two shifts append the big-endian bytes of the low 16 bits |
| Bytes.ReadWritten | src/cli/byte_order_internal.hpp:25-48 | reading what was written gives the value modulo the width of the field |
| Bytes.WriteRead | src/cli/byte_order_internal.hpp:25-48 | writing what was read gives the same bytes |
| Payloads.EncodeStatusPayload | src/cli/status_payload.cpp:18-38 | the loops append the encoding that the round trip is about |
| Payloads.DecodeStatusPayload | src/cli/status_payload.cpp:40-93 | reading with a moving offset, never past the end, is the parser on the remaining bytes |
| Payloads.ReadJoints | src/cli/status_payload.cpp:80-90 | the joint loop at an offset is the recursive parser on the bytes from there |
| Payloads.StatusRoundTrip | src/cli/status_payload.cpp:18-93 | a status survives encoding, bit by bit and with any bytes after it, if and only if its three lengths fit 16 bits |
| Payloads.StatusOnTheWire | include/robot/cli/status_payload.hpp:38-43 | a status byte by byte: both names, count, and position before velocity |
| Payloads.StatusPrefix | src/cli/status_payload.cpp:40-93 | every strict prefix of an encoding decodes to TruncatedPayload |
| Payloads.EncodeMoveJointPayload | src/cli/move_joint_payload.cpp:22-28 | appends the encoding that the round trip is about |
| Payloads.DecodeMoveJointPayload | src/cli/move_joint_payload.cpp:30-39 | reads at most nine bytes, and refuses fewer |
| Payloads.MoveRoundTrip | src/cli/move_joint_payload.cpp:22-39 | a move request survives with any bytes after it; every strict prefix is refused |
| Payloads.MoveOnTheWire | include/robot/cli/move_joint_payload.hpp:28-29 | a move request byte by byte |
| Serving.ReceiveOneFrame | apps/robot-emulator/main.cpp:67-85 | result and remaining bytes depend on the byte stream only, not on how it is cut; no byte is lost; the buffer stays within 12 + 1048575 + 4096 bytes |
| Serving.Serve | apps/robot-emulator/main.cpp:174-192 | one client's session is a function of the whole byte stream and of how much the client accepts: which frames are dispatched, what is sent, what becomes of the plant |
| Serving.Answer | apps/robot-emulator/main.cpp:182-191 | dispatches one request and sends its encoded response, or as much of it as is accepted |
| Serving.FramesOfEncodings | apps/robot-emulator/main.cpp:174-192 | concatenated encodings are parsed into exactly those frames in order |
| Serving.ParseConserves | apps/robot-emulator/main.cpp:174-180 | the dispatched frames re-encoded, and the bytes left over, are the stream |
| Serving.SessionSends | apps/robot-emulator/main.cpp:182-191 | the client is sent the responses in order, cut where it stops accepting; the dispatched requests are a prefix, and all of them if everything fits |
| Client.Client.Execute | src/cli/client.cpp:63-117 | sends the request; outcome or error depend on the bytes that arrive, not on how they are cut; at least the response is taken off the stream, and the rest is its end; what the robot does is `Commands.CommandCarriedOut` |
| Client.NothingLeft | src/cli/client.cpp:71-91 | where exactly one response was to come, none of its bytes is left for the next command |
| Client.Client.BuildRequestFrame | src/cli/client.cpp:38-49 | the type number of each command; only a move carries a payload: the joint and the target in radians |
| Client.Client.AwaitResponse | src/cli/client.cpp:71-91 | the first frame of the stream, or why there is none, for every cutting; at least that frame is taken off |
| Client.Agreement | src/cli/client.cpp:93-117 | for every state with at most 65534 joints and every command, the client never reports a protocol failure or an unexpected type, reports a server error exactly for a refused move, and else the live status bit by bit |
| Client.StatusAgreesIff | src/cli/client.cpp:106-114 | the client reads the live status if and only if there are at most 65534 joints |
| Client.EndToEnd | src/cli/client.cpp:63-117 | client, server loop and dispatcher together: the expected outcome, or a transport failure if the response is cut anywhere |
| Commands.CommandCarriedOut | src/cli/client.cpp:25-49 | stated for the command, not its request: served in a settled state, Enable, Disable, Home, Stop and EmergencyStop lead where the policy says and touch nothing else, Status changes nothing, MoveJoint retargets exactly the joint named to the angle in radians if it may; and the client reports it |
| Commands.EveryCommandCarriedOut | src/cli/client.cpp:63-117 | the same over conversations of many commands, in every run: each request served carries out the command being executed, each outcome is the report of its command |
| Commands.OutcomesTold | src/cli/client.cpp:71-116 | for any bytes that arrive: each error but a truncated status has exactly one cause, told by the type number and the status byte on the wire; a frame of another type or without a status is never reported as an answer |
| Conversation.StepInStep | apps/robot-viewer/main.cpp:76-91 | every move of client, network, server and other threads keeps at most one message under way, whole and in order, however it is delivered |
| Conversation.ConversationAgrees | apps/robot-viewer/main.cpp:76-91 | over many commands on one connection, in every run: the i-th outcome is what the client should report of the plant before the i-th request, and no byte is left when a command is done |
| Conversation.ConversationEnds | apps/robot-emulator/main.cpp:175-192 | client and server never wait for each other: every run can be continued until all commands have their outcome |
| Client.MoveDecided | src/server/command_dispatcher.cpp:93-105 | a move is accepted exactly if the joint exists, is enabled, and the target is within its limits |
| TcpConnection.TcpConnection.Receive | src/protocol/tcp_connection.cpp:75-84 | between one byte and the capacity, in order, until the end of the stream; none lost |
| TcpConnection.TcpConnection.Send | src/protocol/tcp_connection.cpp:64-73 | everything, or a prefix and an error |
| Sha1.Sha1 | src/websocket/sha1.cpp:24-103 | the loops over padding, schedule and rounds compute the recursive digest of FIPS 180-4 section 6.1.2 for every message; `Sha1Vectors` checks that definition on two published digests |
| Sha1.Pad | src/websocket/sha1.cpp:31-41 | terminates with the padding of section 5.1.1, of the least length, a whole number of blocks |
| Sha1.FillSchedule | src/websocket/sha1.cpp:45-58 | the array filled in place holds the recursive message schedule, whose 80 words `Sha1Vectors` checks for three blocks |
| Sha1.ProcessBlock | src/websocket/sha1.cpp:44-92 | one pass over a block adds the recursive 80 rounds to the hash value |
| Sha1.RoundFunction | src/websocket/sha1.cpp:63-77 | the branches on the round number select the standard's function and constant |
| Sha1.WriteDigest | src/websocket/sha1.cpp:94-101 | the array filled in place holds the five words, most significant byte first |
| Sha1.OrForms | src/websocket/sha1.cpp:65-73 | Ch and Maj with inclusive or equal the exclusive-or forms of section 4.1.1 |
| Sha1.PaddingInjective | src/websocket/sha1.cpp:31-41 | different messages, of any length, have different paddings |
| Sha1Vectors.AbcDigest | src/websocket/sha1.cpp:24-103 | the digest of "abc" is a9993e36 4706816a ba3e2571 7850c26c 9cd0d89d, every word of the schedule and every round checked |
| Sha1Vectors.OpeningDigest | src/websocket/sha1.cpp:24-103 | likewise the digest of a message of two blocks: key and GUID of section 1.3 of RFC 6455 |
| Base64.Base64Encode | src/websocket/base64.cpp:18-51 | loop and tail produce the encoding the lemmas are about |
| Base64.DecodedEncoded | src/websocket/base64.cpp:18-51 | a strict RFC 4648 decoder maps every encoding back to its input |
| Base64.Injective | src/websocket/base64.cpp:18-51 | no two inputs have the same encoding |
| Base64.EncodedDecoded | src/websocket/base64.cpp:18-51 | every string that decoder accepts is the encoding of what it decodes to |
| Base64.EncodedShape | src/websocket/base64.cpp:18-51 | four characters for every three bytes begun, all from the alphabet but for exactly the final padding |
| Base64.ValueOfDigit | src/websocket/base64.cpp:15-15 | the character table agrees with the numbering of the alphabet |
| Handshake.ReadUntil | src/websocket/websocket_connection.cpp:28-48 | the loop over the socket is the recursion over segments that the next two rows are about |
| Handshake.HeaderOutcome | src/websocket/websocket_connection.cpp:28-48 | for every way the stream is cut: header end, bytes at hand and error are those the stream decides, where it does |
| Handshake.ChunkingImmaterialIff | src/websocket/websocket_connection.cpp:28-48 | the cutting never matters if and only if there is no terminator, or it ends within 15873 bytes or after 16384, or the stream has at most 16384 bytes |
| Handshake.LateHeaderUndecided | src/websocket/websocket_connection.cpp:35-46 | a stream whose header ends at byte 15904 and for which the cutting does matter |
| Handshake.FindIsFirst | src/websocket/websocket_connection.cpp:32-34 | the search misses no occurrence and passes over none |
| Handshake.Received | src/websocket/websocket_connection.cpp:35-41 | for every number of bytes within reach of one read past the header's end, a cutting for which exactly these have been received |
| Handshake.ReceivedWithin | src/websocket/websocket_connection.cpp:35-47 | and no cutting for which it is any other number |
| Handshake.ValuePrefix | src/websocket/websocket_connection.cpp:52-81 | a header value found in what was received is the value found with more bytes |
| Handshake.AnyLetterCase | src/websocket/websocket_connection.cpp:54-59 | two names agree exactly if they differ in the case of letters only |
| Handshake.TrimmedIs | src/websocket/websocket_connection.cpp:75-80 | blanks at both ends of a value are taken off, and nothing else |
| Handshake.ValueIs | src/websocket/websocket_connection.cpp:52-81 | the value of a field: what stands between the first colon after the first occurrence of its name, in any letter case, and the end of that line, without blanks at its ends |
| Handshake.KeyIs | src/websocket/websocket_connection.cpp:114-117 | hence, for any request with a Sec-WebSocket-Key line, in any letter case and with any blanks, and no earlier occurrence of that name: the key found is exactly the one in that line |
| Handshake.RequestIsAnswered | src/websocket/websocket_connection.cpp:106-134 | such a request of at most 15873 bytes is answered for that key, however it is cut and whatever follows it |
| Handshake.ExampleAccepted | src/websocket/websocket_connection.cpp:119-120 | the example of section 1.3 of RFC 6455: dGhlIHNhbXBsZSBub25jZQ== is answered with s3pPLMBiTxaQ9kYGzzhZRbK+xOo= |
| Handshake.ExampleResponse | src/websocket/websocket_connection.cpp:122-126 | and the whole response to it, character by character |
| Handshake.AnswerImmaterialIff | src/websocket/websocket_connection.cpp:106-134 | the cutting never matters to the answer if and only if no header is found in time, or no key even with the most bytes that can arrive with the header's end, or the header is found for every cutting and holds the key |
| Handshake.ShortStreamUndecided | src/websocket/websocket_connection.cpp:109-117 | 25 bytes that are accepted in one segment and refused when cut after the header |
| Handshake.BuildResponse | src/websocket/websocket_connection.cpp:119-128 | the answer carries Base64 of SHA-1 of key and GUID |
| WebSocket.WebSocketConnection.Accept | src/websocket/websocket_connection.cpp:106-149 | the verdict and the bytes sent are the answer to what was received, which `KeyIs`, `RequestIsAnswered` and `AnswerImmaterialIff` are about; every byte after the header is carried over to the frame reader |
| WebSocket.WebSocketConnection.ReadExactBuffered | src/websocket/websocket_connection.cpp:85-101 | exactly the next count bytes for every cutting; carried over and unread bytes together are conserved, on failure too; a receive fails exactly if fewer are to come |
| WebSocket.WebSocketConnection.SendText | src/websocket/websocket_connection.cpp:151-177 | sends the RFC 6455 frame of the text in the shortest length form |
| WebSocket.HelloFrames | src/websocket/websocket_connection.cpp:151-177 | the frames of the text "Hello", unmasked and masked, are those of section 5.7 of RFC 6455 |
| WebSocket.LongLengths | src/websocket/websocket_connection.cpp:157-170 | so are the length fields of 256 bytes and of 64 KiB |
| WebSocket.WebSocketConnection.PollForClose | src/websocket/websocket_connection.cpp:179-232 | result and remaining bytes are a function of the pending bytes, not of how they arrive; a receive fails exactly if they hold no whole frame |
| WebSocket.PollWholeFrame | src/websocket/websocket_connection.cpp:179-232 | a whole frame, of any length form, is taken off and told by its opcode; anything less reads as closed |
| WebSocket.OnlyOpcode8Closes | src/websocket/websocket_connection.cpp:187-231 | a frame without payload closes the connection exactly if its opcode is 8 |
| WebSocket.PollAsDocumentedIff | include/robot/websocket/websocket_connection.hpp:51-61 | never TransportFailure; hence as documented if and only if a whole frame is to come or the stream ends by a close |
| WebSocket.FailedReceiveReadsAsClosed | src/websocket/websocket_connection.cpp:88-91 | a first receive that fails on an error reads as closed |
| WebSocket.WebSocketConnection.SkipPayload | src/websocket/websocket_connection.cpp:204-231 | mask key and payload are consumed, and only then a close frame is reported |
| WebSocket.WebSocketConnection.CarryOver | src/websocket/websocket_connection.cpp:136-146 | the bytes received with the handshake become the carried-over bytes, in order |
| WebSocket.PollReadsFrame | src/websocket/websocket_connection.cpp:179-232 | a poll consumes exactly one frame, masked or not, in all three length forms, and tells close frames; every strict prefix of a frame reads as closed |
| WebSocket.PollsKeepStep | src/websocket/websocket_connection.cpp:179-232 | polls over any sequence of frames stay in step with them |
| WebSocket.Unmask | src/websocket/websocket_connection.cpp:216-224 | the in-place loop combines byte i with key byte i mod 4 |
| WebSocket.MaskInvolution | src/websocket/websocket_connection.cpp:220-223 | masking twice gives the payload back |
| WebSocket.XorOfBits | src/websocket/websocket_connection.cpp:220-223 | a bit of a masked byte is 1 exactly where the byte and the key differ |

## Left out

- Floating point: rounding, overflow and NaN; with a NaN target both comparisons of `setTargetPosition` would pass.
- Serving.Serve: proved with the plant to itself, because the frames it dispatches do not depend on the plant; interference between requests is the subject of `Concurrency`, where arriving frames are arbitrary.
- Conversation.ConversationAgrees: sends do not fail in it; what a failed send does to one command is `Client.EndToEnd`, and to a session `Serving.SessionSends`.
- Watchdog.Watchdog.Reset: one step; between its three stores the source lets a poll see the old baseline with the trip cleared.
- TcpConnection.TcpConnection.Send: the loop over partial writes is one step.
- ServerWatchdog.TrippedIffControlStalled: for runs of fewer than 2^64 cycles, because a wrapped count can repeat; `TrippedIffCountStands` has no such bound. Both take the clock not to go back.
- Thread creation and destruction, sleeping, memory orders, file descriptors, `accept` on the listener and its retry; when a thread takes a step is left open.
- `ControlLoop::start` and its thread and timing metrics, which the server does not use.
- One-line setters (`enable`, `disable`, `engage`) have contracts but no rows; `VirtualBrake::release`, which nothing in the server calls, is not modelled.
- Convergence.NoOvershoot: its condition on the limits is sufficient; for limits between it and those of `EmulatorOvershoots` nothing is said about overshooting.
- `setTargetVelocity`: what it sets is read by no control step.
- Motor, encoder, sensors, digital and analog IO, limit monitor, fault registry and injector: formulas and checks that add only easy members.
- Argument parsing, formatting, the viewer's pages and JSON, the benchmark and the ROS 2 bridge.
