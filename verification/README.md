# Verified model of the serial runtime, command engine, codec and telemetry pipeline

This project states and proves, in Dafny, what the concurrent and protocol-heavy parts of the
robot studio promise. Every result is for all inputs, all runs or all interleavings of its model.

| module | models |
|---|---|
| WriteQueue, SerialScheduler | the prioritised write queue with its safety reserve, supersession and fair schedule; the locked regions as methods on mutable queues |
| SerialRuntime, SerialOutcomes | producers, writer loop, wake channel, fences and shutdown of the scheduler as interleaved atomic steps; what decides the outcome of each write |
| ResponseLease, LeaseOutcomes | the single response lease of the Dummy session: waiting, preemption, fences, arming, cancellation |
| AethorSession, AethorReplies | monotonic request IDs, correlation, boot epochs and the latest-wins motor slot of the Aethor session |
| GatewayContracts, CommandHistory, CommandEngine, CommandOutcomes | command results; the bounded history and its rotating trim; acceptance, exclusivity, preemption and the safety latch |
| PlanFingerprint, ActionRunner, ActionSafety, ActionResults | the waypoint sequencer against an arbitrary command port, its checkpoints and the plan fingerprint |
| Crc16, LineDecoder, AsciiFrame, AsciiCodec, AsciiParsing, DecimalText | the Aethor ASCII codec, in its TypeScript and C# forms |
| MotorFrame, MotorText, MotorState, MotorMeaning | the mask projector and per-joint availability with expiry |
| FrameCoordinator, SignalBuffer, SignalHistory | the latest-frame coordinator, the ring buffer and the live history |
| CommandSafety | the interlock view of the front end |

Protocols with several threads are step machines: one step is one locked region, one interlocked
access or one completion, and steps of different parties interleave in any order. Code that updates
objects in place is written as classes and loops, each proved equal to a function the theorems are
about. Clocks, device replies, timeouts and the operator are parameters or free choices of a step.

## What the code does not promise

Five properties turned out to hold only under a condition. For each the project proves the exact
condition, as an equivalence over all inputs, and shows a concrete failing input.

- The Dummy lease is armed by work ID alone, so a foreign write under the ID of an active lease can
  arm it before its own write: exactly when such a write starts while the lease is active
  (`ResponseLease.ForeignReplyExactlyWhenForeignWriteStarts`). Two runs show it, one before the own
  write is queued (`ReusedIdTakesAForeignReply`), one after it was superseded or expired
  (`LostWriteTakesAForeignReply`).
- The gateway frees the exclusive slot by comparing command IDs, so a runner that outlives a session
  reset, or the trim of its entry, frees the slot of a later request with the same ID: exactly when
  that request takes the ID of a runner that has not ended
  (`CommandEngine.SubmissionIsSafeExactlyWhenFresh`; input: `ReusedIdLosesItsSlot`).
- A boot ID of more than 64 digits (leading zeros) passes the HELLO check of the gateway, but the twin
  rejects every frame under it (`MotorFrame.ProjectedFrameIsSupportedExactlyWhen`; input:
  `LongBootIdIsRejected`).
- The interlock view depends on delivery order exactly when the latest stops differ in their stamp,
  two different uncertain results share the latest time after them, or an uncertain result without a
  valid time can make a difference (`CommandSafety.OrderIsIrrelevantExactlyWhenUnique`; input:
  `TiedFailuresDependOnOrder`).
- A request line whose sequence has leading zeros is accepted but not reproduced by the formatter
  (`AsciiCodec.ReformatsExactlyWithoutLeadingZero`; input: `LeadingZeroIsNotReproduced`).

The two parsers name a malformed sequence token differently (BAD_FRAME in TypeScript,
SEQUENCE_OUT_OF_RANGE in C#); they agree on acceptance and frames. A HELLO renewal under the same boot
restarts the gateway sequence, so the coordinator rejects frames until the sequence catches up
(`FrameCoordinator.SameBootMustAdvance`).

## Smaller facts

Each of these concerns one or two branches; the results below build on them.

- `CommandEngine.WithdrawnStopStillCancels`: a stop that its caller withdraws just before acceptance is
  not recorded, but it has already cancelled the command it would have preempted.
- `CommandEngine.LatchHolds`: a set latch is opened by exactly two steps, the report of a completed stop
  and the session reset. `CommandEngine.ReportLatches`: the report of an uncertain outcome sets it.
- `AethorSession.BootChangeForgetsIdentity`: a boot change clears the identity and restarts the gateway
  sequence.
- `FrameCoordinator.SameBootMustAdvance`: a frame of the current boot is accepted exactly when its
  sequence advances.

## Model

| member | source | states |
|---|---|---|
| `SerialRuntime.NoLostWakeup` | services/robot-gateway/src/AethorStudioV2.Application/SerialDuplexScheduler.cs:278-303 | In every interleaving of producers, writer and fence releases, a parked writer with eligible work queued can wake at once, or a producer stands between its insertion and its signal |
| `SerialRuntime.AcceptedWorkIsConserved` | services/robot-gateway/src/AethorStudioV2.Application/SerialDuplexScheduler.cs:411-518 | In every reachable state, faults and shutdown included, accepted = written + expired + superseded + failed + cancelled + queued + with the writer + displaced and about to be completed |
| `SerialRuntime.OutcomesAreFinal` | services/robot-gateway/src/AethorStudioV2.Application/SerialDuplexScheduler.cs:681-688 | A ticket completes at most once: over any stretch of a run a given outcome never changes |
| `SerialRuntime.EveryTicketCompletes` | services/robot-gateway/src/AethorStudioV2.Application/SerialDuplexScheduler.cs:411-518 | Every accepted ticket completes: after cancellation it takes StepsToStop of the writer's own steps and the next step of each producer holding displaced work; from then on no request is accepted |
| `SerialRuntime.CancelledWriterStops` | services/robot-gateway/src/AethorStudioV2.Application/SerialDuplexScheduler.cs:411-518 | Once the lifetime is cancelled the writer stops within StepsToStop of its own steps (work queued or being cancelled, wakes to come, and at most 11), whatever producers and releases do in between |
| `SerialRuntime.StepNearsStop` | services/robot-gateway/src/AethorStudioV2.Application/SerialDuplexScheduler.cs:411-518 | After cancellation every writer step strictly lowers that bound and no step of anyone else raises it |
| `SerialRuntime.CancelledWriterCanStep` | services/robot-gateway/src/AethorStudioV2.Application/SerialDuplexScheduler.cs:579-619 | After cancellation the writer always has a step to take, parked at a fence or an empty queue included |
| `SerialRuntime.FaultCancels` | services/robot-gateway/src/AethorStudioV2.Application/SerialDuplexScheduler.cs:690-702 | A failed write or observer cancels the lifetime within four of the writer's own steps |
| `SerialRuntime.StoppedLeavesHandoffs` | services/robot-gateway/src/AethorStudioV2.Application/SerialDuplexScheduler.cs:656-679 | Once the writer has stopped, the accepted tickets are exactly the completed ones and those a producer is about to complete as superseded |
| `SerialRuntime.ExpiredWorkIsNeverTransmitted` | services/robot-gateway/src/AethorStudioV2.Application/SerialDuplexScheduler.cs:430-445 | Work completed as Expired or Superseded is in no state of the run handed to the transport, and Written or Failed work has been; when a write expires is stated by SerialOutcomes.ExpiredExactlyWhenLate |
| `SerialRuntime.LiveWorkIdsAreDistinct` | services/robot-gateway/src/AethorStudioV2.Application/SerialDuplexScheduler.cs:235-239 | A work ID occurs at most once among queued and unfinished work, and exactly the occurring IDs are refused as duplicates |
| `SerialRuntime.SafetyReserveHolds` | services/robot-gateway/src/AethorStudioV2.Application/SerialDuplexScheduler.cs:241-282 | In every reachable state the depth counter equals the sum of the queue lengths and is at most the capacity, and non-safety items number at most capacity minus reserve |
| `SerialRuntime.OnlySafetyWhileFenced` | services/robot-gateway/src/AethorStudioV2.Application/SerialDuplexScheduler.cs:413-450 | While the writer remembers a fence, everything it holds or transmits is Safety work |
| `SerialRuntime.FenceGivesWayOnlyToReleaseOrSafety` | services/robot-gateway/src/AethorStudioV2.Application/SerialDuplexScheduler.cs:418-421 | A remembered fence changes only because it was released, or to the unreleased fence of Safety work just written |
| `SerialRuntime.RunsKeepInv` | services/robot-gateway/src/AethorStudioV2.Application/SerialDuplexScheduler.cs:579-619 | The invariant behind these results (ledger, work IDs, shutdown order, fence, wake) holds in every state of every run |
| `SerialRuntime.AdmitMovesCount` | services/robot-gateway/src/AethorStudioV2.Application/SerialDuplexScheduler.cs:255-282 | An admission moves tickets and work IDs between the lanes, the displaced work and the new work, creating and losing none |
| `SerialRuntime.StepKeepsLedger` | services/robot-gateway/src/AethorStudioV2.Application/SerialDuplexScheduler.cs:656-688 | Every step keeps each accepted ticket in exactly one place |
| `WriteQueue.AdmitKeepsReserve` | services/robot-gateway/src/AethorStudioV2.Application/SerialDuplexScheduler.cs:227-283 | Admission keeps the queue shape; a fresh-ID Safety request is refused while running exactly when all slots hold Safety work, any other fresh one is accepted exactly while the reserve is untouched |
| `WriteQueue.AdmitLanes` | services/robot-gateway/src/AethorStudioV2.Application/SerialDuplexScheduler.cs:621-641 | New work joins the tail of its class; only Safety work at a full queue displaces anything, and then the oldest item of the lowest non-empty class, never Safety |
| `WriteQueue.WalkFindsFirstOccupiedTurn` | services/robot-gateway/src/AethorStudioV2.Application/SerialDuplexScheduler.cs:557-567 | The schedule loop stops at the first turn of the repeated schedule whose class has work, and leaves the index just behind it |
| `WriteQueue.AWholeRoundFindsWork` | services/robot-gateway/src/AethorStudioV2.Application/SerialDuplexScheduler.cs:122-132 | One round of the schedule finds nothing exactly when the three classes are empty, and then leaves the index where it was |
| `WriteQueue.TakeRemovesAHead` | services/robot-gateway/src/AethorStudioV2.Application/SerialDuplexScheduler.cs:550-577 | A take yields nothing exactly when no eligible work is queued; otherwise the head of a class, Safety first and without moving the schedule index |
| `WriteQueue.LanesAreFifo` | services/robot-gateway/src/AethorStudioV2.Application/SerialDuplexScheduler.cs:643-654 | Over any run of operations each class leaves in the order it arrived, nothing lost or invented |
| `WriteQueue.WalkApproaches` | services/robot-gateway/src/AethorStudioV2.Application/SerialDuplexScheduler.cs:557-567 | A take that serves another class brings a waiting class at least one slot nearer its turn |
| `WriteQueue.BoundedWaiting` | services/robot-gateway/src/AethorStudioV2.Application/SerialDuplexScheduler.cs:122-132 | Whatever else arrives, an Interactive, Telemetry or Background item with k items ahead has left, as number k, once 2(k+1), 6(k+1) or 8(k+1) non-safety items were taken |
| `SerialScheduler.SerialDuplexScheduler.QueueWrite` | services/robot-gateway/src/AethorStudioV2.Application/SerialDuplexScheduler.cs:227-283 | The locked region of QueueWrite, branch by branch on the array of queues, equals the admission function the results above are about, and keeps the queue shape |
| `SerialScheduler.SerialDuplexScheduler.RemoveOldestLowerPriority` | services/robot-gateway/src/AethorStudioV2.Application/SerialDuplexScheduler.cs:621-641 | The loop over the lower classes removes the head the specification names, and its work ID |
| `SerialScheduler.SerialDuplexScheduler.TakeNextWrite` | services/robot-gateway/src/AethorStudioV2.Application/SerialDuplexScheduler.cs:550-577 | The take on the mutable queues equals the specified take: same item, same index, same depth |
| `SerialScheduler.SerialDuplexScheduler.TakeFairShare` | services/robot-gateway/src/AethorStudioV2.Application/SerialDuplexScheduler.cs:557-567 | The schedule loop equals the specified walk |
| `SerialScheduler.SerialDuplexScheduler.CancelQueuedWrites` | services/robot-gateway/src/AethorStudioV2.Application/SerialDuplexScheduler.cs:656-679 | Clears all queues, IDs and the depth, and returns every queued item in queue order |
| `SerialScheduler.SerialDuplexScheduler.ForgetWorkId` | services/robot-gateway/src/AethorStudioV2.Application/SerialDuplexScheduler.cs:681-688 | Completion frees exactly the work ID |
| `ResponseLease.RunsKeepInv` | services/robot-gateway/src/AethorStudioV2.Application/DummySerialSession.cs:102-177 | The invariant of the lease protocol (one active lease, fences, released tasks, responses) holds in every state of every run |
| `ResponseLease.SafetyIsNeverPreempted` | services/robot-gateway/src/AethorStudioV2.Application/DummySerialSession.cs:328-344 | A Safety lease leaves the active place only by its own release or by cancellation of the session |
| `ResponseLease.ResponsesAreFinal` | services/robot-gateway/src/AethorStudioV2.Application/DummySerialSession.cs:266-274 | Each lease's response resolves at most once |
| `ResponseLease.WaitersAreWoken` | services/robot-gateway/src/AethorStudioV2.Application/DummySerialSession.cs:346-350 | A waiter whose awaited lease is no longer active can retry, or the party that removed the lease is about to set its task |
| `ResponseLease.FencesStandAndFall` | services/robot-gateway/src/AethorStudioV2.Application/DummySerialSession.cs:171-176 | The fence of the active lease stands until its transaction unwinds; a finished transaction leaves neither its own nor a taken-over fence behind |
| `ResponseLease.RepliesFollowOwnWrite` | services/robot-gateway/src/AethorStudioV2.Application/DummySerialSession.cs:290-299 | While no other queued write carries the work ID of the lease that is active, a lease takes a device reply only after a write of its own has started; uses of other IDs, however often, do not matter |
| `ResponseLease.FreshIdsSuffice` | services/robot-gateway/src/AethorStudioV2.Application/DummySerialSession.cs:110-144 | Callers that hand in no work ID twice meet that condition in every state of every run |
| `ResponseLease.StartArmsWithoutOwnWriteExactlyWhen` | services/robot-gateway/src/AethorStudioV2.Application/DummySerialSession.cs:290-299 | In every phase and dispatcher state, starting a write newly arms the active lease without a write of its own if and only if the write carries its work ID, is not its own, and the lease is neither armed nor has started one |
| `ResponseLease.ForeignReplyExactlyWhenForeignWriteStarts` | services/robot-gateway/src/AethorStudioV2.Application/DummySerialSession.cs:240-299 | Over every run: a lease can come to be answered without a write of its own if and only if a foreign write under its work ID starts while it is active, before its own |
| `ResponseLease.ReusedIdTakesAForeignReply` | services/robot-gateway/src/AethorStudioV2.Application/DummySerialSession.cs:290-299 | A concrete run in which an unobserved write under the same work ID arms the lease, which takes the reply before its own write |
| `ResponseLease.LostWriteTakesAForeignReply` | services/robot-gateway/src/AethorStudioV2.Application/DummySerialSession.cs:145-176 | A concrete run past acquisition: the own write is superseded or expires, its ID is used again, and the lease still active takes the reply to the other write |
| `ResponseLease.ForeignReplyExactlyWhenIdIsQueued` | services/robot-gateway/src/AethorStudioV2.Application/DummySerialSession.cs:240-299 | Seen from one state, in every phase: the next write to start can get the active lease answered without a write of its own if and only if none of its own has started and a foreign write is queued under its ID (or any foreign write, if it is already armed) |
| `AethorSession.RequestsAreCorrelated` | services/robot-gateway/src/AethorStudioV2.Application/AethorArmSerialSession.cs:781-817 | Request IDs are claimed in strictly increasing order, at most 64 requests are pending, and each result comes from a response frame with the request's ID after its write started |
| `AethorSession.MotorFramesAreAccountedFor` | services/robot-gateway/src/AethorStudioV2.Application/AethorArmSerialSession.cs:587-594 | At quiescent points before disposal projected = published + coalesced + pending slot; published frames keep projection order |
| `AethorSession.StepGoesOnward` | services/robot-gateway/src/AethorStudioV2.Application/AethorArmSerialSession.cs:487-521 | No step changes a settled response or makes a request pending again; a result is given only at the end of a reply to a request still pending |
| `AethorSession.BootChangeFailsPending` | services/robot-gateway/src/AethorStudioV2.Application/AethorArmSerialSession.cs:524-554 | Whatever happens after a boot-change frame, no request pending at that moment ever gets a result, and once the reset is over none is pending and each is settled or given up |
| `AethorSession.NothingProjectedUntilHello` | services/robot-gateway/src/AethorStudioV2.Application/AethorArmSerialSession.cs:556-567 | Without an identity no motor frame is projected until a HELLO response is accepted |
| `AethorSession.RunsKeepInv` | services/robot-gateway/src/AethorStudioV2.Application/AethorArmSerialSession.cs:438-522 | The session invariant holds in every state of every run |
| `AethorSession.StepKeepsInv` | services/robot-gateway/src/AethorStudioV2.Application/AethorArmSerialSession.cs:598-627 | Each atomic step of callers, writer, dispatcher, readers and shutdown keeps it, HELLO renewals included |
| `AethorSession.ProjectMovesOn` | services/robot-gateway/src/AethorStudioV2.Application/AethorArmSerialSession.cs:569-593 | Storing a projected frame counts the replaced one and stays ahead of everything published |
| `AethorSession.RequestEvolves` | services/robot-gateway/src/AethorStudioV2.Application/AethorArmSerialSession.cs:819-842 | Settling, arming or removing one request keeps the claims, the pending set and the results of all others consistent |
| `CommandEngine.QueueListsRetained` | services/robot-gateway/src/AethorStudioV2.Application/RobotGateway.cs:869-880 | In every reachable state the queue lists each retained ID once, and the exclusive ID is retained, so looking up the active command cannot miss |
| `CommandEngine.StepKeepsExclusivity` | services/robot-gateway/src/AethorStudioV2.Application/RobotGateway.cs:971-979 | Every step keeps "a retained running command owns the slot or is cancelled", except exactly the step that frees a slot whose ID has come to name another running request |
| `CommandEngine.OneLiveCommand` | services/robot-gateway/src/AethorStudioV2.Application/RobotGateway.cs:850-865 | While no ID is reused under an unfinished runner, at most one retained command runs uncancelled, and it owns the exclusive slot |
| `CommandEngine.SubmissionIsSafeExactlyWhenFresh` | services/robot-gateway/src/AethorStudioV2.Application/RobotGateway.cs:835-979 | In every reachable state: an accepted request has a continuation in which another runner frees its slot while it runs uncancelled if and only if it takes the ID of a runner that has not ended |
| `CommandEngine.NeverRobbed` | services/robot-gateway/src/AethorStudioV2.Application/RobotGateway.cs:971-979 | While every other runner under its ID has ended, a request never loses its slot to another runner, whatever is submitted afterwards |
| `CommandEngine.ReusedIdLosesItsSlot` | services/robot-gateway/src/AethorStudioV2.Application/RobotGateway.cs:971-979 | Runs, for every capacity and request, in which a runner that outlived a session reset frees the slot of a new request with the same ID |
| `CommandEngine.AcceptanceIsIdempotent` | services/robot-gateway/src/AethorStudioV2.Application/RobotGateway.cs:837-848 | Right after an accepted submission the same request waits for the same command without starting one, and a different request under its ID is a conflict that changes nothing |
| `CommandEngine.LatchBlocksMotion` | services/robot-gateway/src/AethorStudioV2.Application/RobotGateway.cs:1034-1042 | From the moment the latch is set until a stop completes or a session resets, every admission passes exactly if it is a stop |
| `CommandEngine.UncertainOutcomeLatchesFirst` | services/robot-gateway/src/AethorStudioV2.Application/RobotGateway.cs:969-979 | When a command gives up its slot after an uncertain status, its report was an earlier step of the run that set the latch, and the latch is still set unless a later step opened it; which ending reports which status is stated by CommandOutcomes.EndingDecidesReport |
| `CommandEngine.SubmitKeeps` | services/robot-gateway/src/AethorStudioV2.Application/RobotGateway.cs:835-883 | Acceptance, preemption by stop, immediate rejection and trim keep the queue, tokens and exclusivity |
| `CommandHistory.History.TrimCommandHistory` | services/robot-gateway/src/AethorStudioV2.Application/RobotGateway.cs:1766-1796 | The rotating trim equals the one-pass specification: drop the oldest completed, non-exclusive entries until within capacity or none is removable, order of the rest kept; it terminates |
| `CommandHistory.History.Rotate` | services/robot-gateway/src/AethorStudioV2.Application/RobotGateway.cs:1772-1787 | One full rotation takes out exactly the first removable ID and restores the order of the others |
| `CommandHistory.History.RemoveOldest` | services/robot-gateway/src/AethorStudioV2.Application/RobotGateway.cs:1770-1795 | One round removes the oldest removable entry from queue and map alike |
| `CommandHistory.TrimmedFitsOrIsStuck` | services/robot-gateway/src/AethorStudioV2.Application/RobotGateway.cs:1768-1793 | After a trim the history fits if enough is removable, and otherwise nothing removable is left |
| `CommandHistory.OlderGoesFirst` | services/robot-gateway/src/AethorStudioV2.Application/RobotGateway.cs:1772-1787 | Of two removable entries the trim never keeps the older and drops the younger |
| `CommandHistory.DropOldestKeeps` | services/robot-gateway/src/AethorStudioV2.Application/RobotGateway.cs:1775-1786 | The trim never removes the exclusive or a running entry, and invents none |
| `CommandHistory.OneThenMore` | services/robot-gateway/src/AethorStudioV2.Application/RobotGateway.cs:1766-1796 | Dropping one and then k is dropping k + 1: why the rounds compose |
| `ActionRunner.RunCore` | services/robot-gateway/src/AethorStudioV2.Application/ActionProgramRunner.cs:200-363 | The sequencer loop with its stop and fault handlers equals the run function, for every behaviour of the port; what that function reports is stated by the theorems of ActionResults |
| `ActionRunner.ConfirmWaypoint` | services/robot-gateway/src/AethorStudioV2.Application/ActionProgramRunner.cs:217-252 | One loop body: mode only if not confirmed, stop checks, then the joint target |
| `ActionRunner.ConfirmJoint` | services/robot-gateway/src/AethorStudioV2.Application/ActionProgramRunner.cs:254-299 | Joint target, confirmation, record and dwell of one waypoint |
| `ActionRunner.FailAndStop` | services/robot-gateway/src/AethorStudioV2.Application/ActionProgramRunner.cs:365-396 | A failure stops the arm exactly when the run owns a command, and hands out the checkpoint |
| `ActionRunner.StopByOperator` | services/robot-gateway/src/AethorStudioV2.Application/ActionProgramRunner.cs:314-350 | The handler of the operator stop equals the end of a run by stop, so its status and code are those of ActionResults.StoppedExactlyWhen |
| `ActionSafety.StopDiscipline` | services/robot-gateway/src/AethorStudioV2.Application/ActionProgramRunner.cs:213-396 | In every run a joint target follows the confirmed mode command of its mode and the confirmation of every earlier waypoint; exactly one stop goes out if and only if a command was issued and the run does not complete; the confirmed waypoints are exactly those up to the result's checkpoint |
| `ActionSafety.ChainConfirmsEachOnce` | services/robot-gateway/src/AethorStudioV2.Application/ActionProgramRunner.cs:206-212 | A chain of runs, each resumed from its predecessor's checkpoint, confirms every waypoint up to its progress exactly once and in order; ending Completed it confirms all; progress never regresses |
| `ActionSafety.CheckpointFitsOnlyItsPlan` | services/robot-gateway/src/AethorStudioV2.Application/ActionProgramRunner.cs:677-694 | A checkpoint from a run is accepted by exactly the plans of the same session and content |
| `ActionSafety.ResultMayBeResumed` | services/robot-gateway/src/AethorStudioV2.Application/ActionProgramRunner.cs:516-529 | Every checkpoint a run hands out is accepted by its own plan |
| `ActionSafety.VisitAdvances` | services/robot-gateway/src/AethorStudioV2.Application/ActionProgramRunner.cs:217-299 | Visiting a waypoint keeps the discipline, goes on only past a confirmed waypoint, and never completes the run by itself |
| `ActionSafety.CommandIdIsReadable` | services/robot-gateway/src/AethorStudioV2.Application/ActionProgramRunner.cs:726-727 | Command IDs name their run, waypoint and operation uniquely, whatever characters run IDs hold |
| `ActionSafety.CommandIdIsNoStopId` | services/robot-gateway/src/AethorStudioV2.Application/ActionProgramRunner.cs:726-729 | No waypoint command shares its ID with a stop command of any run |
| `PlanFingerprint.ComputeFingerprint` | services/robot-gateway/src/AethorStudioV2.Application/ActionProgramRunner.cs:731-755 | The field-by-field hashing loop feeds exactly the specified length-prefixed preimage |
| `PlanFingerprint.AppendHashValues` | services/robot-gateway/src/AethorStudioV2.Application/ActionProgramRunner.cs:757-764 | Appending texts one by one appends their length-prefixed blocks |
| `PlanFingerprint.FingerprintDeterminesContent` | services/robot-gateway/src/AethorStudioV2.Application/ActionProgramRunner.cs:731-764 | Equal fingerprints mean equal plans up to run ID and session ID, and conversely |
| `PlanFingerprint.BlocksAreReadable` | services/robot-gateway/src/AethorStudioV2.Application/ActionProgramRunner.cs:757-764 | The length-prefixed preimage is injective |
| `DecimalText.PrintThenRead` | services/robot-gateway/src/AethorStudioV2.Application/ActionProgramRunner.cs:735-735 | Reading a printed number gives it back |
| `DecimalText.ReadThenPrint` | shared/contracts/src/aethorArmAsciiV1.ts:120-122 | A run of digits is its own reprint exactly when it has no leading zero |
| `DecimalText.PaddedReads` | services/robot-gateway/src/AethorStudioV2.Application/ActionProgramRunner.cs:726-727 | A zero-padded index reads back |
| `Crc16.ComputeCrc16` | services/robot-gateway/src/AethorStudioV2.Domain/AethorArmAsciiProtocol.cs:97-112 | The byte and bit loops compute the bit-serial CRC of the message |
| `Crc16.FeedByte` | shared/contracts/src/aethorArmAsciiV1.ts:66-71 | Adding a byte to the high half and stepping eight times feeds its bits, most significant first |
| `Crc16.FeedBitIsInjective` | shared/contracts/src/aethorArmAsciiV1.ts:69-69 | Each step permutes the 16-bit states |
| `Crc16.WordsFeedInjectively` | shared/contracts/src/aethorArmAsciiV1.ts:65-73 | Up to 16 message bits act as one injective word step |
| `Crc16.BurstsAreDetected` | shared/contracts/src/aethorArmAsciiV1.ts:63-73 | Any burst of at most 16 bits, anywhere in a message of any length, changes the CRC |
| `Crc16.AdjacentBytesAreDetected` | services/robot-gateway/src/AethorStudioV2.Domain/AethorArmAsciiProtocol.cs:97-112 | Bodies of equal length that differ only within two adjacent bytes have different CRCs |
| `Crc16.ConstantsAreTheNumbers` | shared/contracts/src/aethorArmAsciiV1.ts:65-69 | The initial value and the generator are 0xFFFF and 0x1021 |
| `LineDecoder.DecodeChunk` | shared/contracts/src/aethorArmAsciiV1.ts:171-212 | The TypeScript chunk loop, cutting an overflowed buffer back, equals the byte-at-a-time decoder |
| `LineDecoder.DecodeByte` | shared/contracts/src/aethorArmAsciiV1.ts:187-209 | One byte of that loop, branch by branch |
| `LineDecoder.AethorArmAsciiLineDecoder.Append` | services/robot-gateway/src/AethorStudioV2.Domain/AethorArmAsciiProtocol.cs:294-330 | The C# decoder class equals the same byte-at-a-time decoder, so both agree on every byte stream |
| `LineDecoder.AethorArmAsciiLineDecoder.Finish` | services/robot-gateway/src/AethorStudioV2.Domain/AethorArmAsciiProtocol.cs:332-341 | What is left at the end of a stream is reported as discarded, never as a line |
| `LineDecoder.AethorArmAsciiLineDecoder.FinishRecord` | services/robot-gateway/src/AethorStudioV2.Domain/AethorArmAsciiProtocol.cs:350-361 | The end of a line yields its record and a fresh decoder |
| `LineDecoder.ChunkingDoesNotMatter` | shared/contracts/src/aethorArmAsciiV1.ts:187-211 | Any cutting of a byte stream into chunks yields the same records and state |
| `LineDecoder.EachLineIsDecodedAlone` | services/robot-gateway/src/AethorStudioV2.Domain/AethorArmAsciiProtocol.cs:294-361 | Each line yields exactly the records its printable prefix dictates (line, overlong, non-ASCII, control character), independent of what came before |
| `LineDecoder.PrintableLineSurvives` | shared/contracts/src/aethorArmAsciiV1.ts:203-207 | A printable line within 512 bytes comes back as that one line |
| `AsciiCodec.RequestRoundTrip` | shared/contracts/src/aethorArmAsciiV1.ts:75-164 | A formatted request, encoded and cut in any way, decodes to that one line, and either parser returns its ID, operation and fields |
| `AsciiCodec.FormattedLineParses` | services/robot-gateway/src/AethorStudioV2.Domain/AethorArmAsciiProtocol.cs:114-226 | Every formatted line is accepted by both parsers with the request it was formatted from |
| `AsciiCodec.ReformatsExactlyWithoutLeadingZero` | services/robot-gateway/src/AethorStudioV2.Domain/AethorArmAsciiProtocol.cs:114-226 | Formatting again what was parsed from a request line gives the same line if and only if its sequence has no leading zero |
| `AsciiCodec.LeadingZeroIsNotReproduced` | shared/contracts/src/aethorArmAsciiV1.ts:75-164 | The line of REQ 01 HELLO is accepted by both parsers, and the formatter gives the different line of REQ 1 HELLO for what they read |
| `AsciiCodec.DialectsAgree` | services/robot-gateway/src/AethorStudioV2.Domain/AethorArmAsciiProtocol.cs:188-195 | Both parsers accept the same inputs with the same frames; codes differ exactly for a malformed sequence token, BAD_FRAME against SEQUENCE_OUT_OF_RANGE |
| `AsciiCodec.CorruptionIsRejected` | shared/contracts/src/aethorArmAsciiV1.ts:107-114 | An accepted line corrupted within two adjacent characters of its body is accepted by neither parser |
| `AsciiCodec.FormatRequest` | shared/contracts/src/aethorArmAsciiV1.ts:75-95 | Both formatters (token list and string builder) compute the same line or the same refusal |
| `AsciiCodec.BuildRequest` | services/robot-gateway/src/AethorStudioV2.Domain/AethorArmAsciiProtocol.cs:129-146 | The string builder yields the joined tokens |
| `AsciiCodec.JoinRequest` | shared/contracts/src/aethorArmAsciiV1.ts:83-89 | The token list yields the request body |
| `AsciiCodec.CheckFields` | shared/contracts/src/aethorArmAsciiV1.ts:226-233 | The loop with its set of keys finds the first faulty field, or none |
| `AsciiCodec.ParseFrame` | services/robot-gateway/src/AethorStudioV2.Domain/AethorArmAsciiProtocol.cs:162-226 | The parser with its field loop equals the parse function, in both dialects; which lines that accepts, kind by kind, is stated by AsciiParsing.EveryLegalLineParses and OnlyLegalLinesParse |
| `AsciiCodec.CollectFields` | shared/contracts/src/aethorArmAsciiV1.ts:131-143 | The field loop accepts exactly the lists of distinct well-formed fields |
| `AsciiCodec.EnvelopeOpens` | shared/contracts/src/aethorArmAsciiV1.ts:107-114 | A clean body in its envelope passes the framing and CRC checks |
| `AsciiCodec.OpenEnvelope` | shared/contracts/src/aethorArmAsciiV1.ts:107-114 | An input that passes them is its body in the envelope of that body |
| `AsciiCodec.CrcTextReads` | shared/contracts/src/aethorArmAsciiV1.ts:245-247 | The four hexadecimal digits of a CRC read back |
| `AsciiCodec.SplitUndoesJoin` | shared/contracts/src/aethorArmAsciiV1.ts:116-117 | Splitting undoes joining for blank-free tokens |
| `AsciiCodec.JoinUndoesSplit` | shared/contracts/src/aethorArmAsciiV1.ts:116-117 | Joining undoes splitting |
| `AsciiCodec.FieldReads` | shared/contracts/src/aethorArmAsciiV1.ts:132-141 | A well-formed field parses to its key and value |
| `AsciiCodec.FieldPrints` | shared/contracts/src/aethorArmAsciiV1.ts:132-141 | A parsed field prints as its token and is well formed |
| `MotorFrame.ProjectJointSnapshot` | services/robot-gateway/src/AethorStudioV2.Domain/AethorArmMotorContracts.cs:58-148 | The projector, checking field by field with its own parsing loops, gives the specified result; what that is on the texts of the fields is stated by MotorMeaning.ProjectsExactlyWhen and MasksMeanAvailability |
| `MotorFrame.TryParseSevenDecimals` | services/robot-gateway/src/AethorStudioV2.Domain/AethorArmMotorContracts.cs:165-192 | The token loop yields the seven values exactly if there are seven tokens and each is a decimal |
| `MotorFrame.TryParseSevenUnsignedDecimals` | services/robot-gateway/src/AethorStudioV2.Domain/AethorArmMotorContracts.cs:194-221 | The same loop for the ages, which refuses a value outside 0..65535 |
| `MotorFrame.TryParseUnexpectedIds` | services/robot-gateway/src/AethorStudioV2.Domain/AethorArmMotorContracts.cs:266-302 | The loop over the unexpected IDs accepts exactly the specified lists |
| `MotorFrame.CollectSamples` | services/robot-gateway/src/AethorStudioV2.Domain/AethorArmMotorContracts.cs:119-139 | The loop over the bits emits the samples of present or conflicting joints, in order |
| `MotorFrame.SamplesAreTheEmitted` | services/robot-gateway/src/AethorStudioV2.Domain/AethorArmMotorContracts.cs:119-139 | The samples are exactly those of the joints whose present or conflict bit is set |
| `MotorFrame.ParsedIdsAscend` | services/robot-gateway/src/AethorStudioV2.Domain/AethorArmMotorContracts.cs:285-300 | Accepted unexpected IDs are strictly ascending bytes outside the motor IDs |
| `MotorFrame.ProjectedFrameIsSupportedExactlyWhen` | apps/studio-web/src/integrations/AethorTwinFrameCoordinator.ts:151-179 | Every frame projected under an accepted identity passes the twin's shape check if and only if its boot ID has at most 64 characters |
| `MotorFrame.LongBootIdIsRejected` | apps/studio-web/src/integrations/AethorTwinFrameCoordinator.ts:151-179 | A boot ID of 65 zeros: the HELLO identity check accepts it, a snapshot under it is projected, and the frame fails the twin's shape check |
| `MotorState.MaskDecides` | services/robot-gateway/src/AethorStudioV2.Domain/AethorArmMotorContracts.cs:92-139 | For masks already read as numbers: the three bits of a joint decide its availability and whether it is measured |
| `MotorState.ApplyFrame` | apps/studio-web/src/domain/aethorArmMotorState.ts:68-160 | Applying a frame, from the map of samples through the branches of each joint to the search for the first joint not present, equals the specified snapshot; an outdated frame only counts |
| `MotorState.ApplyJoint` | apps/studio-web/src/domain/aethorArmMotorState.ts:98-142 | The branches of one joint give its specified next state and measured position |
| `MotorState.ApplyJoints` | apps/studio-web/src/domain/aethorArmMotorState.ts:98-142 | The loop over the joints, reading each motor from the map, gives the specified joints and positions |
| `MotorState.GroupSamples` | apps/studio-web/src/domain/aethorArmMotorState.ts:83-88 | The map of samples by motor ID holds each motor's samples in order |
| `MotorState.NextPositionsAt` | apps/studio-web/src/domain/aethorArmMotorState.ts:133-133 | Each measured joint writes its own slot, every other slot keeps its position |
| `MotorState.DegradedIsASuffix` | apps/studio-web/src/domain/aethorArmMotorState.ts:144-147 | The degraded joints are the suffix from the first joint not present |
| `MotorState.DegradedFrom` | apps/studio-web/src/domain/aethorArmMotorState.ts:144-147 | The search for the first joint not present yields the degraded suffix |
| `MotorState.ExpireSnapshot` | apps/studio-web/src/domain/aethorArmMotorState.ts:167-196 | The expiry loop equals the specified expiry, and changes nothing if no joint expires |
| `MotorState.ExpireTwiceIsExpireOnce` | apps/studio-web/src/domain/aethorArmMotorState.ts:167-196 | Expiring at t1 and then at t2 >= t1 gives the availability and the degraded joints of expiring once at t2 |
| `FrameCoordinator.AethorTwinFrameCoordinator.Ingest` | apps/studio-web/src/integrations/AethorTwinFrameCoordinator.ts:54-78 | Keeps received = rejected + coalesced + applied + pending and "scheduled exactly when pending"; a frame is taken exactly when supported and advancing |
| `FrameCoordinator.AethorTwinFrameCoordinator.CommitPending` | apps/studio-web/src/integrations/AethorTwinFrameCoordinator.ts:135-148 | Hands both pending frames to the sink, left first, and counts them as applied |
| `FrameCoordinator.AethorTwinFrameCoordinator.OnScheduled` | apps/studio-web/src/integrations/AethorTwinFrameCoordinator.ts:71-76 | The callback always has something to commit |
| `FrameCoordinator.AethorTwinFrameCoordinator.FlushNow` | apps/studio-web/src/integrations/AethorTwinFrameCoordinator.ts:80-86 | Flushing commits what is pending and leaves nothing scheduled |
| `FrameCoordinator.AethorTwinFrameCoordinator.Reset` | apps/studio-web/src/integrations/AethorTwinFrameCoordinator.ts:88-96 | A reset forgets frames, tracking and counters |
| `FrameCoordinator.CommittedSequencesIncrease` | apps/studio-web/src/integrations/AethorTwinFrameCoordinator.ts:102-148 | Since a reset, whatever arrives and whenever it is committed, committed sequences strictly increase per arm within each boot epoch, and no boot is committed again within four epochs |
| `FrameCoordinator.RetiredBootsStayApart` | apps/studio-web/src/integrations/AethorTwinFrameCoordinator.ts:124-128 | In every reached arm state the retired boots are distinct, exclude the current one, and number the last epochs, up to four |
| `FrameCoordinator.AcceptKeepsBootsApart` | apps/studio-web/src/integrations/AethorTwinFrameCoordinator.ts:126-132 | Retired boot IDs stay distinct, at most four, and never the current one |
| `FrameCoordinator.IngestKeepsSound` | apps/studio-web/src/integrations/AethorTwinFrameCoordinator.ts:102-133 | Tracking keeps committed frames behind the pending one within each boot epoch |
| `FrameCoordinator.CommitKeepsSound` | apps/studio-web/src/integrations/AethorTwinFrameCoordinator.ts:135-148 | Committed sequences strictly increase per arm within each boot epoch |
| `SignalBuffer.BoundedSignalBuffer.Push` | apps/studio-web/src/domain/BoundedSignalBuffer.ts:19-36 | A push accepts, refuses or throws as specified; the ring then holds the window of all accepted samples |
| `SignalBuffer.BoundedSignalBuffer.Snapshot` | apps/studio-web/src/domain/BoundedSignalBuffer.ts:38-40 | A snapshot is exactly the accepted samples that are among the last maxSamples and no older than latest minus maxAge |
| `SignalBuffer.BoundedSignalBuffer.SnapshotSince` | apps/studio-web/src/domain/BoundedSignalBuffer.ts:42-48 | The same window, cut at a timestamp |
| `SignalBuffer.BoundedSignalBuffer.Overwrite` | apps/studio-web/src/domain/BoundedSignalBuffer.ts:30-31 | A full ring replaces its oldest sample and turns |
| `SignalBuffer.BoundedSignalBuffer.EvictOlderThan` | apps/studio-web/src/domain/BoundedSignalBuffer.ts:61-69 | The eviction loop stops at the first sample young enough, and keeps the newest |
| `SignalBuffer.SuffixIsTheWindow` | apps/studio-web/src/domain/BoundedSignalBuffer.ts:61-78 | A suffix that starts at either bound is the window |
| `SignalBuffer.WindowIsASuffix` | apps/studio-web/src/domain/BoundedSignalBuffer.ts:19-36 | A window is a suffix of what was accepted, within the capacity, and ends in the sample just accepted |
| `SignalBuffer.RunAcceptsInOrder` | apps/studio-web/src/domain/BoundedSignalBuffer.ts:19-36 | Any run of pushes accepts samples in order of time, and its last accepted sample is as late as every storable sample pushed |
| `SignalBuffer.SamplesSince` | apps/studio-web/src/domain/BoundedSignalBuffer.ts:45-46 | The filter keeps exactly the samples from the cutoff on |
| `SignalHistory.LiveSignalHistory.Ingest` | apps/studio-web/src/domain/LiveSignalHistory.ts:68-109 | Accepted frames plus detected gaps span the first to the last sequence; every ring buffer accepts exactly its signal's sample, at the frame's time; a rejected frame changes only its counter |
| `SignalHistory.LiveSignalHistory.BeginSession` | apps/studio-web/src/domain/LiveSignalHistory.ts:60-66 | A new session clears every ring, the same one goes on |
| `SignalHistory.LiveSignalHistory.PushAll` | apps/studio-web/src/domain/LiveSignalHistory.ts:91-104 | The loop pushes the three samples of every joint into the rings of its signals |
| `SignalHistory.LiveSignalHistory.PushSignal` | apps/studio-web/src/domain/LiveSignalHistory.ts:164-166 | A push into one ring leaves all others as they are |
| `SignalHistory.LiveSignalHistory.Snapshot` | apps/studio-web/src/domain/LiveSignalHistory.ts:115-127 | A snapshot reads, for each requested signal in order, the samples its ring holds since the cutoff |
| `SignalHistory.LiveSignalHistory.SignalsShareTimes` | apps/studio-web/src/domain/LiveSignalHistory.ts:91-104 | In every valid history all rings hold samples at the same times |
| `SignalHistory.SeriesShareTimes` | apps/studio-web/src/domain/LiveSignalHistory.ts:121-128 | Sample by sample, all series of a snapshot stand at the same times |
| `SignalHistory.SeriesAreRequested` | apps/studio-web/src/domain/LiveSignalHistory.ts:121-128 | The series are those of the requested signals, each once and in order |
| `SignalHistory.LiveSignalHistory.SamplesOfJoint` | apps/studio-web/src/domain/LiveSignalHistory.ts:91-104 | Each joint's actual, target and error sample goes to the buffer of that signal |
| `SignalHistory.WindowsShareTimes` | apps/studio-web/src/domain/LiveSignalHistory.ts:121-128 | Buffers that accepted samples at the same times show identical timestamps |
| `CommandSafety.OrderIsIrrelevantExactlyWhenUnique` | apps/studio-web/src/domain/commandSafety.ts:35-79 | For every delivery, invalid timestamps included: all orders and repetitions end in the same view if and only if the latest stops carry one stamp, the latest uncertain result after them is unique, and uncertain results without a valid time make no difference |
| `CommandSafety.FoldRemembersTheLatest` | apps/studio-web/src/domain/commandSafety.ts:49-79 | The view is the stamp of a latest confirmed stop and a latest uncertain result strictly after it; only without one may a result without a valid time be latched |
| `CommandSafety.ReduceSummarises` | apps/studio-web/src/domain/commandSafety.ts:49-79 | One delivery keeps the view a summary of everything delivered |
| `CommandSafety.RepeatLatches` | apps/studio-web/src/domain/commandSafety.ts:67-79 | Delivering a latest uncertain result once more latches exactly that one |
| `CommandSafety.RepeatStops` | apps/studio-web/src/domain/commandSafety.ts:56-65 | Delivering a latest stop once more leaves its stamp, and at most a latch with a later time |
| `CommandSafety.TiedFailuresDependOnOrder` | apps/studio-web/src/domain/commandSafety.ts:67-79 | Two failures at the same instant: the two orders of delivery leave different results latched |
| `CommandSafety.OnlyAStopClears` | apps/studio-web/src/domain/commandSafety.ts:56-79 | Only a confirmed stop no older than the latched result clears a latch, and an uncertain result always latches unless a stop is as recent, invalid timestamps included |
| `CommandSafety.Reconcile` | apps/studio-web/src/domain/commandSafety.ts:35-47 | The loop folds exactly the results of the session, starting afresh if the latched result is another session's |
| `SerialOutcomes.OutcomeExactlyWhenBrought` | services/robot-gateway/src/AethorStudioV2.Application/SerialDuplexScheduler.cs:411-518 | Over every run a completed ticket has an outcome if and only if an earlier step brought it: Written by a transport that accepted it, Failed by one or an observer that threw while running, Expired by waiting too long, Superseded by leaving the queue for another request, Cancelled by the end of the scheduler |
| `SerialOutcomes.WasAccepted` | services/robot-gateway/src/AethorStudioV2.Application/SerialDuplexScheduler.cs:255-282 | Work queued or with the writer was accepted by a step of the run, with the request and the time of that step |
| `SerialOutcomes.HeldSinceAccepted` | services/robot-gateway/src/AethorStudioV2.Application/SerialDuplexScheduler.cs:430-430 | The work the writer takes up carries the request and the clock of the step that accepted it |
| `SerialOutcomes.ExpiredExactlyWhenLate` | services/robot-gateway/src/AethorStudioV2.Application/SerialDuplexScheduler.cs:430-445 | A completed ticket is Expired if and only if, at the step that took it up, the time since the step that accepted it exceeded the maximum queue delay of its request |
| `SerialOutcomes.TransmittedExactlyWhenInTime` | services/robot-gateway/src/AethorStudioV2.Application/SerialDuplexScheduler.cs:430-450 | A step hands a ticket to the transport if and only if the writer holds it and the time since its acceptance is at most the maximum queue delay |
| `SerialOutcomes.EligibleWorkIsTaken` | services/robot-gateway/src/AethorStudioV2.Application/SerialDuplexScheduler.cs:550-577 | A take holds the oldest Safety work; without any, and with no fence remembered, the oldest of some other class with work; otherwise nothing |
| `SerialOutcomes.EligibleWorkIsHeld` | services/robot-gateway/src/AethorStudioV2.Application/SerialDuplexScheduler.cs:416-428 | A writer at the top of its loop with work it may take holds some within three steps of its own unless the scheduler is cancelled, so a released fence is forgotten |
| `SerialOutcomes.FencedWriteHoldsOthersBack` | services/robot-gateway/src/AethorStudioV2.Application/SerialDuplexScheduler.cs:470-479 | From the end of a fenced write until its fence is released or another fenced write ends, the writer takes up and transmits only Safety work, and remembers that fence |
| `WriteQueue.RefusedExactlyWhen` | services/robot-gateway/src/AethorStudioV2.Application/SerialDuplexScheduler.cs:235-282 | Each refusal has its reason exactly: stopping, a live work ID, the reserve for work below Safety, all slots holding Safety work; accepted and rejected requests are counted |
| `LeaseOutcomes.GetsLeaseExactlyWhen` | services/robot-gateway/src/AethorStudioV2.Application/DummySerialSession.cs:310-350 | A transaction gets the lease by a step if and only if it asks then and no lease is active, or it is Safety work and the active lease is below Safety |
| `LeaseOutcomes.ArmedExactlyWhen` | services/robot-gateway/src/AethorStudioV2.Application/DummySerialSession.cs:290-299 | A lease is armed if and only if a write started under its work ID while it was active |
| `LeaseOutcomes.AnsweredExactlyWhen` | services/robot-gateway/src/AethorStudioV2.Application/DummySerialSession.cs:240-278 | A lease has a response if and only if a step gave it that one: a delivery from a chunk taken up for it, its preemption, or the end of the session, the first of them |
| `LeaseOutcomes.CapturedExactlyWhen` | services/robot-gateway/src/AethorStudioV2.Application/DummySerialSession.cs:245-263 | Deliveries go to the lease that was active and armed when the chunk was taken up, whoever is active by then |
| `LeaseOutcomes.FenceFallsExactlyWhen` | services/robot-gateway/src/AethorStudioV2.Application/DummySerialSession.cs:145-176 | A fence is released exactly at its own unwinding or closing, or with the lease that took it over: once that queued its write, unwinds or is closed |
| `LeaseOutcomes.QueuesExactlyWhen` | services/robot-gateway/src/AethorStudioV2.Application/DummySerialSession.cs:197-238 | A write is queued if and only if the scheduler accepts it and its work ID is not live; the transaction then goes on, and unwinds at once on a live ID |
| `LeaseOutcomes.WritesExactlyWhen` | services/robot-gateway/src/AethorStudioV2.Application/DummySerialSession.cs:226-238 | A work ID is refused to others from the step that queues its write until that write has ended or was dropped, and no longer |
| `LeaseOutcomes.WaitsExactlyWhen` | services/robot-gateway/src/AethorStudioV2.Application/DummySerialSession.cs:310-350 | A transaction waits from an asking that did not get the lease until it asks again and gets it, or is abandoned |
| `LeaseOutcomes.CancellationIsThorough` | services/robot-gateway/src/AethorStudioV2.Application/DummySerialSession.cs:186-186 | A lease taken by the end of the session is answered, has released its fence and the one it took over, and wakes its waiters by the last step of its closing |
| `AethorReplies.RegistersExactlyWhen` | services/robot-gateway/src/AethorStudioV2.Application/AethorArmSerialSession.cs:781-812 | A request is taken on if and only if fewer than 64 are pending and its ID is above all claimed before |
| `AethorReplies.SpentIdsAreRefused` | services/robot-gateway/src/AethorStudioV2.Application/AethorArmSerialSession.cs:762-812 | An ID that was claimed by any frame or request, or is below one, is never taken again in the session |
| `AethorReplies.MatchingReplySettles` | services/robot-gateway/src/AethorStudioV2.Application/AethorArmSerialSession.cs:438-522 | A response or error to a pending request whose write had started, from the known boot, settles it by the next answer with the outcome its operation and the frame dictate, a result being that very frame |
| `AethorReplies.OtherFramesSettleNothing` | services/robot-gateway/src/AethorStudioV2.Application/AethorArmSerialSession.cs:467-491 | Acknowledgements, DONE, events and replies nobody waits for leave every request as it was |
| `AethorReplies.HelloRenews` | services/robot-gateway/src/AethorStudioV2.Application/AethorArmSerialSession.cs:598-620 | A valid HELLO response is accepted at once without a known identity, and with one once no other request is pending |
| `AethorReplies.RenewalEndsOthers` | services/robot-gateway/src/AethorStudioV2.Application/AethorArmSerialSession.cs:598-617 | When the identity is renewed every other request that was pending has been answered, cancelled or given up |
| `AethorReplies.CancellationsSayWhy` | services/robot-gateway/src/AethorStudioV2.Application/AethorArmSerialSession.cs:814-834 | Requests cancelled by a restart or renewal report Restarted, those cancelled by the end of the session Closed |
| `AethorReplies.IdentityExactlyWhen` | services/robot-gateway/src/AethorStudioV2.Application/AethorArmSerialSession.cs:524-627 | The identity is lost exactly with a frame of another boot, outside a HELLO in flight, and at the end; it is that of a HELLO once its cancellations are done; the frame counter restarts with both |
| `AethorReplies.NumberedExactlyWhen` | services/robot-gateway/src/AethorStudioV2.Application/AethorArmSerialSession.cs:570-583 | Under a known identity each telemetry frame and each response to a position query takes one number, refused or not |
| `AethorReplies.LatestWins` | services/robot-gateway/src/AethorStudioV2.Application/AethorArmSerialSession.cs:585-594 | The slot holds a frame if and only if it is the last one projected and nobody has read or dropped it since |
| `AethorReplies.DisposedReadsNothing` | services/robot-gateway/src/AethorStudioV2.Application/AethorArmSerialSession.cs:585-594 | After disposal nobody reads a frame, and the end counts an unread one as dropped |
| `CommandOutcomes.EndingDecidesReport` | services/robot-gateway/src/AethorStudioV2.Application/RobotGateway.cs:888-968 | The status a runner reports, spelled out for every ending of its core, for stops and motions, cancelled or not |
| `CommandOutcomes.ReportMovesLatch` | services/robot-gateway/src/AethorStudioV2.Application/RobotGateway.cs:969-997 | After a report the latch is set if and only if the ending alarms, in literal cases, or it was set and the report is not that of a completed stop |
| `CommandOutcomes.StepMovesLatch` | services/robot-gateway/src/AethorStudioV2.Application/RobotGateway.cs:985-997 | After any step the latch is set if and only if the step is an alarming report, or it was set and the step neither reports a completed stop nor clears the session |
| `CommandOutcomes.LatchedExactlyWhenAlarmed` | services/robot-gateway/src/AethorStudioV2.Application/RobotGateway.cs:985-997 | In every reachable state the latch is set if and only if some report with an alarming ending set it and no later step opened it |
| `CommandOutcomes.AdmittedExactlyWhen` | services/robot-gateway/src/AethorStudioV2.Application/RobotGateway.cs:1034-1042 | At admission a command goes on if and only if it is a stop or the latch is open |
| `CommandOutcomes.CancelledExactlyWhen` | services/robot-gateway/src/AethorStudioV2.Application/RobotGateway.cs:850-867 | A step cancels a command if and only if a stop under a new ID finds it, no stop itself, in the slot, or the session disconnects while it runs retained |
| `CommandOutcomes.SlotExactlyWhen` | services/robot-gateway/src/AethorStudioV2.Application/RobotGateway.cs:850-979 | The slot goes to a new ID that finds it free, or to a stop that finds another command in it, and is freed with the end of the command ID it names or the session |
| `CommandOutcomes.HistoryIsBounded` | services/robot-gateway/src/AethorStudioV2.Application/RobotGateway.cs:1766-1796 | After every acceptance and every end of a command the history is within its capacity, or every entry in it is still running or owns the slot |
| `ActionResults.CompletesExactlyWhen` | services/robot-gateway/src/AethorStudioV2.Application/ActionProgramRunner.cs:217-312 | A run completes if and only if the operator never stops it and every remaining waypoint passes: each reply identified, Completed, Ok and feedback-confirmed, each dwell elapsed, the mode commanded exactly when it differs from the one before |
| `ActionResults.StoppedExactlyWhen` | services/robot-gateway/src/AethorStudioV2.Application/ActionProgramRunner.cs:314-350 | Status Stopped if and only if code OperatorStopped, both if and only if the operator ended the run and either nothing was sent or the port answered the stop with its ID, session and kind, Completed, Ok and FeedbackConfirmed; StopUnconfirmed exactly for the other operator stops |
| `ActionResults.FailsExactlyWhen` | services/robot-gateway/src/AethorStudioV2.Application/ActionProgramRunner.cs:365-444 | Any other failed run carries the code of the reply or dwell that failed it, case by case from what the port did |
| `ActionResults.StopIsReported` | services/robot-gateway/src/AethorStudioV2.Application/ActionProgramRunner.cs:446-497 | The stop result and its confirmation are reported exactly when a stop was sent: the port's own reply if it is for this stop, and otherwise an unconfirmed one |
| `ActionResults.RecordsTellTheTrace` | services/robot-gateway/src/AethorStudioV2.Application/ActionProgramRunner.cs:221-291 | The records, one per waypoint visited and in order, hold exactly the commands sent, the replies to them and the confirmations |
| `PlanFingerprint.BlockIsSpelled` | services/robot-gateway/src/AethorStudioV2.Application/ActionProgramRunner.cs:757-764 | A block is the length of its text in four bytes, least significant first, and then the text |
| `PlanFingerprint.TextsArePlaced` | services/robot-gateway/src/AethorStudioV2.Application/ActionProgramRunner.cs:731-755 | Which text is hashed at which place: six of the program, then six and the positions of each waypoint |
| `Crc16.ResidueIsZeroExactlyForTheCrc` | shared/contracts/src/aethorArmAsciiV1.ts:63-73 | A message followed by sixteen bits leaves the zero register if and only if those are its CRC |
| `LineDecoder.LineIsReported` | shared/contracts/src/aethorArmAsciiV1.ts:186-209 | For every line: reported without its carriage return if printable and at most 512 long, unless empty; else discarded with its printable start as overlong, non-ASCII or control character, by the first byte that breaks it |
| `LineDecoder.RestIsReported` | shared/contracts/src/aethorArmAsciiV1.ts:214-224 | What is left at the end of the stream is discarded, as incomplete or for the reason it had |
| `AsciiParsing.EveryLegalLineParses` | services/robot-gateway/src/AethorStudioV2.Domain/AethorArmAsciiProtocol.cs:162-226 | For all seven kinds, every legal sequence token, subject and list of fields, with kind names and subjects spelled out: both parsers read the sealed body back as exactly that frame |
| `AsciiParsing.OnlyLegalLinesParse` | services/robot-gateway/src/AethorStudioV2.Domain/AethorArmAsciiProtocol.cs:162-226 | Every accepted line is the sealed text of a legal frame, the one reported |
| `AsciiParsing.RepliesAreWellFormed` | shared/contracts/src/aethorArmAsciiV1.ts:235-243 | An accepted ACK says accepted, an accepted RSP says ok, and only ERR, EVT and TEL come under sequence 0 |
| `AsciiParsing.FramingRefusals` | shared/contracts/src/aethorArmAsciiV1.ts:101-114 | Each framing refusal has its code exactly: empty, a line break, over 512, not printable, no envelope, a wrong CRC |
| `AsciiParsing.TokenRefusals` | shared/contracts/src/aethorArmAsciiV1.ts:116-143 | Behind a right envelope each refusal has its code exactly: the words, the sequence by dialect, the subject, an unknown operation |
| `AsciiParsing.FormatsExactlyWhen` | shared/contracts/src/aethorArmAsciiV1.ts:75-95 | What both formatters answer for every ID, operation and list of fields: the first failing check, the first faulty field, or the line spelled out |
| `AsciiParsing.CrcIsSpelled` | shared/contracts/src/aethorArmAsciiV1.ts:245-247 | The four characters behind a body are the hexadecimal digits of its CRC, highest first, by the table of digits |
| `MotorText.MaskAcceptedExactlyWhen` | services/robot-gateway/src/AethorStudioV2.Domain/AethorArmMotorContracts.cs:249-264 | A mask text is accepted exactly when it is 0x and one or two digits of 0-9, A-F and names no eighth joint |
| `MotorText.MaskHasItsDigits` | services/robot-gateway/src/AethorStudioV2.Domain/AethorArmMotorContracts.cs:249-264 | Bit i of an accepted mask is bit i of its last digit, or bit i - 4 of the digit before it, the digits read by their table |
| `MotorText.EveryMaskIsRead` | services/robot-gateway/src/AethorStudioV2.Domain/AethorArmMotorContracts.cs:249-264 | Every number below 128 is read from its own hexadecimal text, in two digits and, below 16, in one |
| `MotorText.DecimalExactlyWhen` | services/robot-gateway/src/AethorStudioV2.Domain/AethorArmMotorContracts.cs:223-247 | Exactly the texts of an optional sign, digits and at most one point count as decimals |
| `MotorText.SplitIsTheList` | services/robot-gateway/src/AethorStudioV2.Domain/AethorArmMotorContracts.cs:280-280 | The tokens of a list are the comma-free texts it is made of |
| `MotorText.SevenDecimalsAreRead` | services/robot-gateway/src/AethorStudioV2.Domain/AethorArmMotorContracts.cs:165-192 | Seven decimals are read exactly from seven decimal tokens, each value from its own token |
| `MotorText.UnexpectedIdsAreRead` | services/robot-gateway/src/AethorStudioV2.Domain/AethorArmMotorContracts.cs:266-302 | The unexpected IDs are none, or at most 32 ascending IDs outside the motors, each read from its own token |
| `MotorMeaning.MasksMeanAvailability` | apps/studio-web/src/domain/aethorArmMotorState.ts:68-160 | From the texts of the masks and of q_deg to the joints: conflict, present, stale or missing as the digits dictate; exactly the present joints move, joint i to the reading of the i-th comma-separated token; the chain is degraded exactly from the first joint not present |
| `MotorMeaning.ProjectsExactlyWhen` | services/robot-gateway/src/AethorStudioV2.Domain/AethorArmMotorContracts.cs:58-148 | Which snapshots are projected, on their texts, and which code the first failing check gives any other |
| `MotorMeaning.LateFramesAreCounted` | apps/studio-web/src/domain/aethorArmMotorState.ts:68-80 | A frame of the same boot that does not advance the sequence changes nothing but the count of ignored frames |
| `MotorMeaning.AgesAreTold` | apps/studio-web/src/domain/aethorArmMotorState.ts:98-142 | The age and the time of last observation of each joint, from the texts of the snapshot |
| `MotorMeaning.SnapshotIsIdentified` | apps/studio-web/src/domain/aethorArmMotorState.ts:148-160 | The boot, arm, sequence and times of the snapshot are those of the frame and of the commit |
| `MotorMeaning.ConflictsAreListed` | apps/studio-web/src/domain/aethorArmMotorState.ts:89-96 | Exactly the motors in conflict are listed as duplicates |
| `MotorMeaning.ForeignMotorsAreListed` | apps/studio-web/src/domain/aethorArmMotorState.ts:89-96 | Exactly the foreign motors its text names are listed as unexpected |
| `MotorState.ExpiredExactlyWhenOld` | apps/studio-web/src/domain/aethorArmMotorState.ts:167-196 | A present joint whose age has reached the limit becomes stale with that age; every other joint is as before |
| `MotorState.MinimumAgeIsLeast` | apps/studio-web/src/domain/aethorArmMotorState.ts:100-113 | The age of a conflicting joint is the least non-negative age among its samples |
| `FrameCoordinator.AcceptedExactlyWhen` | apps/studio-web/src/integrations/AethorTwinFrameCoordinator.ts:102-133 | A frame is accepted if and only if it is the first, or of the same source and either of the current boot with a higher sequence, or of a boot not among the last four and received no earlier than any before it; stated on the accepted history |
| `FrameCoordinator.ArmTracksItsHistory` | apps/studio-web/src/integrations/AethorTwinFrameCoordinator.ts:102-133 | In every run of an arm its tracking is that of the frames accepted so far |
| `SignalBuffer.KeptExactlyWhen` | apps/studio-web/src/domain/BoundedSignalBuffer.ts:19-69 | A sample is kept if and only if it is among the last maxSamples and no further behind the newest than maxAge |
| `SignalBuffer.OutcomeExactlyWhen` | apps/studio-web/src/domain/BoundedSignalBuffer.ts:19-36 | After any run of pushes a sample is refused for its timestamp, its value or as older than one pushed before exactly in those cases, and goes in otherwise |
| `SignalHistory.SignalsTell` | apps/studio-web/src/domain/LiveSignalHistory.ts:91-104 | The samples of a joint carry the measured position, the target and their difference at the time of the frame; without a target the last two are gaps marked invalid |
| `SignalHistory.LiveSignalHistory.StatusExactlyWhen` | apps/studio-web/src/domain/LiveSignalHistory.ts:68-87 | Which frames are taken, and which status every other has, case by case |
| `SignalHistory.LiveSignalHistory.ShownExactlyWhen` | apps/studio-web/src/domain/LiveSignalHistory.ts:115-128 | Of the samples held exactly those of the requested last seconds are shown, at least one second and at most 120 |
| `CommandSafety.WhatLatches` | apps/studio-web/src/domain/commandSafety.ts:3-79 | By statuses and codes: exactly Unconfirmed, Failed, TimedOut and SafetyInterlockLatched results that are no completed stop latch a clear view; exactly a completed stop with a valid time is remembered |
| `CommandSafety.WhatReplaces` | apps/studio-web/src/domain/commandSafety.ts:67-79 | From any view: which uncertain results replace the latched one, by their times |
| `SerialOutcomes.SwitchedExactlyWhen` | services/robot-gateway/src/AethorStudioV2.Application/SerialDuplexScheduler.cs:579-702 | In every reachable state a fence is released, requests are refused for stopping, and the lifetime is cancelled, if and only if a step of the run released it, stopped or faulted, and cancelled |
| `AethorReplies.ArmedExactlyWhen` | services/robot-gateway/src/AethorStudioV2.Application/AethorArmSerialSession.cs:438-451 | A request may be started from the step that queued its write until it has been, and replies are matched if and only if that start came while it was pending |
| `LeaseOutcomes.LeaverReleasesEverything` | services/robot-gateway/src/AethorStudioV2.Application/DummySerialSession.cs:171-176 | However a transaction ends, four more steps of its own later both its fences are released, it does not hold the lease, and its waiters are or will be woken |

## Left out

- Serial drivers, port enumeration, HTTP and SignalR hosting, logging and diagnostics: a transport write is a step that succeeds or throws.
- Retry after a transient write timeout (`SerialDuplexScheduler.cs:520-548`): inside the one transport step; a callback that throws before a write counts as a failing write.
- Argument validation of `QueueWrite` (`SerialDuplexScheduler.cs:735-757`) and of the gateway's command payloads: one-branch checks.
- SerialRuntime, ResponseLease, AethorSession, CommandEngine: objects shared by several threads are state values changed by atomic steps, so aliasing and memory ordering below the granularity of a lock or an interlocked access are not captured.
- SerialRuntime: the reader and dispatcher loops and their channel; they only enter as faults that stop the scheduler.
- ResponseLease: the scheduler below the session is abstracted to "any queued write may start or be dropped at any time"; which device reply answers which query is not claimed beyond the lease rules.
- AethorSession: the counters of invalid, orphan, timed-out and rejected frames; the identity check before a request is registered, which can be stale by then; the field checks of a HELLO response.
- AethorSession: the 32-bit wrap of the frame sequence, which the projector reports modulo 2^32; the published order is stated on the 64-bit counter.
- CommandEngine: the direct-command lane, polling and engineering-motion bookkeeping of the gateway; the core of a command is reduced to how it ends.
- Start, RequestStop and the owning task of the action runner, plan validation other than the checkpoint, and the timestamps of its records.
- PlanFingerprint: texts stand for their UTF-8 bytes, so texts with lone surrogates, which that encoding replaces, are not covered; SHA-256 is a hash without collisions.
- AsciiFrame: a text is a sequence of characters; outside the basic plane both languages count two units, which only changes which code refuses a non-ASCII input.
- AsciiFrame: bytes of a 16-bit CRC are sequences of bits, since every operation on them is bitwise.
- MotorFrame: the conversion of decimal numerals to doubles is a parameter; availability is stated over reals, without NaN.
- MotorState: the sorted order of the duplicate and unexpected motor IDs, which are sets here.
- FrameCoordinator: ingress and commit rates, metrics callbacks, and sinks that call back into the coordinator.
- SignalHistory: a buffer is found by the position of its joint, not by signal name; profiles with two joints under one protocol index are refused elsewhere (`jointInteraction.ts:25-27`). The sample rate and duration of a snapshot; a double overflow of the computed error, which would throw midway, does not exist over reals.
- CommandSafety: the message of a result; two results that differ in nothing else are one here.
- SerialRuntime: that the writer and the producers keep getting processor time is a hypothesis of `EveryTicketCompletes`, stated as the number of steps they take; closing the transport is inside the step that cancels the lifetime.
- React components, the 3D scene, persistence, the desktop shell, `sessionStateMachine.ts`, `commandStateMachine.ts` and option validators: user interface, operating-system calls and one-branch facts.
