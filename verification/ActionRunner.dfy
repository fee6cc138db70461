/**
One run of an action program: the waypoint sequencer of ActionProgramRunner.cs against an
arbitrary command port. The environment decides every reply, timeout, fault and stop
request; the run is determined by the plan, the resume checkpoint and the environment.
*/
module ActionRunner {
  import opened Wrappers
  import opened GatewayContracts
  import opened DecimalText
  import opened PlanFingerprint

  // How one awaited port call ends.
  datatype PortOutcome = Returned(result: CommandResult) | TimesOut | StopsWaiting | Throws

  datatype DelayOutcome = Elapses | StopsDelay | DelayThrows

  // Everything outside the runner: what the port answers and when the operator stops the run.
  datatype Environment = Environment(
    stopAtTop: nat -> bool,
    mode: nat -> PortOutcome,
    stopAfterMode: nat -> bool,
    joint: nat -> PortOutcome,
    wait: nat -> DelayOutcome,
    stopAtEnd: bool,
    stop: PortOutcome)

  // What the runner and the port exchange, in order.
  datatype Event =
    | Sent(kind: Kind, at: nat, commandId: string)
    | Answered(kind: Kind, at: nat, result: CommandResult)

  datatype Record = Record(
    index: nat, waypointId: string,
    modeCommandId: Option<string>, modeResult: Option<CommandResult>,
    jointCommandId: Option<string>, jointResult: Option<CommandResult>,
    feedbackConfirmed: bool)

  datatype Checkpoint = Checkpoint(
    programId: string, revision: int, sessionId: string, profileId: string,
    fingerprint: string, lastConfirmedIndex: int, lastConfirmedId: string)

  datatype RunStatus = RunCompleted | RunStopped | RunFailed

  datatype RunCode =
    RunOk | OperatorStopped | WaypointCommandFailed | CommandAwaitTimedOut | CommandTransportFailure | StopUnconfirmed

  datatype RunResult = RunResult(
    status: RunStatus, code: RunCode, records: seq<Record>, checkpoint: Option<Checkpoint>,
    stopResult: Option<CommandResult>, safeStopConfirmed: Option<bool>)

  // ---------------------------------------------------------------- command identity

  datatype Operation = ModeOperation | JointOperation

  function OperationText(op: Operation): string {
    if op == ModeOperation then "mode" else "joint"
  }

  function CommandId(runId: string, index: nat, op: Operation): string {
    "action-" + runId + "-wp-" + Padded(index + 1, 3) + "-" + OperationText(op)
  }

  function StopCommandId(runId: string): string {
    "action-" + runId + "-stop"
  }

  predicate HasExpectedIdentity(r: CommandResult, commandId: string, sessionId: string, kind: Kind) {
    r.commandId == commandId && r.sessionId == sessionId && r.kind == kind
  }

  predicate IsFeedbackConfirmed(r: CommandResult, commandId: string, sessionId: string, kind: Kind) {
    && HasExpectedIdentity(r, commandId, sessionId, kind)
    && r.status == Completed && r.code == Ok && r.evidence == FeedbackConfirmed
  }

  function FailureCode(r: CommandResult): RunCode {
    if r.status == TimedOut then CommandAwaitTimedOut
    else if r.status == Unconfirmed && r.code == TransportError then CommandTransportFailure
    else WaypointCommandFailed
  }

  // The result of one command, or none when the operator's stop ends the wait.
  function Execute(o: PortOutcome, commandId: string, sessionId: string, kind: Kind): Option<CommandResult> {
    match o
    case Returned(r) =>
      if HasExpectedIdentity(r, commandId, sessionId, kind) then Some(r)
      else Some(CommandResult(commandId, sessionId, kind, Unconfirmed, TransportError, NoEvidence))
    case TimesOut => Some(CommandResult(commandId, sessionId, kind, TimedOut, Timeout, NoEvidence))
    case StopsWaiting => None
    case Throws => Some(CommandResult(commandId, sessionId, kind, Unconfirmed, TransportError, NoEvidence))
  }

  function TryStop(p: Plan, o: PortOutcome): CommandResult {
    var id := StopCommandId(p.runId);
    match o
    case Returned(r) =>
      if HasExpectedIdentity(r, id, p.sessionId, StopAndDisable) then r
      else CommandResult(id, p.sessionId, StopAndDisable, Unconfirmed, TransportError, NoEvidence)
    case TimesOut => CommandResult(id, p.sessionId, StopAndDisable, Unconfirmed, Timeout, NoEvidence)
    case StopsWaiting => CommandResult(id, p.sessionId, StopAndDisable, Unconfirmed, Timeout, NoEvidence)
    case Throws => CommandResult(id, p.sessionId, StopAndDisable, Unconfirmed, TransportError, NoEvidence)
  }

  predicate ModeConfirmed(p: Plan, i: nat, r: CommandResult) {
    IsFeedbackConfirmed(r, CommandId(p.runId, i, ModeOperation), p.sessionId, SetMode)
  }

  predicate JointConfirmed(p: Plan, i: nat, r: CommandResult) {
    IsFeedbackConfirmed(r, CommandId(p.runId, i, JointOperation), p.sessionId, JointGroup)
  }

  // ---------------------------------------------------------------- one run as a function

  // Between two awaits: the next waypoint to confirm, the confirmed mode, the exchange so far.
  datatype State = State(next: nat, mode: Option<int>, trace: seq<Event>, records: seq<Record>)

  datatype Exit = AllConfirmed | ByStop | ByFailure(code: RunCode)

  datatype Progress = Going(s: State) | Ended(exit: Exit, s: State)

  function Start(first: nat): State {
    State(first, None, [], [])
  }

  function SendJoint(p: Plan, env: Environment, s: State, record: Record): Progress
    requires s.next < |p.waypoints|
  {
    var i := s.next;
    var id := CommandId(p.runId, i, JointOperation);
    var record := record.(jointCommandId := Some(id));
    var trace := s.trace + [Sent(JointGroup, i, id)];
    match Execute(env.joint(i), id, p.sessionId, JointGroup)
    case None => Ended(ByStop, s.(trace := trace, records := s.records + [record]))
    case Some(r) =>
      var record := record.(jointResult := Some(r));
      var trace := trace + [Answered(JointGroup, i, r)];
      if !JointConfirmed(p, i, r) then
        Ended(ByFailure(FailureCode(r)), s.(trace := trace, records := s.records + [record]))
      else
        var record := record.(feedbackConfirmed := true);
        var s := State(i + 1, s.mode, trace, s.records + [record]);
        if p.waypoints[i].waitMs <= 0 || env.wait(i) == Elapses then Going(s)
        else if env.wait(i) == StopsDelay then Ended(ByStop, s)
        else Ended(ByFailure(CommandTransportFailure), s)
  }

  function Visit(p: Plan, env: Environment, s: State): Progress
    requires s.next < |p.waypoints|
  {
    var i, w := s.next, p.waypoints[s.next];
    if env.stopAtTop(i) then Ended(ByStop, s)
    else
      var record := Record(i, w.id, None, None, None, None, false);
      if s.mode == Some(w.mode) then SendJoint(p, env, s, record)
      else
        var id := CommandId(p.runId, i, ModeOperation);
        var record := record.(modeCommandId := Some(id));
        var trace := s.trace + [Sent(SetMode, i, id)];
        match Execute(env.mode(i), id, p.sessionId, SetMode)
        case None => Ended(ByStop, s.(trace := trace, records := s.records + [record]))
        case Some(r) =>
          var record := record.(modeResult := Some(r));
          var trace := trace + [Answered(SetMode, i, r)];
          if !ModeConfirmed(p, i, r) then
            Ended(ByFailure(FailureCode(r)), s.(trace := trace, records := s.records + [record]))
          else if env.stopAfterMode(i) then
            Ended(ByStop, s.(trace := trace, records := s.records + [record]))
          else
            SendJoint(p, env, s.(mode := Some(w.mode), trace := trace), record)
  }

  function Drive(p: Plan, env: Environment, s: State): Progress
    requires s.next <= |p.waypoints|
    decreases |p.waypoints| - s.next
  {
    if s.next == |p.waypoints| then Ended(if env.stopAtEnd then ByStop else AllConfirmed, s)
    else
      match Visit(p, env, s)
      case Ended(exit, s') => Ended(exit, s')
      case Going(s') => Drive(p, env, s')
  }

  function CheckpointOf(p: Plan, fingerprint: string, status: RunStatus, next: nat): Option<Checkpoint>
    requires next <= |p.waypoints|
  {
    if status != RunCompleted && next > 0 then
      Some(Checkpoint(p.programId, p.revision, p.sessionId, p.profileId, fingerprint, next - 1, p.waypoints[next - 1].id))
    else None
  }

  // The end of a run: a stop command goes out exactly when the run owns a command and did not complete.
  function Conclude(p: Plan, fingerprint: string, env: Environment, exit: Exit, s: State): (RunResult, seq<Event>)
    requires s.next <= |p.waypoints|
  {
    if exit == AllConfirmed then
      (RunResult(RunCompleted, RunOk, s.records, None, None, None), s.trace)
    else if s.trace == [] then
      var status := if exit == ByStop then RunStopped else RunFailed;
      var code := if exit == ByStop then OperatorStopped else exit.code;
      (RunResult(status, code, s.records, CheckpointOf(p, fingerprint, status, s.next), None, None), s.trace)
    else
      var id := StopCommandId(p.runId);
      var stopResult := TryStop(p, env.stop);
      var confirmed := IsFeedbackConfirmed(stopResult, id, p.sessionId, StopAndDisable);
      var status := if exit == ByStop && confirmed then RunStopped else RunFailed;
      var code := if exit.ByFailure? then exit.code else if confirmed then OperatorStopped else StopUnconfirmed;
      (RunResult(status, code, s.records, CheckpointOf(p, fingerprint, status, s.next), Some(stopResult), Some(confirmed)),
       s.trace + [Sent(StopAndDisable, s.next, id), Answered(StopAndDisable, s.next, stopResult)])
  }

  function FirstIndex(checkpoint: Option<Checkpoint>): int {
    if checkpoint.None? then 0 else checkpoint.value.lastConfirmedIndex + 1
  }

  predicate CheckpointMatches(p: Plan, fingerprint: string, c: Checkpoint) {
    && c.programId == p.programId && c.revision == p.revision
    && c.sessionId == p.sessionId && c.profileId == p.profileId
    && c.fingerprint == fingerprint
    && 0 <= c.lastConfirmedIndex < |p.waypoints|
    && c.lastConfirmedId == p.waypoints[c.lastConfirmedIndex].id
  }

  predicate MayResume(p: Plan, fingerprint: string, checkpoint: Option<Checkpoint>) {
    checkpoint.Some? ==> CheckpointMatches(p, fingerprint, checkpoint.value)
  }

  lemma DriveEnds(p: Plan, env: Environment, s: State)
    requires s.next <= |p.waypoints|
    ensures var d := Drive(p, env, s); d.Ended? && s.next <= d.s.next <= |p.waypoints|
    decreases |p.waypoints| - s.next
  {
    if s.next < |p.waypoints| && Visit(p, env, s).Going? {
      DriveEnds(p, env, Visit(p, env, s).s);
    }
  }

  function Run(p: Plan, fingerprint: string, checkpoint: Option<Checkpoint>, env: Environment): (RunResult, seq<Event>)
    requires MayResume(p, fingerprint, checkpoint)
  {
    var d := Drive(p, env, Start(FirstIndex(checkpoint)));
    DriveEnds(p, env, Start(FirstIndex(checkpoint)));
    Conclude(p, fingerprint, env, d.exit, d.s)
  }

  // ---------------------------------------------------------------- the sequencer loop

  method FailAndStop(p: Plan, fingerprint: string, env: Environment, trace: seq<Event>, records: seq<Record>,
                     last: int, code: RunCode, commandOwnershipStarted: bool, ghost mode: Option<int>)
    returns (result: RunResult, final: seq<Event>)
    requires -1 <= last < |p.waypoints| && (commandOwnershipStarted <==> trace != [])
    ensures (result, final) == Conclude(p, fingerprint, env, ByFailure(code), State(last + 1, mode, trace, records))
  {
    final := trace;
    var stopResult, stopConfirmed := None, None;
    if commandOwnershipStarted {
      final := final + [Sent(StopAndDisable, last + 1, StopCommandId(p.runId))];
      var r := TryStop(p, env.stop);
      final := final + [Answered(StopAndDisable, last + 1, r)];
      stopResult := Some(r);
      stopConfirmed := Some(IsFeedbackConfirmed(r, StopCommandId(p.runId), p.sessionId, StopAndDisable));
      assert final == trace + [Sent(StopAndDisable, last + 1, StopCommandId(p.runId)), Answered(StopAndDisable, last + 1, r)];
    }
    result := RunResult(RunFailed, code, records, CheckpointOf(p, fingerprint, RunFailed, last + 1), stopResult, stopConfirmed);
  }

  // The handler of the operator's stop.
  method StopByOperator(p: Plan, fingerprint: string, env: Environment, trace: seq<Event>, records: seq<Record>,
                        last: int, commandOwnershipStarted: bool, ghost mode: Option<int>)
    returns (result: RunResult, final: seq<Event>)
    requires -1 <= last < |p.waypoints| && (commandOwnershipStarted <==> trace != [])
    ensures (result, final) == Conclude(p, fingerprint, env, ByStop, State(last + 1, mode, trace, records))
  {
    if !commandOwnershipStarted {
      var checkpoint := CheckpointOf(p, fingerprint, RunStopped, last + 1);
      return RunResult(RunStopped, OperatorStopped, records, checkpoint, None, None), trace;
    }
    final := trace + [Sent(StopAndDisable, last + 1, StopCommandId(p.runId))];
    var r := TryStop(p, env.stop);
    final := final + [Answered(StopAndDisable, last + 1, r)];
    var confirmed := IsFeedbackConfirmed(r, StopCommandId(p.runId), p.sessionId, StopAndDisable);
    var status := if confirmed then RunStopped else RunFailed;
    var code := if confirmed then OperatorStopped else StopUnconfirmed;
    result := RunResult(status, code, records, CheckpointOf(p, fingerprint, status, last + 1), Some(r), Some(confirmed));
    assert final == trace + [Sent(StopAndDisable, last + 1, StopCommandId(p.runId)), Answered(StopAndDisable, last + 1, r)];
  }

  // The second half of the loop body: send the joint target, wait for its confirmation, then dwell.
  method ConfirmJoint(p: Plan, env: Environment, index: nat, confirmedMode: Option<int>,
                      trace: seq<Event>, records: seq<Record>, pending: Record)
    returns (exit: Option<Exit>, newTrace: seq<Event>, newRecords: seq<Record>, last: int)
    requires index < |p.waypoints|
    ensures -1 <= last <= index
    ensures SendJoint(p, env, State(index, confirmedMode, trace, records), pending)
         == var s := State(last + 1, confirmedMode, newTrace, newRecords);
            if exit.None? then Going(s) else Ended(exit.value, s)
  {
    last := index - 1;
    var commandId := CommandId(p.runId, index, JointOperation);
    var record := pending.(jointCommandId := Some(commandId));
    newTrace := trace + [Sent(JointGroup, index, commandId)];
    var jointResult := Execute(env.joint(index), commandId, p.sessionId, JointGroup);
    if jointResult == None {
      return Some(ByStop), newTrace, records + [record], last;
    }
    record := record.(jointResult := jointResult);
    newTrace := newTrace + [Answered(JointGroup, index, jointResult.value)];
    if !IsFeedbackConfirmed(jointResult.value, commandId, p.sessionId, JointGroup) {
      return Some(ByFailure(FailureCode(jointResult.value))), newTrace, records + [record], last;
    }
    record := record.(feedbackConfirmed := true);
    newRecords := records + [record];
    last := index;
    exit := None;
    if p.waypoints[index].waitMs > 0 {
      match env.wait(index)
      case Elapses =>
      case StopsDelay => exit := Some(ByStop);
      case DelayThrows => exit := Some(ByFailure(CommandTransportFailure));
    }
  }

  // The loop body: confirm the waypoint's mode unless it is already confirmed, then its joints.
  method ConfirmWaypoint(p: Plan, env: Environment, index: nat, mode: Option<int>, trace: seq<Event>, records: seq<Record>)
    returns (exit: Option<Exit>, confirmedMode: Option<int>, newTrace: seq<Event>, newRecords: seq<Record>, last: int)
    requires index < |p.waypoints|
    ensures -1 <= last <= index
    ensures exit.None? ==> last == index
    ensures Drive(p, env, State(index, mode, trace, records))
         == var s := State(last + 1, confirmedMode, newTrace, newRecords);
            if exit.None? then Drive(p, env, s) else Ended(exit.value, s)
  {
    exit, confirmedMode, newTrace, newRecords, last := None, mode, trace, records, index - 1;
    if env.stopAtTop(index) {
      return Some(ByStop), confirmedMode, newTrace, newRecords, last;
    }
    var record := Record(index, p.waypoints[index].id, None, None, None, None, false);
    if confirmedMode != Some(p.waypoints[index].mode) {
      var commandId := CommandId(p.runId, index, ModeOperation);
      record := record.(modeCommandId := Some(commandId));
      newTrace := newTrace + [Sent(SetMode, index, commandId)];
      var modeResult := Execute(env.mode(index), commandId, p.sessionId, SetMode);
      if modeResult == None {
        return Some(ByStop), confirmedMode, newTrace, records + [record], last;
      }
      record := record.(modeResult := modeResult);
      newTrace := newTrace + [Answered(SetMode, index, modeResult.value)];
      if !IsFeedbackConfirmed(modeResult.value, commandId, p.sessionId, SetMode) {
        return Some(ByFailure(FailureCode(modeResult.value))), confirmedMode, newTrace, records + [record], last;
      }
      if env.stopAfterMode(index) {
        return Some(ByStop), confirmedMode, newTrace, records + [record], last;
      }
      confirmedMode := Some(p.waypoints[index].mode);
    }
    exit, newTrace, newRecords, last := ConfirmJoint(p, env, index, confirmedMode, newTrace, records, record);
  }

  // The try block: waypoint after waypoint until all are confirmed or one of them ends the run.
  method ConfirmAll(p: Plan, env: Environment, first: nat)
    returns (exit: Exit, ghost mode: Option<int>, trace: seq<Event>, records: seq<Record>, last: int)
    requires first <= |p.waypoints|
    ensures -1 <= last < |p.waypoints|
    ensures Drive(p, env, Start(first)) == Ended(exit, State(last + 1, mode, trace, records))
  {
    var confirmedMode: Option<int> := None;
    records, trace, last := [], [], first - 1;
    for index := first to |p.waypoints|
      invariant last == index - 1
      invariant Drive(p, env, State(index, confirmedMode, trace, records)) == Drive(p, env, Start(first))
    {
      var ended;
      ended, confirmedMode, trace, records, last := ConfirmWaypoint(p, env, index, confirmedMode, trace, records);
      mode := confirmedMode;
      if ended.Some? {
        exit := ended.value;
        return;
      }
    }
    mode := confirmedMode;
    exit := if env.stopAtEnd then ByStop else AllConfirmed;
  }

  method RunCore(p: Plan, fingerprint: string, checkpoint: Option<Checkpoint>, env: Environment)
    returns (result: RunResult, trace: seq<Event>)
    requires MayResume(p, fingerprint, checkpoint)
    ensures (result, trace) == Run(p, fingerprint, checkpoint, env)
  {
    ghost var mode;
    var exit, records, last;
    exit, mode, trace, records, last := ConfirmAll(p, env, FirstIndex(checkpoint));
    var commandOwnershipStarted := trace != [];
    match exit
    case AllConfirmed => result := RunResult(RunCompleted, RunOk, records, None, None, None);
    case ByStop =>
      result, trace := StopByOperator(p, fingerprint, env, trace, records, last, commandOwnershipStarted, mode);
    case ByFailure(code) =>
      result, trace := FailAndStop(p, fingerprint, env, trace, records, last, code, commandOwnershipStarted, mode);
  }
}
