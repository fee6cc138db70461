/** What every run of an action program keeps, and what a chain of resumed runs achieves. */
module ActionSafety {
  import opened Wrappers
  import opened GatewayContracts
  import opened DecimalText
  import opened PlanFingerprint
  import opened ActionRunner

  // ---------------------------------------------------------------- reading a trace

  function Range(a: nat, b: nat): seq<nat> {
    if a < b then seq(b - a, k requires 0 <= k => a + k) else []
  }

  // The waypoints whose joint target was confirmed, in order of confirmation.
  function ConfirmedIn(p: Plan, t: seq<Event>): seq<nat> {
    if t == [] then []
    else
      var e, before := t[|t| - 1], ConfirmedIn(p, t[..|t| - 1]);
      if e.Answered? && e.kind == JointGroup && JointConfirmed(p, e.at, e.result) then before + [e.at] else before
  }

  // The mode the arm is known to be in: confirmed, and no mode command issued since.
  function ModeInForce(p: Plan, t: seq<Event>): Option<int> {
    if t == [] then None
    else
      var e := t[|t| - 1];
      if e.kind != SetMode then ModeInForce(p, t[..|t| - 1])
      else if e.Answered? && e.at < |p.waypoints| && ModeConfirmed(p, e.at, e.result)
      then Some(p.waypoints[e.at].mode)
      else None
  }

  function StopsIn(t: seq<Event>): nat {
    if t == [] then 0
    else StopsIn(t[..|t| - 1]) + if t[|t| - 1].Sent? && t[|t| - 1].kind == StopAndDisable then 1 else 0
  }

  // What may be exchanged after `before`.
  predicate Allowed(p: Plan, first: nat, before: seq<Event>, e: Event) {
    match e
    case Sent(kind, i, id) =>
      StopsIn(before) == 0
      && (if kind == StopAndDisable then before != [] && id == StopCommandId(p.runId)
          else
            i < |p.waypoints| && ConfirmedIn(p, before) == Range(first, i)
            && (if kind == SetMode then id == CommandId(p.runId, i, ModeOperation)
                else kind == JointGroup && id == CommandId(p.runId, i, JointOperation)
                     && ModeInForce(p, before) == Some(p.waypoints[i].mode)))
    case Answered(kind, i, r) =>
      before != [] && before[|before| - 1] == Sent(kind, i, r.commandId)
  }

  ghost predicate Disciplined(p: Plan, first: nat, t: seq<Event>) {
    forall k :: 0 <= k < |t| ==> Allowed(p, first, t[..k], t[k])
  }

  lemma DisciplineGrows(p: Plan, first: nat, t: seq<Event>, e: Event)
    requires Disciplined(p, first, t) && Allowed(p, first, t, e)
    ensures Disciplined(p, first, t + [e])
    ensures (t + [e])[..|t|] == t
  {
    forall k | 0 <= k < |t + [e]| ensures Allowed(p, first, (t + [e])[..k], (t + [e])[k]) {
      assert (t + [e])[..k] == t[..k] && (k == |t| ==> t[..k] == t);
    }
  }

  lemma RangeGrows(a: nat, b: nat)
    requires a <= b
    ensures Range(a, b) + [b] == Range(a, b + 1)
  {
  }

  // ---------------------------------------------------------------- one event

  ghost predicate Sound(p: Plan, first: nat, next: nat, t: seq<Event>) {
    && first <= next <= |p.waypoints|
    && Disciplined(p, first, t)
    && ConfirmedIn(p, t) == Range(first, next)
    && StopsIn(t) == 0
  }

  ghost predicate Ready(p: Plan, first: nat, s: State) {
    Sound(p, first, s.next, s.trace) && ModeInForce(p, s.trace) == s.mode
  }

  lemma SendingIsSound(p: Plan, first: nat, next: nat, t: seq<Event>, e: Event)
    requires Sound(p, first, next, t) && e.Sent? && e.kind != StopAndDisable && Allowed(p, first, t, e)
    ensures Sound(p, first, next, t + [e])
    ensures e.kind == JointGroup ==> ModeInForce(p, t + [e]) == ModeInForce(p, t)
  {
    DisciplineGrows(p, first, t, e);
  }

  lemma ModeAnswerIsSound(p: Plan, first: nat, next: nat, t: seq<Event>, r: CommandResult)
    requires Sound(p, first, next, t) && next < |p.waypoints|
    requires t != [] && t[|t| - 1] == Sent(SetMode, next, r.commandId)
    ensures var t' := t + [Answered(SetMode, next, r)];
      Sound(p, first, next, t') && (ModeConfirmed(p, next, r) ==> ModeInForce(p, t') == Some(p.waypoints[next].mode))
  {
    DisciplineGrows(p, first, t, Answered(SetMode, next, r));
  }

  lemma JointAnswerIsSound(p: Plan, first: nat, next: nat, t: seq<Event>, r: CommandResult)
    requires Sound(p, first, next, t) && next < |p.waypoints|
    requires t != [] && t[|t| - 1] == Sent(JointGroup, next, r.commandId)
    ensures var t' := t + [Answered(JointGroup, next, r)];
      Sound(p, first, if JointConfirmed(p, next, r) then next + 1 else next, t') && ModeInForce(p, t') == ModeInForce(p, t)
  {
    DisciplineGrows(p, first, t, Answered(JointGroup, next, r));
    RangeGrows(first, next);
  }

  // ---------------------------------------------------------------- one waypoint

  // What one visit achieves: the exchange stays sound, and the run goes on only past a confirmed waypoint.
  ghost predicate Advances(p: Plan, first: nat, next: nat, v: Progress) {
    && Sound(p, first, v.s.next, v.s.trace)
    && (v.Going? ==> Ready(p, first, v.s) && v.s.next == next + 1)
    && (v.Ended? ==> v.exit != AllConfirmed)
  }

  lemma UnansweredJointAdvances(p: Plan, env: Environment, first: nat, s: State, record: Record)
    requires s.next < |p.waypoints| && Ready(p, first, s) && s.mode == Some(p.waypoints[s.next].mode)
    requires Execute(env.joint(s.next), CommandId(p.runId, s.next, JointOperation), p.sessionId, JointGroup).None?
    ensures Advances(p, first, s.next, SendJoint(p, env, s, record))
  {
    SendingIsSound(p, first, s.next, s.trace, Sent(JointGroup, s.next, CommandId(p.runId, s.next, JointOperation)));
  }

  // The exchange of one joint command that was answered.
  lemma AnsweredJointIsSound(p: Plan, first: nat, s: State, r: CommandResult)
    requires s.next < |p.waypoints| && Ready(p, first, s) && s.mode == Some(p.waypoints[s.next].mode)
    requires r.commandId == CommandId(p.runId, s.next, JointOperation)
    ensures var i := s.next;
      var t := s.trace + [Sent(JointGroup, i, r.commandId)] + [Answered(JointGroup, i, r)];
      Sound(p, first, if JointConfirmed(p, i, r) then i + 1 else i, t) && ModeInForce(p, t) == s.mode
  {
    var sent := Sent(JointGroup, s.next, r.commandId);
    SendingIsSound(p, first, s.next, s.trace, sent);
    JointAnswerIsSound(p, first, s.next, s.trace + [sent], r);
  }

  lemma AnsweredJointAdvances(p: Plan, env: Environment, first: nat, s: State, record: Record, r: CommandResult)
    requires s.next < |p.waypoints| && Ready(p, first, s) && s.mode == Some(p.waypoints[s.next].mode)
    requires Some(r) == Execute(env.joint(s.next), CommandId(p.runId, s.next, JointOperation), p.sessionId, JointGroup)
    ensures Advances(p, first, s.next, SendJoint(p, env, s, record))
  {
    AnsweredJointIsSound(p, first, s, r);
    if JointConfirmed(p, s.next, r) {
      assert SendJoint(p, env, s, record).s.next == s.next + 1;
    }
  }

  lemma SendJointAdvances(p: Plan, env: Environment, first: nat, s: State, record: Record)
    requires s.next < |p.waypoints| && Ready(p, first, s) && s.mode == Some(p.waypoints[s.next].mode)
    ensures Advances(p, first, s.next, SendJoint(p, env, s, record))
  {
    var id := CommandId(p.runId, s.next, JointOperation);
    match Execute(env.joint(s.next), id, p.sessionId, JointGroup)
    case None => UnansweredJointAdvances(p, env, first, s, record);
    case Some(r) => AnsweredJointAdvances(p, env, first, s, record, r);
  }

  // The mode command of a visit, answered and confirmed.
  lemma ConfirmedModeIsReady(p: Plan, env: Environment, first: nat, s: State, r: CommandResult)
    requires s.next < |p.waypoints| && Ready(p, first, s)
    requires r.commandId == CommandId(p.runId, s.next, ModeOperation)
    ensures var i := s.next;
      var t := s.trace + [Sent(SetMode, i, r.commandId)];
      && Sound(p, first, i, t) && Sound(p, first, i, t + [Answered(SetMode, i, r)])
      && (ModeConfirmed(p, i, r) ==>
            Ready(p, first, s.(mode := Some(p.waypoints[i].mode), trace := t + [Answered(SetMode, i, r)])))
  {
    var sent := Sent(SetMode, s.next, r.commandId);
    SendingIsSound(p, first, s.next, s.trace, sent);
    ModeAnswerIsSound(p, first, s.next, s.trace + [sent], r);
  }

  lemma CommandedModeAdvances(p: Plan, env: Environment, first: nat, s: State, record: Record, r: CommandResult)
    requires s.next < |p.waypoints| && Ready(p, first, s) && ModeConfirmed(p, s.next, r)
    ensures var i := s.next;
      var t := s.trace + [Sent(SetMode, i, r.commandId)] + [Answered(SetMode, i, r)];
      Advances(p, first, i, SendJoint(p, env, s.(mode := Some(p.waypoints[i].mode), trace := t), record))
  {
    ConfirmedModeIsReady(p, env, first, s, r);
    var t := s.trace + [Sent(SetMode, s.next, r.commandId)] + [Answered(SetMode, s.next, r)];
    SendJointAdvances(p, env, first, s.(mode := Some(p.waypoints[s.next].mode), trace := t), record);
  }

  predicate CommandsMode(p: Plan, env: Environment, s: State)
    requires s.next < |p.waypoints|
  {
    !env.stopAtTop(s.next) && s.mode != Some(p.waypoints[s.next].mode)
  }

  function ModeAnswer(p: Plan, env: Environment, i: nat): Option<CommandResult> {
    Execute(env.mode(i), CommandId(p.runId, i, ModeOperation), p.sessionId, SetMode)
  }

  // The exchange of a mode command.
  function ModeTrace(p: Plan, env: Environment, i: nat, t: seq<Event>): seq<Event> {
    var sent := t + [Sent(SetMode, i, CommandId(p.runId, i, ModeOperation))];
    if ModeAnswer(p, env, i).None? then sent else sent + [Answered(SetMode, i, ModeAnswer(p, env, i).value)]
  }

  lemma EndedModeVisit(p: Plan, env: Environment, s: State)
    requires s.next < |p.waypoints| && CommandsMode(p, env, s)
    requires var answer := ModeAnswer(p, env, s.next);
      answer.Some? ==> !ModeConfirmed(p, s.next, answer.value) || env.stopAfterMode(s.next)
    ensures var v := Visit(p, env, s);
      v.Ended? && v.exit != AllConfirmed && v.s.next == s.next && v.s.trace == ModeTrace(p, env, s.next, s.trace)
  {
  }

  lemma ModeTraceIsSound(p: Plan, env: Environment, first: nat, s: State)
    requires s.next < |p.waypoints| && Ready(p, first, s)
    ensures Sound(p, first, s.next, ModeTrace(p, env, s.next, s.trace))
  {
    var i, id := s.next, CommandId(p.runId, s.next, ModeOperation);
    SendingIsSound(p, first, i, s.trace, Sent(SetMode, i, id));
    var answer := ModeAnswer(p, env, i);
    if answer.Some? {
      ModeAnswerIsSound(p, first, i, s.trace + [Sent(SetMode, i, id)], answer.value);
    }
  }

  lemma ModeVisitAdvances(p: Plan, env: Environment, first: nat, s: State)
    requires s.next < |p.waypoints| && Ready(p, first, s) && CommandsMode(p, env, s)
    ensures Advances(p, first, s.next, Visit(p, env, s))
  {
    var i, w := s.next, p.waypoints[s.next];
    var id := CommandId(p.runId, i, ModeOperation);
    var answer := ModeAnswer(p, env, i);
    if answer.Some? && ModeConfirmed(p, i, answer.value) && !env.stopAfterMode(i) {
      var record := Record(i, w.id, Some(id), answer, None, None, false);
      CommandedModeAdvances(p, env, first, s, record, answer.value);
    } else {
      EndedModeVisit(p, env, s);
      ModeTraceIsSound(p, env, first, s);
    }
  }

  lemma VisitAdvances(p: Plan, env: Environment, first: nat, s: State)
    requires s.next < |p.waypoints| && Ready(p, first, s)
    ensures Advances(p, first, s.next, Visit(p, env, s))
  {
    if CommandsMode(p, env, s) {
      ModeVisitAdvances(p, env, first, s);
    } else if !env.stopAtTop(s.next) {
      var record := Record(s.next, p.waypoints[s.next].id, None, None, None, None, false);
      SendJointAdvances(p, env, first, s, record);
    }
  }

  lemma {:induction false} DriveIsSound(p: Plan, env: Environment, first: nat, s: State)
    requires s.next <= |p.waypoints| && Ready(p, first, s)
    ensures var d := Drive(p, env, s);
      && d.Ended? && Sound(p, first, d.s.next, d.s.trace)
      && (d.exit == AllConfirmed ==> d.s.next == |p.waypoints|)
    decreases |p.waypoints| - s.next
  {
    if s.next < |p.waypoints| {
      VisitAdvances(p, env, first, s);
      if Visit(p, env, s).Going? {
        DriveIsSound(p, env, first, Visit(p, env, s).s);
      }
    }
  }

  // ---------------------------------------------------------------- whole runs

  // The first waypoint a run leaves unconfirmed, read off its result.
  function NextAfter(p: Plan, r: RunResult): int {
    if r.status == RunCompleted then |p.waypoints| else FirstIndex(r.checkpoint)
  }

  ghost predicate IssuedCommand(t: seq<Event>) {
    exists k :: 0 <= k < |t| && t[k].Sent? && t[k].kind != StopAndDisable
  }

  lemma StoppingIsDisciplined(p: Plan, first: nat, next: nat, t: seq<Event>, answer: CommandResult)
    requires Sound(p, first, next, t) && t != [] && answer.commandId == StopCommandId(p.runId)
    ensures var t' := t + [Sent(StopAndDisable, next, answer.commandId), Answered(StopAndDisable, next, answer)];
      Disciplined(p, first, t') && ConfirmedIn(p, t') == ConfirmedIn(p, t) && StopsIn(t') == 1
  {
    var sent, answered := Sent(StopAndDisable, next, answer.commandId), Answered(StopAndDisable, next, answer);
    DisciplineGrows(p, first, t, sent);
    assert ConfirmedIn(p, t + [sent]) == ConfirmedIn(p, t) && StopsIn(t + [sent]) == 1;
    DisciplineGrows(p, first, t + [sent], answered);
    assert t + [sent, answered] == t + [sent] + [answered];
  }

  lemma ConcludeIsSound(p: Plan, fingerprint: string, env: Environment, first: nat, exit: Exit, s: State)
    requires Sound(p, first, s.next, s.trace) && (exit == AllConfirmed ==> s.next == |p.waypoints|)
    ensures var (r, t) := Conclude(p, fingerprint, env, exit, s);
      && Disciplined(p, first, t) && ConfirmedIn(p, t) == Range(first, s.next) && NextAfter(p, r) == s.next
      && StopsIn(t) == (if s.trace != [] && r.status != RunCompleted then 1 else 0)
  {
    if exit != AllConfirmed && s.trace != [] {
      StoppingIsDisciplined(p, first, s.next, s.trace, TryStop(p, env.stop));
    }
  }

  lemma FirstEventIsACommand(p: Plan, first: nat, t: seq<Event>)
    requires Disciplined(p, first, t)
    ensures IssuedCommand(t) <==> t != []
  {
    if t != [] {
      assert Allowed(p, first, t[..0], t[0]) && t[..0] == [];
    }
  }

  // The stop discipline. Every joint target follows the confirmed mode command of its mode and
  // the confirmation of every earlier waypoint of the run; a stop goes out exactly once if some
  // command was issued and the run does not complete, and otherwise never.
  lemma StopDiscipline(p: Plan, fingerprint: string, checkpoint: Option<Checkpoint>, env: Environment)
    requires MayResume(p, fingerprint, checkpoint)
    ensures var (r, t) := Run(p, fingerprint, checkpoint, env);
      && Disciplined(p, FirstIndex(checkpoint), t)
      && StopsIn(t) == (if IssuedCommand(t) && r.status != RunCompleted then 1 else 0)
      && ConfirmedIn(p, t) == Range(FirstIndex(checkpoint), NextAfter(p, r))
      && FirstIndex(checkpoint) <= NextAfter(p, r) <= |p.waypoints|
  {
    var first := FirstIndex(checkpoint);
    DriveIsSound(p, env, first, Start(first));
    var d := Drive(p, env, Start(first));
    ConcludeIsSound(p, fingerprint, env, first, d.exit, d.s);
    FirstEventIsACommand(p, first, Run(p, fingerprint, checkpoint, env).1);
    FirstEventIsACommand(p, first, d.s.trace);
  }

  // ---------------------------------------------------------------- resuming

  lemma ConcludedCheckpoint(p: Plan, fingerprint: string, env: Environment, exit: Exit, s: State)
    requires s.next <= |p.waypoints|
    ensures var c := Conclude(p, fingerprint, env, exit, s).0.checkpoint;
      && (c.Some? ==> s.next > 0 && c == CheckpointOf(p, fingerprint, RunFailed, s.next))
      && MayResume(p, fingerprint, c)
  {
  }

  // A run hands out a checkpoint its own plan accepts, and only a plan of the same session and
  // the same content (under any run ID) accepts it.
  lemma CheckpointFitsOnlyItsPlan(sha: Hash, p: Plan, q: Plan, checkpoint: Option<Checkpoint>, env: Environment)
    requires NoCollisions(sha) && Addressable(PlanTexts(p)) && Addressable(PlanTexts(q))
    requires MayResume(p, Fingerprint(sha, p), checkpoint)
    ensures var r := Run(p, Fingerprint(sha, p), checkpoint, env).0;
      r.checkpoint.Some? ==>
        (CheckpointMatches(q, Fingerprint(sha, q), r.checkpoint.value) <==> q == p.(runId := q.runId))
  {
    DriveEnds(p, env, Start(FirstIndex(checkpoint)));
    var d := Drive(p, env, Start(FirstIndex(checkpoint)));
    ConcludedCheckpoint(p, Fingerprint(sha, p), env, d.exit, d.s);
    FingerprintDeterminesContent(sha, p, q);
  }

  datatype Attempt = Attempt(runId: string, env: Environment)

  lemma ResultMayBeResumed(p: Plan, fingerprint: string, checkpoint: Option<Checkpoint>, env: Environment)
    requires MayResume(p, fingerprint, checkpoint)
    ensures MayResume(p, fingerprint, Run(p, fingerprint, checkpoint, env).0.checkpoint)
  {
    DriveEnds(p, env, Start(FirstIndex(checkpoint)));
    var d := Drive(p, env, Start(FirstIndex(checkpoint)));
    ConcludedCheckpoint(p, fingerprint, env, d.exit, d.s);
  }

  // Attempts one after the other, each from the checkpoint its predecessor left, until one
  // completes: the waypoints confirmed along the way, and the first one left unconfirmed.
  function Chain(p: Plan, fingerprint: string, checkpoint: Option<Checkpoint>, attempts: seq<Attempt>)
    : (seq<nat>, int)
    requires MayResume(p, fingerprint, checkpoint)
    decreases |attempts|
  {
    if attempts == [] then ([], FirstIndex(checkpoint))
    else
      var q := p.(runId := attempts[0].runId);
      var (r, t) := Run(q, fingerprint, checkpoint, attempts[0].env);
      if r.status == RunCompleted then (ConfirmedIn(q, t), |p.waypoints|)
      else
        ResultMayBeResumed(q, fingerprint, checkpoint, attempts[0].env);
        var (later, next) := Chain(p, fingerprint, r.checkpoint, attempts[1..]);
        (ConfirmedIn(q, t) + later, next)
  }

  // Whatever the port does in each attempt, a chain confirms every waypoint from its start up to
  // its progress exactly once and in order; so a chain that ends Completed confirms them all.
  lemma {:induction false} ChainConfirmsEachOnce(
      p: Plan, fingerprint: string, checkpoint: Option<Checkpoint>, attempts: seq<Attempt>)
    requires MayResume(p, fingerprint, checkpoint)
    ensures var (confirmed, next) := Chain(p, fingerprint, checkpoint, attempts);
      FirstIndex(checkpoint) <= next <= |p.waypoints| && confirmed == Range(FirstIndex(checkpoint), next)
    decreases |attempts|
  {
    if attempts != [] {
      var q := p.(runId := attempts[0].runId);
      StopDiscipline(q, fingerprint, checkpoint, attempts[0].env);
      var (r, t) := Run(q, fingerprint, checkpoint, attempts[0].env);
      if r.status != RunCompleted {
        ResultMayBeResumed(q, fingerprint, checkpoint, attempts[0].env);
        ChainConfirmsEachOnce(p, fingerprint, r.checkpoint, attempts[1..]);
        var (later, next) := Chain(p, fingerprint, r.checkpoint, attempts[1..]);
        RangesJoin(FirstIndex(checkpoint), FirstIndex(r.checkpoint), next);
      }
    }
  }

  lemma RangesJoin(a: nat, b: nat, c: nat)
    requires a <= b <= c
    ensures Range(a, b) + Range(b, c) == Range(a, c)
  {
  }

  // ---------------------------------------------------------------- command IDs

  // What follows the last dash of a text that ends in dash-free characters is readable.
  lemma DashSplits(a: string, b: string, x: string, y: string)
    requires a + "-" + x == b + "-" + y && '-' !in x && '-' !in y
    ensures a == b && x == y
  {
    var s := a + "-" + x;
    var t := b + "-" + y;
    assert s[|a|] == '-' && t[|b|] == '-';
    assert forall k :: |a| < k < |s| ==> s[k] == x[k - |a| - 1];
    assert forall k :: |b| < k < |t| ==> t[k] == y[k - |b| - 1];
    assert |a| == |b|;
    assert a == s[..|a|] && b == t[..|b|] && x == s[|a| + 1..] && y == t[|b| + 1..];
  }

  lemma CommandIdSplits(runId: string, i: nat, op: Operation)
    ensures CommandId(runId, i, op) == ("action-" + runId + "-wp") + "-" + Padded(i + 1, 3) + "-" + OperationText(op)
    ensures '-' !in Padded(i + 1, 3) && '-' !in OperationText(op)
  {
    PaddedReads(i + 1, 3);
    assert "action-" + runId + "-wp-" == ("action-" + runId + "-wp") + "-";
  }

  // A command ID names its run, waypoint and operation, whatever characters the run IDs hold.
  lemma CommandIdIsReadable(runId: string, i: nat, op: Operation, runId': string, i': nat, op': Operation)
    ensures CommandId(runId, i, op) == CommandId(runId', i', op') <==> runId == runId' && i == i' && op == op'
  {
    if CommandId(runId, i, op) == CommandId(runId', i', op') {
      var run, run' := "action-" + runId + "-wp", "action-" + runId' + "-wp";
      var n, n' := Padded(i + 1, 3), Padded(i' + 1, 3);
      CommandIdSplits(runId, i, op);
      CommandIdSplits(runId', i', op');
      DashSplits(run + "-" + n, run' + "-" + n', OperationText(op), OperationText(op'));
      DashSplits(run, run', n, n');
      PaddedReads(i + 1, 3);
      PaddedReads(i' + 1, 3);
      assert run[7..|run| - 3] == runId && run'[7..|run'| - 3] == runId';
    }
  }

  // No waypoint command shares its ID with the stop command of any run.
  lemma CommandIdIsNoStopId(runId: string, i: nat, op: Operation, runId': string)
    ensures CommandId(runId, i, op) != StopCommandId(runId')
  {
    CommandIdSplits(runId, i, op);
    var front := "action-" + runId + "-wp" + "-" + Padded(i + 1, 3);
    assert StopCommandId(runId') == ("action-" + runId') + "-" + "stop";
    if CommandId(runId, i, op) == StopCommandId(runId') {
      DashSplits(front, "action-" + runId', OperationText(op), "stop");
    }
  }
}
