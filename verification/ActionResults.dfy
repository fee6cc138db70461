/**
How a run of an action program ends and what it reports, read off the plan and the environment:
which waypoint ends it and why, its status and code, and what its records and its trace tell.
*/
module ActionResults {
  import opened Wrappers
  import opened GatewayContracts
  import opened PlanFingerprint
  import opened ActionRunner
  import opened ActionSafety

  // ---------------------------------------------------------------- what a reply means

  // The reply is for this very command.
  predicate IsFor(r: CommandResult, id: string, sessionId: string, kind: Kind) {
    r.commandId == id && r.sessionId == sessionId && r.kind == kind
  }

  // The port confirms the command: Completed, Ok, with feedback.
  predicate Confirms(o: PortOutcome, id: string, sessionId: string, kind: Kind) {
    && o.Returned? && IsFor(o.result, id, sessionId, kind)
    && o.result.status == Completed && o.result.code == Ok && o.result.evidence == FeedbackConfirmed
  }

  // The code of a run that ends by this reply: a wait that ran out; a call that threw, a reply for
  // something else or a transport error; or any other reply that does not confirm.
  predicate FailsWith(o: PortOutcome, id: string, sessionId: string, kind: Kind, code: RunCode) {
    match o
    case StopsWaiting => false
    case TimesOut => code == CommandAwaitTimedOut
    case Throws => code == CommandTransportFailure
    case Returned(r) =>
      if !IsFor(r, id, sessionId, kind) then code == CommandTransportFailure
      else if r.status == TimedOut then code == CommandAwaitTimedOut
      else if r.status == Unconfirmed && r.code == TransportError then code == CommandTransportFailure
      else !Confirms(o, id, sessionId, kind) && code == WaypointCommandFailed
  }

  // ---------------------------------------------------------------- how a waypoint ends a run

  predicate NeedsMode(p: Plan, first: nat, i: nat)
    requires i < |p.waypoints|
  {
    i <= first || p.waypoints[i].mode != p.waypoints[i - 1].mode
  }

  predicate ModePasses(p: Plan, env: Environment, first: nat, i: nat)
    requires i < |p.waypoints|
  {
    NeedsMode(p, first, i) ==>
      Confirms(env.mode(i), CommandId(p.runId, i, ModeOperation), p.sessionId, SetMode) && !env.stopAfterMode(i)
  }

  predicate JointPasses(p: Plan, env: Environment, i: nat)
    requires i < |p.waypoints|
  {
    Confirms(env.joint(i), CommandId(p.runId, i, JointOperation), p.sessionId, JointGroup)
  }

  predicate Passes(p: Plan, env: Environment, first: nat, i: nat)
    requires i < |p.waypoints|
  {
    && !env.stopAtTop(i) && ModePasses(p, env, first, i) && JointPasses(p, env, i)
    && (p.waypoints[i].waitMs > 0 ==> env.wait(i) == Elapses)
  }

  // The operator's stop meets the run at the waypoint: before it, while a command or the dwell is
  // awaited, or behind a confirmed mode.
  predicate IsStoppedAt(p: Plan, env: Environment, first: nat, i: nat)
    requires i < |p.waypoints|
  {
    || env.stopAtTop(i)
    || (NeedsMode(p, first, i) && env.mode(i) == StopsWaiting)
    || (NeedsMode(p, first, i) && env.stopAfterMode(i)
        && Confirms(env.mode(i), CommandId(p.runId, i, ModeOperation), p.sessionId, SetMode))
    || (ModePasses(p, env, first, i) && env.joint(i) == StopsWaiting)
    || (ModePasses(p, env, first, i) && JointPasses(p, env, i) && p.waypoints[i].waitMs > 0 && env.wait(i) == StopsDelay)
  }

  // The waypoint fails with the code.
  predicate FailsAt(p: Plan, env: Environment, first: nat, i: nat, code: RunCode)
    requires i < |p.waypoints|
  {
    && !env.stopAtTop(i)
    && (|| (NeedsMode(p, first, i)
            && FailsWith(env.mode(i), CommandId(p.runId, i, ModeOperation), p.sessionId, SetMode, code))
        || (ModePasses(p, env, first, i)
            && FailsWith(env.joint(i), CommandId(p.runId, i, JointOperation), p.sessionId, JointGroup, code))
        || (ModePasses(p, env, first, i) && JointPasses(p, env, i) && p.waypoints[i].waitMs > 0
            && env.wait(i) == DelayThrows && code == CommandTransportFailure))
  }

  // ---------------------------------------------------------------- the visit

  lemma ReplyDecides(o: PortOutcome, id: string, sessionId: string, kind: Kind)
    ensures Execute(o, id, sessionId, kind).None? <==> o == StopsWaiting
    ensures forall r :: Execute(o, id, sessionId, kind) == Some(r) ==>
      && (IsFeedbackConfirmed(r, id, sessionId, kind) <==> Confirms(o, id, sessionId, kind))
      && (forall code :: FailsWith(o, id, sessionId, kind, code) <==>
            !IsFeedbackConfirmed(r, id, sessionId, kind) && code == FailureCode(r))
  {
  }

  // How the visit of a waypoint ends.
  ghost predicate EndsLike(p: Plan, env: Environment, first: nat, i: nat, v: Progress)
    requires i < |p.waypoints|
  {
    && (v.Going? <==> Passes(p, env, first, i))
    && (v.Ended? ==> v.exit != AllConfirmed)
    && (v.Ended? && v.exit == ByStop <==> IsStoppedAt(p, env, first, i))
    && (forall code :: v.Ended? && v.exit == ByFailure(code) <==> FailsAt(p, env, first, i, code))
  }

  lemma JointEndsLike(p: Plan, env: Environment, first: nat, s: State, record: Record)
    requires s.next < |p.waypoints| && !env.stopAtTop(s.next) && ModePasses(p, env, first, s.next)
    ensures EndsLike(p, env, first, s.next, SendJoint(p, env, s, record))
  {
    ReplyDecides(env.joint(s.next), CommandId(p.runId, s.next, JointOperation), p.sessionId, JointGroup);
    if NeedsMode(p, first, s.next) {
      ReplyDecides(env.mode(s.next), CommandId(p.runId, s.next, ModeOperation), p.sessionId, SetMode);
      assert forall code ::
        !FailsWith(env.mode(s.next), CommandId(p.runId, s.next, ModeOperation), p.sessionId, SetMode, code);
    }
  }

  lemma VisitEndsLike(p: Plan, env: Environment, first: nat, s: State)
    requires first <= s.next < |p.waypoints|
    requires s.mode == if s.next == first then None else Some(p.waypoints[s.next - 1].mode)
    ensures EndsLike(p, env, first, s.next, Visit(p, env, s))
  {
    var i, w := s.next, p.waypoints[s.next];
    if !env.stopAtTop(i) {
      var record := Record(i, w.id, None, None, None, None, false);
      if s.mode == Some(w.mode) {
        JointEndsLike(p, env, first, s, record);
      } else {
        var id := CommandId(p.runId, i, ModeOperation);
        ReplyDecides(env.mode(i), id, p.sessionId, SetMode);
        if ModePasses(p, env, first, i) {
          var r := Execute(env.mode(i), id, p.sessionId, SetMode);
          var record := record.(modeCommandId := Some(id), modeResult := r);
          var t := s.trace + [Sent(SetMode, i, id)] + [Answered(SetMode, i, r.value)];
          JointEndsLike(p, env, first, s.(mode := Some(w.mode), trace := t), record);
        }
      }
    }
  }

  // ---------------------------------------------------------------- where a run ends

  ghost predicate AllPass(p: Plan, env: Environment, first: nat, from: nat, to: nat)
    requires to <= |p.waypoints|
  {
    forall i :: from <= i < to ==> Passes(p, env, first, i)
  }

  // All waypoints before the n-th pass, and there the operator's stop ends the run.
  ghost predicate StopsThere(p: Plan, env: Environment, first: nat, n: nat) {
    && first <= n <= |p.waypoints| && AllPass(p, env, first, first, n)
    && (if n == |p.waypoints| then env.stopAtEnd else IsStoppedAt(p, env, first, n))
  }

  ghost predicate FailsThere(p: Plan, env: Environment, first: nat, n: nat, code: RunCode) {
    first <= n < |p.waypoints| && AllPass(p, env, first, first, n) && FailsAt(p, env, first, n, code)
  }

  // The operator's stop ends the run.
  ghost predicate RunIsStopped(p: Plan, env: Environment, first: nat) {
    exists n :: StopsThere(p, env, first, n)
  }

  // A waypoint that fails with the code ends the run.
  ghost predicate RunFails(p: Plan, env: Environment, first: nat, code: RunCode) {
    exists n :: FailsThere(p, env, first, n, code)
  }

  lemma {:induction false} DriveEndsLike(p: Plan, env: Environment, first: nat, s: State) returns (n: nat)
    requires first <= s.next <= |p.waypoints| && AllPass(p, env, first, first, s.next)
    requires s.mode == if s.next == first then None else Some(p.waypoints[s.next - 1].mode)
    ensures s.next <= n <= |p.waypoints| && AllPass(p, env, first, first, n) && Drive(p, env, s).Ended?
    ensures n < |p.waypoints| ==> !Passes(p, env, first, n)
    ensures var exit := Drive(p, env, s).exit;
      && (exit == AllConfirmed <==> n == |p.waypoints| && !env.stopAtEnd)
      && (exit == ByStop <==> StopsThere(p, env, first, n))
      && (forall code :: exit == ByFailure(code) <==> FailsThere(p, env, first, n, code))
    decreases |p.waypoints| - s.next
  {
    if s.next == |p.waypoints| {
      n := s.next;
    } else {
      VisitEndsLike(p, env, first, s);
      var v := Visit(p, env, s);
      if v.Going? {
        VisitGoesOn(p, env, s);
        n := DriveEndsLike(p, env, first, v.s);
      } else {
        n := s.next;
      }
    }
  }

  lemma VisitGoesOn(p: Plan, env: Environment, s: State)
    requires s.next < |p.waypoints| && Visit(p, env, s).Going?
    ensures Visit(p, env, s).s.next == s.next + 1 && Visit(p, env, s).s.mode == Some(p.waypoints[s.next].mode)
  {
  }

  lemma EndsOnce(p: Plan, env: Environment, first: nat, n: nat, m: nat)
    requires first <= n <= |p.waypoints| && AllPass(p, env, first, first, n)
    requires n < |p.waypoints| ==> !Passes(p, env, first, n)
    requires StopsThere(p, env, first, m) || exists code :: FailsThere(p, env, first, m, code)
    ensures m == n
  {
    if m < |p.waypoints| {
      StoppedDoesNotPass(p, env, first, m);
    }
  }

  lemma StoppedDoesNotPass(p: Plan, env: Environment, first: nat, i: nat)
    requires i < |p.waypoints| && (IsStoppedAt(p, env, first, i) || exists code :: FailsAt(p, env, first, i, code))
    ensures !Passes(p, env, first, i)
  {
  }

  // ---------------------------------------------------------------- status and code

  ghost predicate SentNothing(t: seq<Event>) {
    forall k :: 0 <= k < |t| ==> !t[k].Sent?
  }

  predicate StopIsConfirmed(p: Plan, env: Environment) {
    Confirms(env.stop, "action-" + p.runId + "-stop", p.sessionId, StopAndDisable)
  }

  // Where a run ends, read off its exit.
  lemma RunEndsLike(p: Plan, env: Environment, first: nat) returns (n: nat)
    requires first <= |p.waypoints|
    ensures first <= n <= |p.waypoints| && Drive(p, env, Start(first)).Ended?
    ensures var exit := Drive(p, env, Start(first)).exit;
      && (exit == AllConfirmed <==> !env.stopAtEnd && AllPass(p, env, first, first, |p.waypoints|))
      && (exit == ByStop <==> RunIsStopped(p, env, first))
      && (forall code :: exit == ByFailure(code) <==> RunFails(p, env, first, code))
  {
    n := DriveEndsLike(p, env, first, Start(first));
    forall m: nat | StopsThere(p, env, first, m) ensures m == n {
      EndsOnce(p, env, first, n, m);
    }
    forall m: nat, code | FailsThere(p, env, first, m, code) ensures m == n {
      EndsOnce(p, env, first, n, m);
    }
  }

  lemma ConcludingSendsNothingElse(p: Plan, fingerprint: string, env: Environment, exit: Exit, s: State)
    requires s.next <= |p.waypoints| && (SentNothing(s.trace) <==> s.trace == [])
    ensures SentNothing(Conclude(p, fingerprint, env, exit, s).1) <==> s.trace == []
  {
    var t := Conclude(p, fingerprint, env, exit, s).1;
    if s.trace != [] {
      var k :| 0 <= k < |s.trace| && s.trace[k].Sent?;
      assert t[k] == s.trace[k];
    }
  }

  // The end of a run, in the terms of its exit: status and code, and what is said of the stop.
  lemma ConcludesLike(p: Plan, fingerprint: string, env: Environment, exit: Exit, s: State)
    requires s.next <= |p.waypoints| && (SentNothing(s.trace) <==> s.trace == [])
    ensures var (r, t) := Conclude(p, fingerprint, env, exit, s);
      && (r.status == RunCompleted <==> exit == AllConfirmed)
      && (r.status == RunStopped <==> exit == ByStop && (SentNothing(t) || StopIsConfirmed(p, env)))
      && (exit == AllConfirmed ==> r.code == RunOk)
      && (exit == ByStop ==> r.code == if SentNothing(t) || StopIsConfirmed(p, env) then OperatorStopped else StopUnconfirmed)
      && (exit.ByFailure? ==> r.code == exit.code)
  {
    StopReplyDecides(p, env);
    ConcludingSendsNothingElse(p, fingerprint, env, exit, s);
  }

  ghost predicate AllRemainingPass(p: Plan, env: Environment, first: nat)
    requires first <= |p.waypoints|
  {
    !env.stopAtEnd && AllPass(p, env, first, first, |p.waypoints|)
  }

  // One of the three ends a run, and decides what it reports.
  lemma ReportsLike(p: Plan, fingerprint: string, checkpoint: Option<Checkpoint>, env: Environment)
    requires MayResume(p, fingerprint, checkpoint)
    ensures var ((r, t), first) := (Run(p, fingerprint, checkpoint, env), FirstIndex(checkpoint));
      && (AllRemainingPass(p, env, first) ==> r.status == RunCompleted && r.code == RunOk)
      && (RunIsStopped(p, env, first) ==>
            if SentNothing(t) || StopIsConfirmed(p, env) then r.status == RunStopped && r.code == OperatorStopped
            else r.status == RunFailed && r.code == StopUnconfirmed)
      && (forall code :: RunFails(p, env, first, code) ==> r.status == RunFailed && r.code == code)
      && (AllRemainingPass(p, env, first) || RunIsStopped(p, env, first) || RunFails(p, env, first, r.code))
  {
    var first := FirstIndex(checkpoint);
    var n := RunEndsLike(p, env, first);
    DriveEnds(p, env, Start(first));
    TraceStartsWithSent(p, env, first);
    var d := Drive(p, env, Start(first));
    ConcludesLike(p, fingerprint, env, d.exit, d.s);
  }

  lemma FailureHasItsCode(p: Plan, env: Environment, first: nat, code: RunCode)
    requires RunFails(p, env, first, code)
    ensures code == WaypointCommandFailed || code == CommandAwaitTimedOut || code == CommandTransportFailure
  {
  }

  // A run completes exactly when the operator never stops it and every remaining waypoint passes.
  lemma CompletesExactlyWhen(p: Plan, fingerprint: string, checkpoint: Option<Checkpoint>, env: Environment)
    requires MayResume(p, fingerprint, checkpoint)
    ensures var (r, first) := (Run(p, fingerprint, checkpoint, env).0, FirstIndex(checkpoint));
      && (r.status == RunCompleted <==> r.code == RunOk)
      && (r.status == RunCompleted <==> !env.stopAtEnd && AllPass(p, env, first, first, |p.waypoints|))
  {
    ReportsLike(p, fingerprint, checkpoint, env);
    var r := Run(p, fingerprint, checkpoint, env).0;
    if RunFails(p, env, FirstIndex(checkpoint), r.code) {
      FailureHasItsCode(p, env, FirstIndex(checkpoint), r.code);
    }
  }

  // A run is Stopped, with the code OperatorStopped, exactly when the operator's stop ended it and
  // either nothing was sent or the stop command is confirmed; StopUnconfirmed is the code of exactly
  // the other runs the operator stopped.
  lemma StoppedExactlyWhen(p: Plan, fingerprint: string, checkpoint: Option<Checkpoint>, env: Environment)
    requires MayResume(p, fingerprint, checkpoint)
    ensures var ((r, t), first) := (Run(p, fingerprint, checkpoint, env), FirstIndex(checkpoint));
      && (r.status == RunStopped <==> r.code == OperatorStopped)
      && (r.status == RunStopped <==> RunIsStopped(p, env, first) && (SentNothing(t) || StopIsConfirmed(p, env)))
      && (r.code == StopUnconfirmed <==> RunIsStopped(p, env, first) && !SentNothing(t) && !StopIsConfirmed(p, env))
  {
    ReportsLike(p, fingerprint, checkpoint, env);
    var r := Run(p, fingerprint, checkpoint, env).0;
    if RunFails(p, env, FirstIndex(checkpoint), r.code) {
      FailureHasItsCode(p, env, FirstIndex(checkpoint), r.code);
    }
  }

  // Any other failed run carries the code of the reply, or of the dwell, that failed it.
  lemma FailsExactlyWhen(p: Plan, fingerprint: string, checkpoint: Option<Checkpoint>, env: Environment, code: RunCode)
    requires MayResume(p, fingerprint, checkpoint)
    requires code == WaypointCommandFailed || code == CommandAwaitTimedOut || code == CommandTransportFailure
    ensures Run(p, fingerprint, checkpoint, env).0.code == code <==> RunFails(p, env, FirstIndex(checkpoint), code)
    ensures RunFails(p, env, FirstIndex(checkpoint), code) ==> Run(p, fingerprint, checkpoint, env).0.status == RunFailed
  {
    ReportsLike(p, fingerprint, checkpoint, env);
  }

  // The stop command's result and confirmation are reported exactly when a stop was sent: the
  // port's own reply if it is for this stop, and otherwise one that leaves the arm unconfirmed.
  lemma StopIsReported(p: Plan, fingerprint: string, checkpoint: Option<Checkpoint>, env: Environment)
    requires MayResume(p, fingerprint, checkpoint)
    ensures var (r, t) := Run(p, fingerprint, checkpoint, env);
      && (r.stopResult.Some? <==> r.status != RunCompleted && !SentNothing(t))
      && (r.safeStopConfirmed == if r.stopResult.Some? then Some(StopIsConfirmed(p, env)) else None)
      && (r.stopResult.Some? ==>
            var x, id := r.stopResult.value, "action-" + p.runId + "-stop";
            if env.stop.Returned? && IsFor(env.stop.result, id, p.sessionId, StopAndDisable) then x == env.stop.result
            else
              && IsFor(x, id, p.sessionId, StopAndDisable) && x.status == Unconfirmed && x.evidence == NoEvidence
              && x.code == if env.stop.TimesOut? || env.stop.StopsWaiting? then Timeout else TransportError)
  {
    var first := FirstIndex(checkpoint);
    DriveEnds(p, env, Start(first));
    TraceStartsWithSent(p, env, first);
    StopReplyDecides(p, env);
    var d := Drive(p, env, Start(first));
    ConcludingSendsNothingElse(p, fingerprint, env, d.exit, d.s);
  }

  lemma StopReplyDecides(p: Plan, env: Environment)
    ensures IsFeedbackConfirmed(TryStop(p, env.stop), StopCommandId(p.runId), p.sessionId, StopAndDisable)
       <==> StopIsConfirmed(p, env)
  {
  }

  // A run that exchanged anything first sent something.
  lemma TraceStartsWithSent(p: Plan, env: Environment, first: nat)
    requires first <= |p.waypoints|
    ensures SentNothing(Drive(p, env, Start(first)).s.trace) <==> Drive(p, env, Start(first)).s.trace == []
  {
    DriveIsSound(p, env, first, Start(first));
    FirstEventIsACommand(p, first, Drive(p, env, Start(first)).s.trace);
  }

  // ---------------------------------------------------------------- records and trace

  // What the port's reply to a command becomes in the trace.
  predicate IsReplyTo(o: PortOutcome, id: string, sessionId: string, kind: Kind, r: CommandResult) {
    if o.Returned? && IsFor(o.result, id, sessionId, kind) then r == o.result
    else
      && o != StopsWaiting && IsFor(r, id, sessionId, kind) && r.evidence == NoEvidence
      && (if o == TimesOut then r.status == TimedOut && r.code == Timeout
          else r.status == Unconfirmed && r.code == TransportError)
  }

  // An answer in the trace is the port's reply to the command of its waypoint.
  predicate IsPortsAnswer(p: Plan, env: Environment, e: Event) {
    e.Answered? ==>
      if e.kind == SetMode then IsReplyTo(env.mode(e.at), CommandId(p.runId, e.at, ModeOperation), p.sessionId, SetMode, e.result)
      else IsReplyTo(env.joint(e.at), CommandId(p.runId, e.at, JointOperation), p.sessionId, JointGroup, e.result)
  }

  ghost predicate CommandTells(id: Option<string>, kind: Kind, at: nat, t: seq<Event>) {
    forall x :: id == Some(x) <==> Sent(kind, at, x) in t
  }

  ghost predicate ResultTells(r: Option<CommandResult>, kind: Kind, at: nat, t: seq<Event>) {
    forall x :: r == Some(x) <==> Answered(kind, at, x) in t
  }

  // A record holds exactly what was exchanged for its waypoint.
  ghost predicate RecordTells(p: Plan, r: Record, t: seq<Event>) {
    && r.index < |p.waypoints| && r.waypointId == p.waypoints[r.index].id
    && CommandTells(r.modeCommandId, SetMode, r.index, t) && ResultTells(r.modeResult, SetMode, r.index, t)
    && CommandTells(r.jointCommandId, JointGroup, r.index, t) && ResultTells(r.jointResult, JointGroup, r.index, t)
    && (r.feedbackConfirmed <==>
          r.jointResult.Some?
          && Confirms(Returned(r.jointResult.value), CommandId(p.runId, r.index, JointOperation), p.sessionId, JointGroup))
  }

  // The records are those of the waypoints from the first on, and the trace is about no others.
  ghost predicate RecordsTell(p: Plan, env: Environment, first: nat, records: seq<Record>, t: seq<Event>) {
    && (forall k :: 0 <= k < |records| ==> records[k].index == first + k && RecordTells(p, records[k], t))
    && (forall e :: e in t ==> first <= e.at < first + |records| && IsPortsAnswer(p, env, e))
  }

  lemma OtherEventTells(p: Plan, r: Record, t: seq<Event>, e: Event)
    requires RecordTells(p, r, t) && e.at != r.index
    ensures RecordTells(p, r, t + [e])
  {
  }

  lemma SendingTells(id: string, kind: Kind, at: nat, t: seq<Event>)
    requires CommandTells(None, kind, at, t)
    ensures CommandTells(Some(id), kind, at, t + [Sent(kind, at, id)])
  {
    assert Sent(kind, at, id) in t + [Sent(kind, at, id)];
    forall x ensures Some(id) == Some(x) <==> Sent(kind, at, x) in t + [Sent(kind, at, id)] {
      assert None != Some(x);
    }
  }

  lemma AnswerTells(r: CommandResult, kind: Kind, at: nat, t: seq<Event>)
    requires ResultTells(None, kind, at, t)
    ensures ResultTells(Some(r), kind, at, t + [Answered(kind, at, r)])
  {
    assert Answered(kind, at, r) in t + [Answered(kind, at, r)];
    forall x ensures Some(r) == Some(x) <==> Answered(kind, at, x) in t + [Answered(kind, at, r)] {
      assert None != Some(x);
    }
  }

  lemma OneMoreEvent(p: Plan, env: Environment, first: nat, records: seq<Record>, last: Record, t: seq<Event>, e: Event, next: Record)
    requires RecordsTell(p, env, first, records + [last], t) && next.index == last.index == e.at == first + |records|
    requires IsPortsAnswer(p, env, e) && RecordTells(p, next, t + [e])
    ensures RecordsTell(p, env, first, records + [next], t + [e])
  {
    var all, more := records + [last], records + [next];
    forall k | 0 <= k < |more| ensures more[k].index == first + k && RecordTells(p, more[k], t + [e]) {
      if k < |records| {
        assert more[k] == all[k];
        OtherEventTells(p, all[k], t, e);
      }
    }
    assert |all| == |more|;
  }

  lemma ReplyIsReply(o: PortOutcome, id: string, sessionId: string, kind: Kind)
    ensures forall r :: Execute(o, id, sessionId, kind) == Some(r) ==>
      IsReplyTo(o, id, sessionId, kind, r) && (IsFeedbackConfirmed(r, id, sessionId, kind) <==> Confirms(Returned(r), id, sessionId, kind))
  {
  }

  lemma JointTells(p: Plan, env: Environment, first: nat, s: State, record: Record)
    requires s.next < |p.waypoints| && s.next == first + |s.records| && record.index == s.next
    requires RecordsTell(p, env, first, s.records + [record], s.trace)
    requires record.jointCommandId.None? && record.jointResult.None? && !record.feedbackConfirmed
    ensures var v := SendJoint(p, env, s, record);
      RecordsTell(p, env, first, v.s.records, v.s.trace) && (v.Going? ==> v.s.next == first + |v.s.records|)
  {
    var i, id := s.next, CommandId(p.runId, s.next, JointOperation);
    var all := s.records + [record];
    assert all[|s.records|] == record && RecordTells(p, record, s.trace);
    var sent, r1 := Sent(JointGroup, i, id), record.(jointCommandId := Some(id));
    var t1 := s.trace + [sent];
    SendingTells(id, JointGroup, i, s.trace);
    assert RecordTells(p, r1, t1);
    OneMoreEvent(p, env, first, s.records, record, s.trace, sent, r1);
    var answer := Execute(env.joint(i), id, p.sessionId, JointGroup);
    if answer.Some? {
      AnsweredJointTells(p, env, first, s.records, r1, t1, answer.value);
    }
  }

  lemma AnsweredJointTells(p: Plan, env: Environment, first: nat, records: seq<Record>, last: Record, t: seq<Event>, r: CommandResult)
    requires RecordsTell(p, env, first, records + [last], t) && last.index == first + |records|
    requires Execute(env.joint(last.index), CommandId(p.runId, last.index, JointOperation), p.sessionId, JointGroup) == Some(r)
    requires last.jointResult.None?
    ensures var next := last.(jointResult := Some(r), feedbackConfirmed := JointConfirmed(p, last.index, r));
      RecordsTell(p, env, first, records + [next], t + [Answered(JointGroup, last.index, r)])
  {
    var i := last.index;
    var next := last.(jointResult := Some(r), feedbackConfirmed := JointConfirmed(p, i, r));
    assert (records + [last])[|records|] == last && RecordTells(p, last, t);
    ReplyIsReply(env.joint(i), CommandId(p.runId, i, JointOperation), p.sessionId, JointGroup);
    AnswerTells(r, JointGroup, i, t);
    assert RecordTells(p, next, t + [Answered(JointGroup, i, r)]);
    OneMoreEvent(p, env, first, records, last, t, Answered(JointGroup, i, r), next);
  }

  lemma NewRecordTells(p: Plan, env: Environment, first: nat, records: seq<Record>, t: seq<Event>, r: Record)
    requires RecordsTell(p, env, first, records, t) && first + |records| < |p.waypoints|
    requires r == Record(first + |records|, p.waypoints[first + |records|].id, None, None, None, None, false)
    ensures RecordsTell(p, env, first, records + [r], t)
  {
    assert RecordTells(p, r, t);
    var all := records + [r];
    assert forall k :: 0 <= k < |records| ==> all[k] == records[k];
  }

  lemma ModeTells(p: Plan, env: Environment, first: nat, s: State, record: Record, r: CommandResult)
    requires s.next < |p.waypoints| && s.next == first + |s.records|
    requires RecordsTell(p, env, first, s.records, s.trace)
    requires record == Record(s.next, p.waypoints[s.next].id, None, None, None, None, false)
    ensures var i, id := s.next, CommandId(p.runId, s.next, ModeOperation);
      var t1, r1 := s.trace + [Sent(SetMode, i, id)], record.(modeCommandId := Some(id));
      && RecordsTell(p, env, first, s.records + [r1], t1)
      && (Execute(env.mode(i), id, p.sessionId, SetMode) == Some(r) ==>
            RecordsTell(p, env, first, s.records + [r1.(modeResult := Some(r))], t1 + [Answered(SetMode, i, r)]))
  {
    var i, id := s.next, CommandId(p.runId, s.next, ModeOperation);
    NewRecordTells(p, env, first, s.records, s.trace, record);
    var t1, r1 := s.trace + [Sent(SetMode, i, id)], record.(modeCommandId := Some(id));
    SendingTells(id, SetMode, i, s.trace);
    assert RecordTells(p, r1, t1);
    OneMoreEvent(p, env, first, s.records, record, s.trace, Sent(SetMode, i, id), r1);
    if Execute(env.mode(i), id, p.sessionId, SetMode) == Some(r) {
      ReplyIsReply(env.mode(i), id, p.sessionId, SetMode);
      AnswerTells(r, SetMode, i, t1);
      var r2 := r1.(modeResult := Some(r));
      assert RecordTells(p, r2, t1 + [Answered(SetMode, i, r)]);
      OneMoreEvent(p, env, first, s.records, r1, t1, Answered(SetMode, i, r), r2);
    }
  }

  lemma VisitTells(p: Plan, env: Environment, first: nat, s: State)
    requires s.next < |p.waypoints| && s.next == first + |s.records| && RecordsTell(p, env, first, s.records, s.trace)
    ensures var v := Visit(p, env, s);
      RecordsTell(p, env, first, v.s.records, v.s.trace) && (v.Going? ==> v.s.next == first + |v.s.records|)
  {
    var i, w := s.next, p.waypoints[s.next];
    if !env.stopAtTop(i) {
      var record := Record(i, w.id, None, None, None, None, false);
      if s.mode == Some(w.mode) {
        NewRecordTells(p, env, first, s.records, s.trace, record);
        JointTells(p, env, first, s, record);
      } else {
        var id := CommandId(p.runId, i, ModeOperation);
        var answer := Execute(env.mode(i), id, p.sessionId, SetMode);
        var r := if answer.Some? then answer.value else CommandResult("", "", SetMode, Failed, Ok, NoEvidence);
        ModeTells(p, env, first, s, record, r);
        if answer.Some? && ModeConfirmed(p, i, r) && !env.stopAfterMode(i) {
          var t := s.trace + [Sent(SetMode, i, id)] + [Answered(SetMode, i, r)];
          JointTells(p, env, first, s.(mode := Some(w.mode), trace := t),
                     record.(modeCommandId := Some(id), modeResult := Some(r)));
        }
      }
    }
  }

  lemma {:induction false} DriveTells(p: Plan, env: Environment, first: nat, s: State)
    requires s.next <= |p.waypoints| && s.next == first + |s.records| && RecordsTell(p, env, first, s.records, s.trace)
    ensures RecordsTell(p, env, first, Drive(p, env, s).s.records, Drive(p, env, s).s.trace)
    decreases |p.waypoints| - s.next
  {
    if s.next < |p.waypoints| {
      VisitTells(p, env, first, s);
      var v := Visit(p, env, s);
      if v.Going? {
        DriveTells(p, env, first, v.s);
      }
    }
  }

  // The records of a run: one per waypoint from the first on, each holding exactly the commands
  // sent for its waypoint, the port's own replies to them, and whether the joint target is confirmed.
  lemma RecordsTellTheTrace(p: Plan, fingerprint: string, checkpoint: Option<Checkpoint>, env: Environment)
    requires MayResume(p, fingerprint, checkpoint)
    ensures var first := FirstIndex(checkpoint);
      RecordsTell(p, env, first, Run(p, fingerprint, checkpoint, env).0.records, Drive(p, env, Start(first)).s.trace)
  {
    var first := FirstIndex(checkpoint);
    DriveTells(p, env, first, Start(first));
    DriveEnds(p, env, Start(first));
  }
}
