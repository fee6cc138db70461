/**
What becomes of a reply: from the frame received to the outcome of the request it names; when a
request is taken on; what the identity and the motor slot hold. Stated on the events of a run.
*/
module AethorReplies {
  import opened Wrappers
  import opened AsciiFrame
  import opened AethorSession

  // A run with its states.
  ghost predicate IsTrace(states: seq<Session>, events: seq<Event>) {
    && |states| == |events| + 1
    && IsInitial(states[0])
    && forall i :: 0 <= i < |events| ==> Enabled(states[i], events[i]) && states[i + 1] == Step(states[i], events[i])
  }

  lemma {:induction false} TracesKeepInv(states: seq<Session>, events: seq<Event>, i: nat)
    requires IsTrace(states, events) && i < |states|
    ensures Inv(states[i])
  {
    if i == 0 {
      InitialInv(states[0]);
    } else {
      TracesKeepInv(states, events, i - 1);
      StepKeepsInv(states[i - 1], events[i - 1]);
    }
  }

  // ---------------------------------------------------------------- taking a request on

  // A request is taken on exactly when fewer than 64 are pending and its ID is above all before.
  lemma RegistersExactlyWhen(states: seq<Session>, events: seq<Event>, i: nat, id: nat, operation: Operation)
    requires IsTrace(states, events) && i < |events| && events[i] == Register(id, operation)
    ensures if |states[i].pending| < 64 && id > states[i].lastClaimed then
              && states[i + 1].pending == states[i].pending + {id} && states[i + 1].lastClaimed == id
              && id in states[i + 1].requests && states[i + 1].requests[id].operation == operation
              && states[i + 1].requests[id].outcome.None?
            else states[i + 1] == states[i]
  {
    TracesKeepInv(states, events, i);
  }

  // The step spends the ID, for a request or a frame that no response is awaited for.
  predicate Spends(e: Event, id: nat) {
    e == Claim(id) || (e.Register? && e.id == id)
  }

  // What the dispatcher leaves alone: the IDs spent, and whether the session is disposed.
  lemma HandlingSpendsNothing(s: Session)
    requires Enabled(s, Handle)
    ensures Step(s, Handle).lastClaimed == s.lastClaimed && Step(s, Handle).disposed == s.disposed
  {
  }

  lemma AnsweringSpendsNothing(s: Session)
    requires Enabled(s, Answer)
    ensures Step(s, Answer).lastClaimed == s.lastClaimed && Step(s, Answer).disposed == s.disposed
  {
  }

  lemma ClaimsGoUp(s: Session, e: Event)
    requires Enabled(s, e) && e != Handle && e != Answer
    ensures Step(s, e).lastClaimed >= s.lastClaimed
    ensures e.Claim? ==> Step(s, e).lastClaimed >= e.id
  {
  }

  lemma ClaimsDoNotFall(s: Session, e: Event)
    requires Enabled(s, e)
    ensures Step(s, e).lastClaimed >= s.lastClaimed
  {
    if e == Handle {
      HandlingSpendsNothing(s);
    } else if e == Answer {
      AnsweringSpendsNothing(s);
    } else {
      ClaimsGoUp(s, e);
    }
  }

  lemma {:induction false} ClaimsStay(states: seq<Session>, events: seq<Event>, k: nat, j: nat)
    requires IsTrace(states, events) && k <= j < |states|
    ensures states[j].lastClaimed >= states[k].lastClaimed
    decreases j - k
  {
    if k < j {
      ClaimsDoNotFall(states[k], events[k]);
      ClaimsStay(states, events, k + 1, j);
    }
  }

  // An ID that was spent, or is below one that was, is never taken again.
  lemma SpentIdsAreRefused(states: seq<Session>, events: seq<Event>, k: nat, j: nat, spent: nat, id: nat)
    requires IsTrace(states, events) && k < j < |events| && id <= spent && Spends(events[j], id)
    requires events[k] == Claim(spent) || (events[k].Register? && events[k].id == spent && spent in states[k + 1].pending)
    ensures states[j + 1] == states[j]
  {
    TracesKeepInv(states, events, k + 1);
    ClaimsGoUp(states[k], events[k]);
    ClaimsStay(states, events, k + 1, j);
  }

  // ---------------------------------------------------------------- what other steps leave alone

  // What a request keeps from step to step.
  ghost predicate Keeps(s: Session, s': Session, id: nat) {
    id in s.requests ==>
      && id in s'.requests && s'.requests[id].operation == s.requests[id].operation
      && (s.requests[id].armed ==> s'.requests[id].armed)
  }

  lemma RegisterKeepsRequest(s: Session, newId: nat, operation: Operation, id: nat)
    requires Inv(s)
    ensures Keeps(s, Step(s, Register(newId, operation)), id)
  {
    if id in s.requests {
      assert id in s.claims && id <= s.lastClaimed;
    }
  }

  lemma StartKeepsRequest(s: Session, x: nat, id: nat)
    requires Inv(s) && Enabled(s, Start(x))
    ensures Keeps(s, Step(s, Start(x)), id)
  {
  }

  lemma AnswerKeepsRequest(s: Session, id: nat)
    requires Enabled(s, Answer)
    ensures Keeps(s, Step(s, Answer), id)
  {
  }

  lemma StepKeepsRequest(s: Session, e: Event, id: nat)
    requires Inv(s) && Enabled(s, e)
    ensures Keeps(s, Step(s, e), id)
  {
    match e
    case Register(newId, operation) => RegisterKeepsRequest(s, newId, operation, id);
    case Start(x) => StartKeepsRequest(s, x, id);
    case Answer => AnswerKeepsRequest(s, id);
    case Handle => HandleLeavesRequests(s);
    case Queue(x) =>
    case GiveUp(x) =>
    case CancelOne(x) =>
    case CloseOne(x) =>
    case Claim(x) => OthersLeaveRequests(s, e);
    case Receive(frame) => OthersLeaveRequests(s, e);
    case CancelsDone => OthersLeaveRequests(s, e);
    case CountProjected => OthersLeaveRequests(s, e);
    case ReadLatest => OthersLeaveRequests(s, e);
    case CountPublished => OthersLeaveRequests(s, e);
    case Dispose => OthersLeaveRequests(s, e);
    case Finish => OthersLeaveRequests(s, e);
  }

  lemma {:induction false} RequestIsKept(states: seq<Session>, events: seq<Event>, i: nat, j: nat, id: nat)
    requires IsTrace(states, events) && i <= j < |states| && id in states[i].requests
    ensures Keeps(states[i], states[j], id)
    decreases j - i
  {
    if i < j {
      TracesKeepInv(states, events, i);
      StepKeepsRequest(states[i], events[i], id);
      RequestIsKept(states, events, i + 1, j, id);
    }
  }

  // What the session knows of the write of a request.
  predicate IsQueued(s: Session, id: nat) {
    id in s.requests && s.requests[id].queued
  }

  predicate IsStarted(s: Session, id: nat) {
    id in s.requests && s.requests[id].started
  }

  predicate IsArmed(s: Session, id: nat) {
    id in s.requests && s.requests[id].armed
  }

  // The step moves none of these, or moves them as it says.
  ghost predicate MovesWrite(s: Session, e: Event, s': Session, id: nat) {
    && (IsQueued(s', id) <==> IsQueued(s, id) || e == Queue(id))
    && (IsStarted(s', id) <==> IsStarted(s, id) || e == Start(id))
    && (IsArmed(s', id) <==> IsArmed(s, id) || (e == Start(id) && id in s.pending))
  }

  lemma RegisteringMovesNothing(s: Session, x: nat, operation: Operation, id: nat)
    requires Inv(s)
    ensures MovesWrite(s, Register(x, operation), Step(s, Register(x, operation)), id)
  {
    if x in s.requests {
      assert x in s.claims && x <= s.lastClaimed;
    }
  }

  lemma AnsweringMovesNothing(s: Session, id: nat)
    requires Enabled(s, Answer)
    ensures MovesWrite(s, Answer, Step(s, Answer), id)
  {
  }

  lemma StartingMoves(s: Session, x: nat, id: nat)
    requires Inv(s) && Enabled(s, Start(x))
    ensures MovesWrite(s, Start(x), Step(s, Start(x)), id)
  {
  }

  lemma CallersMove(s: Session, e: Event, id: nat)
    requires Enabled(s, e) && (e.Queue? || e.GiveUp? || e.CancelOne? || e.CloseOne?)
    ensures MovesWrite(s, e, Step(s, e), id)
  {
  }

  lemma StepMovesWrite(s: Session, e: Event, id: nat)
    requires Inv(s) && Enabled(s, e)
    ensures MovesWrite(s, e, Step(s, e), id)
  {
    if e.Register? {
      RegisteringMovesNothing(s, e.id, e.operation, id);
    } else if e.Start? {
      StartingMoves(s, e.id, id);
    } else if e == Answer {
      AnsweringMovesNothing(s, id);
    } else if e == Handle {
      HandleLeavesRequests(s);
    } else if e.Queue? || e.GiveUp? || e.CancelOne? || e.CloseOne? {
      CallersMove(s, e, id);
    } else {
      OthersLeaveRequests(s, e);
    }
  }

  ghost predicate Happened(events: seq<Event>, j: nat, e: Event)
    requires j <= |events|
  {
    exists i :: 0 <= i < j && events[i] == e
  }

  // The write of the request started while the request was pending.
  ghost predicate StartedInTime(states: seq<Session>, events: seq<Event>, j: nat, id: nat)
    requires j <= |events| < |states|
  {
    exists i :: 0 <= i < j && events[i] == Start(id) && id in states[i].pending
  }

  lemma WritesAreCounted(states: seq<Session>, events: seq<Event>, n: nat, id: nat)
    requires n < |events| < |states|
    ensures Happened(events, n + 1, Queue(id)) <==> Happened(events, n, Queue(id)) || events[n] == Queue(id)
    ensures Happened(events, n + 1, Start(id)) <==> Happened(events, n, Start(id)) || events[n] == Start(id)
    ensures StartedInTime(states, events, n + 1, id)
       <==> StartedInTime(states, events, n, id) || (events[n] == Start(id) && id in states[n].pending)
  {
  }

  // The write of a request may start from the step that queued it until it has; replies are
  // matched from its start on, if the request was pending then.
  lemma {:induction false} ArmedExactlyWhen(states: seq<Session>, events: seq<Event>, j: nat, id: nat)
    requires IsTrace(states, events) && j < |states|
    ensures Enabled(states[j], Start(id)) <==> Happened(events, j, Queue(id)) && !Happened(events, j, Start(id))
    ensures IsQueued(states[j], id) <==> Happened(events, j, Queue(id))
    ensures IsStarted(states[j], id) <==> Happened(events, j, Start(id))
    ensures IsArmed(states[j], id) <==> StartedInTime(states, events, j, id)
  {
    if j > 0 {
      var n := j - 1;
      ArmedExactlyWhen(states, events, n, id);
      TracesKeepInv(states, events, n);
      StepMovesWrite(states[n], events[n], id);
      WritesAreCounted(states, events, n, id);
    }
  }

  // ---------------------------------------------------------------- from frame to outcome

  // The frame comes from another boot than the known one; a HELLO in flight explains that.
  predicate ShowsNewBoot(s: Session, frame: Received, operation: Option<Operation>) {
    && s.identity.Some? && operation != Some(Hello)
    && frame.bootId.Some? && frame.bootId.value != "" && frame.bootId.value != s.identity.value.bootId
  }

  // How a reply settles the request it names: an error remotely; a response by its result, unless
  // a HELLO carries no identity or a position query no snapshot the projector accepts.
  predicate SettlesAs(s: Session, frame: Received, operation: Operation, x: Outcome) {
    || (frame.kind == Err && x == RemoteError)
    || (frame.kind == Rsp
        && x == (match operation
                 case Hello => if frame.identity.Some? then Result else ProtocolError
                 case GetJpos => if s.identity.Some? && frame.projectable then Result else ProtocolError
                 case OtherQuery => Result))
  }

  // Between its receipt in state r and the end of its reply, a frame for the request is on its way
  // to settling it.
  ghost predicate IsOnItsWay(r: Session, s: Session, frame: Received, id: nat, x: Outcome) {
    && id in s.requests && id in r.requests && s.requests[id].operation == r.requests[id].operation
    && SettlesAs(r, frame, r.requests[id].operation, x)
    && match s.phase
       case Matched(f, pending) => f == frame && pending == Some(id) && s.identity == r.identity
       case Stored(next, f) => f == frame && next == Some(id) && x == Result
       case Renewing(n, f, _) => f == frame && n == id && x == Result
       case Answering(n, f, answer) => f == frame && n == id && x == answer
       case _ => false
  }

  lemma HandlingGoesOn(r: Session, s: Session, frame: Received, id: nat, x: Outcome)
    requires Inv(s) && Enabled(s, Handle) && IsOnItsWay(r, s, frame, id, x)
    requires !ShowsNewBoot(r, frame, Some(r.requests[id].operation))
    ensures IsOnItsWay(r, Step(s, Handle), frame, id, x)
  {
  }

  lemma OthersLeavePhase(s: Session, e: Event)
    requires Enabled(s, e) && s.phase != Idle && e != Handle && e != CancelsDone && e != CountProjected && e != Answer
    ensures Step(s, e).phase == s.phase && Step(s, e).identity == s.identity
  {
  }

  lemma StepGoesOn(r: Session, s: Session, e: Event, frame: Received, id: nat, x: Outcome)
    requires Inv(s) && Enabled(s, e) && IsOnItsWay(r, s, frame, id, x) && e != Answer
    requires !ShowsNewBoot(r, frame, Some(r.requests[id].operation))
    ensures IsOnItsWay(r, Step(s, e), frame, id, x)
  {
    StepKeepsRequest(s, e, id);
    if e == Handle {
      HandlingGoesOn(r, s, frame, id, x);
    } else if e != CancelsDone && e != CountProjected {
      OthersLeavePhase(s, e);
    }
  }

  // The i-th step receives a reply for a request that is pending and was written, from the known boot.
  ghost predicate ReceivesReply(states: seq<Session>, events: seq<Event>, i: nat, frame: Received, id: nat) {
    && i < |events| < |states| && events[i] == Receive(frame)
    && (frame.kind == Rsp || frame.kind == Err || frame.kind == Ack || frame.kind == Done) && frame.sequence == id
    && id in states[i].pending && id in states[i].requests
    && (exists k :: 0 <= k < i && events[k] == Start(id) && id in states[k].pending)
    && !ShowsNewBoot(states[i], frame, Some(states[i].requests[id].operation))
  }

  lemma ReceivingMatches(states: seq<Session>, events: seq<Event>, i: nat, frame: Received, id: nat)
    requires IsTrace(states, events) && ReceivesReply(states, events, i, frame, id)
    ensures states[i + 1].phase == Matched(frame, Some(id)) && states[i + 1].identity == states[i].identity
    ensures states[i + 1].requests == states[i].requests
  {
    ArmedExactlyWhen(states, events, i, id);
  }

  // No answer is given between the two states.
  ghost predicate NoAnswer(events: seq<Event>, i: nat, j: nat) {
    forall m :: i < m < j && m < |events| ==> events[m] != Answer
  }

  lemma {:induction false} ReplyIsOnItsWay(
    states: seq<Session>, events: seq<Event>, i: nat, j: nat, frame: Received, id: nat, x: Outcome)
    requires IsTrace(states, events) && ReceivesReply(states, events, i, frame, id) && i < j < |states|
    requires SettlesAs(states[i], frame, states[i].requests[id].operation, x) && NoAnswer(events, i, j)
    ensures IsOnItsWay(states[i], states[j], frame, id, x)
    decreases j - i
  {
    if j == i + 1 {
      ReceivingMatches(states, events, i, frame, id);
    } else {
      ReplyIsOnItsWay(states, events, i, j - 1, frame, id, x);
      TracesKeepInv(states, events, j - 1);
      StepGoesOn(states[i], states[j - 1], events[j - 1], frame, id, x);
    }
  }

  // A response or error to a request that is pending and was written settles that request by the
  // next answer of the dispatcher: if it is still pending then, with the outcome its operation and
  // the frame dictate, a result being the very frame received; if it was settled in between, its
  // outcome stays, and if it was given up, only an invalid HELLO still settles it.
  lemma MatchingReplySettles(
    states: seq<Session>, events: seq<Event>, i: nat, j: nat, frame: Received, id: nat, x: Outcome)
    requires IsTrace(states, events) && ReceivesReply(states, events, i, frame, id)
    requires SettlesAs(states[i], frame, states[i].requests[id].operation, x)
    requires i < j < |events| && events[j] == Answer && NoAnswer(events, i, j)
    ensures states[j + 1].phase == Idle && id in states[j + 1].requests && id !in states[j + 1].pending
    ensures id in states[j].pending ==>
      states[j + 1].requests[id].outcome == Some(x) && (x == Result ==> id in states[j + 1].results && states[j + 1].results[id] == frame)
    ensures states[j].requests[id].outcome.Some? ==> states[j + 1].requests[id].outcome == states[j].requests[id].outcome
    ensures id !in states[j].pending && states[j].requests[id].outcome.None? ==>
      states[j + 1].requests[id].outcome
      == if states[i].requests[id].operation == Hello && x == ProtocolError then Some(ProtocolError) else None
  {
    ReplyIsOnItsWay(states, events, i, j, frame, id, x);
    TracesKeepInv(states, events, j);
  }

  // An acknowledgement, an event, or a reply nobody waits for settles nothing: handling it ends
  // with every request as it was.
  lemma OtherFramesSettleNothing(states: seq<Session>, events: seq<Event>, i: nat)
    requires IsTrace(states, events) && i < |events| && events[i] == Handle
    requires var frame := states[i].phase.frame;
      frame.kind == Ack || frame.kind == Done || frame.kind == Evt || frame.kind == Req || states[i].phase.pending.None?
    requires states[i].phase.frame.kind != Tel && !BootChanged(states[i], states[i].phase.frame, states[i].phase.pending)
    ensures states[i + 1] == states[i].(phase := Idle)
  {
    TracesKeepInv(states, events, i);
  }

  // A request cancelled by a restart of the firmware, or by the end of the session, says which.
  lemma CancellationsSayWhy(states: seq<Session>, events: seq<Event>, i: nat, id: nat)
    requires IsTrace(states, events) && i < |events| && (events[i] == CancelOne(id) || events[i] == CloseOne(id))
    ensures id in states[i].pending && id !in states[i + 1].pending
    ensures states[i + 1].requests[id].outcome == Some(if events[i] == CancelOne(id) then Restarted else Closed)
  {
    TracesKeepInv(states, events, i);
  }

  // ---------------------------------------------------------------- renewal by a HELLO

  // The step takes up the valid response to a HELLO.
  predicate AcceptsHello(s: Session, e: Event, h: nat) {
    && e == Handle && s.phase.Matched? && s.phase.pending == Some(h)
    && s.phase.frame.kind == Rsp && s.phase.frame.identity.Some?
    && h in s.requests && s.requests[h].operation == Hello
  }

  // The first HELLO is accepted at once; a later one once no other request is pending.
  lemma HelloRenews(states: seq<Session>, events: seq<Event>, i: nat, h: nat)
    requires IsTrace(states, events) && i < |events| && AcceptsHello(states[i], events[i], h)
    ensures states[i + 1].phase.Renewing? && states[i + 1].phase.id == h && states[i + 1].pending == states[i].pending
    ensures Enabled(states[i + 1], CancelsDone) <==> states[i].identity.None? || states[i].pending <= {h}
  {
  }

  lemma {:induction false} RenewingStays(states: seq<Session>, events: seq<Event>, i: nat, j: nat)
    requires IsTrace(states, events) && i <= j < |states| && states[i].phase.Renewing?
    requires forall m :: i <= m < j ==> events[m] != CancelsDone
    ensures states[j].phase == states[i].phase
  {
    if i < j {
      RenewingStays(states, events, i, j - 1);
      OthersLeavePhase(states[j - 1], events[j - 1]);
    }
  }

  // When the firmware of a known identity is accepted anew, every other request that was pending
  // has been answered, cancelled or given up before.
  lemma RenewalEndsOthers(states: seq<Session>, events: seq<Event>, i: nat, j: nat, h: nat, id: nat)
    requires IsTrace(states, events) && i < j < |events| && AcceptsHello(states[i], events[i], h)
    requires states[i].identity.Some? && id in states[i].pending && id != h
    requires events[j] == CancelsDone && forall m :: i < m < j ==> events[m] != CancelsDone
    ensures id in states[j].requests && id !in states[j].pending
    ensures states[j].requests[id].outcome.Some? || states[j].requests[id].givenUp
  {
    TracesKeepInv(states, events, i);
    TracesKeepInv(states, events, j);
    RenewingStays(states, events, i + 1, j);
    RequestIsKept(states, events, i, j, id);
  }

  // ---------------------------------------------------------------- the identity

  function OperationOf(s: Session, pending: Option<nat>): Option<Operation> {
    if pending.Some? && pending.value in s.requests then Some(s.requests[pending.value].operation) else None
  }

  // The identity is lost with a frame of another boot and at the end, is that of an accepted HELLO
  // once its cancellations are done, and otherwise stays; the frame counter restarts with both.
  lemma IdentityExactlyWhen(s: Session, e: Event)
    requires Inv(s) && Enabled(s, e)
    ensures var s' := Step(s, e);
      if e == Handle && ShowsNewBoot(s, s.phase.frame, OperationOf(s, s.phase.pending)) then
        s'.identity == None && s'.frameCounter == 0 && s'.epoch == s.epoch + 1 && s'.phase == Resetting(s.pending)
      else if e == CancelsDone && s.phase.Renewing? then
        s'.identity == s.phase.frame.identity && s'.identity.Some? && s'.frameCounter == 0 && s'.epoch == s.epoch + 1
      else if e == Finish then s'.identity == None && s'.epoch == s.epoch
      else s'.identity == s.identity && s'.frameCounter >= s.frameCounter && s'.epoch == s.epoch
  {
    match e
    case Handle => HandleKeepsIdentity(s);
    case Answer => AnswerKeepsIdentity(s);
    case _ => CallersKeepIdentity(s, e);
  }

  lemma HandleKeepsIdentity(s: Session)
    requires Enabled(s, Handle)
    ensures var s' := Step(s, Handle);
      if ShowsNewBoot(s, s.phase.frame, OperationOf(s, s.phase.pending)) then
        s'.identity == None && s'.frameCounter == 0 && s'.epoch == s.epoch + 1 && s'.phase == Resetting(s.pending)
      else s'.identity == s.identity && s'.frameCounter >= s.frameCounter && s'.epoch == s.epoch
  {
  }

  lemma AnswerKeepsIdentity(s: Session)
    requires Enabled(s, Answer)
    ensures Step(s, Answer).identity == s.identity && Step(s, Answer).frameCounter == s.frameCounter
    ensures Step(s, Answer).epoch == s.epoch
  {
  }

  lemma CallersKeepIdentity(s: Session, e: Event)
    requires Inv(s) && Enabled(s, e) && e != Handle && e != Answer
    ensures var s' := Step(s, e);
      if e == CancelsDone && s.phase.Renewing? then
        s'.identity == s.phase.frame.identity && s'.identity.Some? && s'.frameCounter == 0 && s'.epoch == s.epoch + 1
      else if e == Finish then s'.identity == None && s'.epoch == s.epoch
      else s'.identity == s.identity && s'.frameCounter == s.frameCounter && s'.epoch == s.epoch
  {
  }

  // ---------------------------------------------------------------- the motor slot

  // The step projects a motor frame: telemetry, or the response to a position query, under a known
  // identity and accepted by the projector.
  predicate ProjectsFrame(s: Session, e: Event) {
    && e == Handle && Enabled(s, e) && s.identity.Some? && s.phase.frame.projectable
    && !ShowsNewBoot(s, s.phase.frame, OperationOf(s, s.phase.pending))
    && (s.phase.frame.kind == Tel || (s.phase.frame.kind == Rsp && OperationOf(s, s.phase.pending) == Some(GetJpos)))
  }

  lemma HandlingStores(s: Session)
    requires Enabled(s, Handle)
    ensures var s' := Step(s, Handle);
      && s'.slot == (if ProjectsFrame(s, Handle) then Some(MotorFrame(s.epoch, s.frameCounter + 1)) else s.slot)
      && s'.coalesced == s.coalesced + (if ProjectsFrame(s, Handle) && s.slot.Some? then 1 else 0)
      && (s'.phase.Stored? <==> ProjectsFrame(s, Handle))
  {
  }

  lemma OthersKeepSlot(s: Session, e: Event)
    requires Enabled(s, e) && e != Handle && e != ReadLatest && e != Finish
    ensures Step(s, e).slot == s.slot
  {
    if e == Answer {
      AnsweringProjectsNothing(s, s.phase.id, s.phase.frame, s.phase.answer);
    }
  }

  // The i-th step projected the frame, and none up to the j-th projected, read or dropped one.
  ghost predicate ProjectedLast(states: seq<Session>, events: seq<Event>, i: nat, j: nat, f: MotorFrame) {
    && i < j <= |events| < |states| && ProjectsFrame(states[i], events[i])
    && f == MotorFrame(states[i].epoch, states[i].frameCounter + 1)
    && forall m :: i < m < j ==> !ProjectsFrame(states[m], events[m]) && events[m] != ReadLatest && events[m] != Finish
  }

  // The slot holds a frame if and only if it is the last one projected and nobody has read it yet:
  // the latest wins.
  lemma {:induction false} LatestWins(states: seq<Session>, events: seq<Event>, j: nat, f: MotorFrame)
    requires IsTrace(states, events) && j < |states|
    ensures states[j].slot == Some(f) <==> exists i: nat :: ProjectedLast(states, events, i, j, f)
  {
    if j > 0 {
      var n := j - 1;
      var s, e := states[n], events[n];
      LatestWins(states, events, n, f);
      if e == Handle {
        HandlingStores(s);
      } else if e != ReadLatest && e != Finish {
        OthersKeepSlot(s, e);
      }
      LastGoesOn(states, events, n, j, f);
    }
  }

  lemma LastGoesOn(states: seq<Session>, events: seq<Event>, n: nat, j: nat, f: MotorFrame)
    requires j == n + 1 <= |events| < |states|
    ensures (exists i: nat :: ProjectedLast(states, events, i, j, f))
       <==> if ProjectsFrame(states[n], events[n]) then f == MotorFrame(states[n].epoch, states[n].frameCounter + 1)
            else events[n] != ReadLatest && events[n] != Finish && exists i: nat :: ProjectedLast(states, events, i, n, f)
  {
    if ProjectsFrame(states[n], events[n]) && f == MotorFrame(states[n].epoch, states[n].frameCounter + 1) {
      assert ProjectedLast(states, events, n, j, f);
    }
    if i: nat :| ProjectedLast(states, events, i, n, f) {
      if !ProjectsFrame(states[n], events[n]) && events[n] != ReadLatest && events[n] != Finish {
        assert ProjectedLast(states, events, i, j, f);
      }
    }
    if i: nat :| ProjectedLast(states, events, i, j, f) && i < n {
      assert ProjectedLast(states, events, i, n, f);
    }
  }

  // A reader takes what the slot holds, and leaves it empty.
  lemma ReadersTakeTheSlot(states: seq<Session>, events: seq<Event>, j: nat)
    requires IsTrace(states, events) && j < |events| && events[j] == ReadLatest
    ensures states[j].slot.Some? && states[j + 1].output == states[j].output + [states[j].slot.value]
    ensures states[j + 1].slot == None
  {
  }

  lemma HandlingCounts(s: Session)
    requires Enabled(s, Handle)
    ensures ShowsNewBoot(s, s.phase.frame, OperationOf(s, s.phase.pending)) || Step(s, Handle).frameCounter
         == if s.identity.Some? && (s.phase.frame.kind == Tel
                                    || (s.phase.frame.kind == Rsp && OperationOf(s, s.phase.pending) == Some(GetJpos)))
            then s.frameCounter + 1 else s.frameCounter
  {
  }

  // Under a known identity every telemetry frame, and every response to a position query, has a
  // number of its own, also one that the projector refuses.
  lemma NumberedExactlyWhen(s: Session, e: Event)
    requires Inv(s) && Enabled(s, e) && s.identity.Some? && Step(s, e).identity == s.identity
    requires !(e == CancelsDone && s.phase.Renewing?)
    ensures Step(s, e).frameCounter
         == s.frameCounter
            + (if e == Handle && (s.phase.frame.kind == Tel
                                  || (s.phase.frame.kind == Rsp && OperationOf(s, s.phase.pending) == Some(GetJpos)))
               then 1 else 0)
  {
    match e
    case Handle => HandlingCounts(s); HandleKeepsIdentity(s);
    case Answer => AnswerKeepsIdentity(s);
    case _ => CallersKeepIdentity(s, e);
  }

  lemma CallersLeaveDisposal(s: Session, e: Event)
    requires Enabled(s, e) && e != Handle && e != Answer && e != Dispose
    ensures Step(s, e).disposed == s.disposed
  {
  }

  lemma DisposalStays(s: Session, e: Event)
    requires Enabled(s, e)
    ensures s.disposed || e == Dispose <==> Step(s, e).disposed
  {
    if e == Handle {
      HandlingSpendsNothing(s);
    } else if e == Answer {
      AnsweringSpendsNothing(s);
    } else if e != Dispose {
      CallersLeaveDisposal(s, e);
    }
  }

  lemma {:induction false} DisposalLasts(states: seq<Session>, events: seq<Event>, k: nat, j: nat)
    requires IsTrace(states, events) && k <= j < |states| && states[k].disposed
    ensures states[j].disposed
    decreases j - k
  {
    if k < j {
      DisposalStays(states[k], events[k]);
      DisposalLasts(states, events, k + 1, j);
    }
  }

  lemma DisposedStays(states: seq<Session>, events: seq<Event>, k: nat, j: nat)
    requires IsTrace(states, events) && k < j < |states| && events[k] == Dispose
    ensures states[j].disposed
  {
    DisposalStays(states[k], events[k]);
    DisposalLasts(states, events, k + 1, j);
  }

  // Once the session is disposed nobody reads a frame; and only then does it come to its end,
  // which drops a frame nobody has read.
  lemma DisposedReadsNothing(states: seq<Session>, events: seq<Event>, k: nat, j: nat)
    requires IsTrace(states, events) && k < j < |events| && events[k] == Dispose
    ensures events[j] != ReadLatest
    ensures events[j] == Finish ==>
      states[j + 1].closed && states[j + 1].slot == None
      && states[j + 1].dropped == states[j].dropped + if states[j].slot.Some? then 1 else 0
  {
    DisposedStays(states, events, k, j);
  }
}
