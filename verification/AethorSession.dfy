/**
The Aethor request/response session: monotonic request IDs, at most 64 pending requests,
correlation by ID, boot epochs, and the latest-wins motor slot. The steps are those of
request callers, the serial writer, the receive dispatcher, motor readers and shutdown.
*/
module AethorSession {
  import opened Wrappers
  import opened AsciiFrame

  const MAXIMUM_PENDING_REQUESTS: nat := 64

  datatype Operation = Hello | GetJpos | OtherQuery

  datatype Identity = Identity(
    controllerId: string, armId: string, bootId: string, deviceSession: string, firmware: string,
    modes: seq<string>, streamMaximumHz: int)

  // What the session looks at in a received frame: its boot_id field, the identity a valid
  // HELLO response carries, and whether the motor projector accepts it.
  datatype Received = Received(
    kind: Kind, sequence: nat, bootId: Option<string>, identity: Option<Identity>, projectable: bool)

  // How the response of a request is settled.
  datatype Outcome = Result | RemoteError | ProtocolError | Restarted | Closed

  datatype Request = Request(
    operation: Operation, queued: bool, started: bool, armed: bool, outcome: Option<Outcome>, givenUp: bool)

  // A projected frame, by the counter value it carries and the number of counter resets before it.
  datatype MotorFrame = MotorFrame(epoch: nat, counter: nat)

  // The dispatcher between two frames or inside one.
  datatype Phase =
    | Idle
    | Matched(frame: Received, pending: Option<nat>)
    | Resetting(before: set<nat>)
    | Renewing(id: nat, frame: Received, before: set<nat>)
    | Stored(next: Option<nat>, frame: Received)
    | Answering(id: nat, frame: Received, answer: Outcome)

  datatype Session = Session(
    pending: set<nat>, requests: map<nat, Request>, lastClaimed: nat, claims: seq<nat>,
    identity: Option<Identity>, frameCounter: nat, epoch: nat,
    slot: Option<MotorFrame>, projected: nat, published: nat, coalesced: nat, dropped: nat, reading: nat,
    output: seq<MotorFrame>, results: map<nat, Received>,
    phase: Phase, disposed: bool, closed: bool)

  datatype Event =
    | Claim(id: nat)
    | Register(id: nat, operation: Operation)
    | Queue(id: nat)
    | Start(id: nat)
    | GiveUp(id: nat)
    | Receive(frame: Received)
    | Handle
    | CancelOne(id: nat)
    | CancelsDone
    | CountProjected
    | Answer
    | ReadLatest
    | CountPublished
    | Dispose
    | CloseOne(id: nat)
    | Finish

  const INITIAL_SESSION: Session :=
    Session({}, map[], 0, [], None, 0, 0, None, 0, 0, 0, 0, 0, [], map[], Idle, false, false)

  // ---------------------------------------------------------------- the steps

  function SetRequest(s: Session, id: nat, r: Request): Session {
    s.(requests := s.requests[id := r])
  }

  // Settling a response: the first outcome stays.
  function Settle(s: Session, id: nat, outcome: Outcome): Session
    requires id in s.requests
  {
    if s.requests[id].outcome.Some? then s
    else SetRequest(s, id, s.requests[id].(outcome := Some(outcome)))
  }

  // Removing a pending request and settling it, if it is still pending.
  function RemoveAndSettle(s: Session, id: nat, outcome: Outcome): Session
    requires id in s.requests
  {
    if id in s.pending then Settle(s.(pending := s.pending - {id}), id, outcome) else s
  }

  predicate IsReply(kind: Kind) {
    kind == Rsp || kind == Err || kind == Ack || kind == Done
  }

  function Match(s: Session, frame: Received): Option<nat> {
    if IsReply(frame.kind) && frame.sequence in s.pending && frame.sequence in s.requests
       && s.requests[frame.sequence].armed
    then Some(frame.sequence) else None
  }

  predicate BootChanged(s: Session, frame: Received, pending: Option<nat>) {
    && s.identity.Some?
    && !(pending.Some? && pending.value in s.requests && s.requests[pending.value].operation == Hello)
    && frame.bootId.Some? && frame.bootId.value != "" && frame.bootId.value != s.identity.value.bootId
  }

  predicate Projects(s: Session, frame: Received) {
    s.identity.Some? && frame.projectable
  }

  // The projector: the counter moves even when the frame is refused; a stored frame replaces
  // the one nobody has read.
  function Project(s: Session, frame: Received): Session {
    if s.identity.None? then s
    else
      var s := s.(frameCounter := s.frameCounter + 1);
      if !frame.projectable then s
      else s.(coalesced := s.coalesced + (if s.slot.Some? then 1 else 0), slot := Some(MotorFrame(s.epoch, s.frameCounter)))
  }

  // What the dispatcher turns to after a reply of the matched request.
  function AfterReply(s: Session, frame: Received, id: nat): Phase
    requires id in s.requests
  {
    if frame.kind == Err then Answering(id, frame, RemoteError)
    else if frame.kind != Rsp then Idle
    else
      match s.requests[id].operation
      case Hello =>
        if frame.identity.None? then Answering(id, frame, ProtocolError)
        else Renewing(id, frame, if s.identity.Some? then s.pending - {id} else {})
      case GetJpos => if Projects(s, frame) then Stored(Some(id), frame) else Answering(id, frame, ProtocolError)
      case OtherQuery => Answering(id, frame, Result)
  }

  function AfterFrame(s: Session, frame: Received, pending: Option<nat>): Phase
    requires pending.Some? ==> pending.value in s.requests
  {
    if BootChanged(s, frame, pending) then Resetting(s.pending)
    else if frame.kind == Tel then if Projects(s, frame) then Stored(None, frame) else Idle
    else if pending.None? then Idle
    else AfterReply(s, frame, pending.value)
  }

  // Telemetry, and the response to a joint position query.
  predicate CarriesMotorState(s: Session, frame: Received, pending: Option<nat>) {
    frame.kind == Tel
    || (frame.kind == Rsp && pending.Some? && pending.value in s.requests && s.requests[pending.value].operation == GetJpos)
  }

  function HandleFrame(s: Session, frame: Received, pending: Option<nat>): Session
    requires pending.Some? ==> pending.value in s.requests
  {
    var s' := if BootChanged(s, frame, pending) then s.(identity := None, frameCounter := 0, epoch := s.epoch + 1)
              else if CarriesMotorState(s, frame, pending) then Project(s, frame)
              else s;
    s'.(phase := AfterFrame(s, frame, pending))
  }

  // The end of a reply: an invalid HELLO settles its request even when that was already removed.
  function Settled(s: Session, id: nat, frame: Received, answer: Outcome): Session
    requires id in s.requests
  {
    if answer == Result then
      if id in s.pending then Settle(s.(pending := s.pending - {id}), id, Result).(results := s.results[id := frame]) else s
    else if s.requests[id].operation == Hello && answer == ProtocolError then
      Settle(s.(pending := s.pending - {id}), id, answer)
    else RemoveAndSettle(s, id, answer)
  }

  predicate Enabled(s: Session, e: Event) {
    match e
    case Claim(id) => true
    case Register(id, _) => true
    case Queue(id) => id in s.pending && id in s.requests && !s.requests[id].queued
    case Start(id) => id in s.requests && s.requests[id].queued && !s.requests[id].started
    case GiveUp(id) => id in s.requests
    case Receive(_) => s.phase == Idle && !s.closed
    case Handle => s.phase.Matched? && (s.phase.pending.Some? ==> s.phase.pending.value in s.requests)
    case CancelOne(id) =>
      id in s.requests && id in s.pending && (s.phase.Resetting? || (s.phase.Renewing? && id != s.phase.id && s.identity.Some?))
    case CancelsDone => (s.phase.Resetting? || (s.phase.Renewing? && s.phase.frame.identity.Some?)) && s.phase.before !! s.pending
    case CountProjected => s.phase.Stored?
    case Answer => s.phase.Answering? && s.phase.id in s.requests
    case ReadLatest => !s.disposed && s.slot.Some?
    case CountPublished => s.reading > 0
    case Dispose => true
    case CloseOne(id) => id in s.requests && id in s.pending
    case Finish => s.disposed && s.phase == Idle
  }

  function Step(s: Session, e: Event): Session
    requires Enabled(s, e)
  {
    match e
    case Claim(id) =>
      if id <= s.lastClaimed then s else s.(lastClaimed := id, claims := s.claims + [id])
    case Register(id, operation) =>
      if |s.pending| >= MAXIMUM_PENDING_REQUESTS || id <= s.lastClaimed || id in s.pending then s
      else
        SetRequest(s, id, Request(operation, false, false, false, None, false))
        .(pending := s.pending + {id}, lastClaimed := id, claims := s.claims + [id])
    case Queue(id) => SetRequest(s, id, s.requests[id].(queued := true))
    case Start(id) => SetRequest(s, id, s.requests[id].(started := true, armed := id in s.pending))
    case GiveUp(id) => SetRequest(s, id, s.requests[id].(givenUp := true)).(pending := s.pending - {id})
    case Receive(frame) => s.(phase := Matched(frame, Match(s, frame)))
    case Handle => HandleFrame(s, s.phase.frame, s.phase.pending)
    case CancelOne(id) => RemoveAndSettle(s, id, Restarted)
    case CancelsDone =>
      if s.phase.Resetting? then s.(phase := Idle)
      else s.(frameCounter := 0, epoch := s.epoch + 1, identity := s.phase.frame.identity,
              phase := Answering(s.phase.id, s.phase.frame, Result))
    case CountProjected =>
      s.(projected := s.projected + 1,
         phase := if s.phase.next.Some? then Answering(s.phase.next.value, s.phase.frame, Result) else Idle)
    case Answer => Settled(s, s.phase.id, s.phase.frame, s.phase.answer).(phase := Idle)
    case ReadLatest => s.(slot := None, reading := s.reading + 1, output := s.output + [s.slot.value])
    case CountPublished => s.(published := s.published + 1, reading := s.reading - 1)
    case Dispose => s.(disposed := true)
    case CloseOne(id) => RemoveAndSettle(s, id, Closed)
    case Finish =>
      s.(closed := true, identity := None, slot := None, dropped := s.dropped + if s.slot.Some? then 1 else 0)
  }

  // ---------------------------------------------------------------- invariants

  ghost predicate ClaimsIncrease(claims: seq<nat>, lastClaimed: nat, requests: map<nat, Request>) {
    && (forall i, j :: 0 <= i < j < |claims| ==> claims[i] < claims[j])
    && (forall i :: 0 <= i < |claims| ==> claims[i] <= lastClaimed)
    && (forall id :: id in requests ==> id in claims)
  }

  ghost predicate PendingIsOpen(pending: set<nat>, requests: map<nat, Request>) {
    && |pending| <= MAXIMUM_PENDING_REQUESTS
    && (forall id :: id in pending ==> id in requests && requests[id].outcome.None? && !requests[id].givenUp)
    && (forall id :: id in requests ==> id in pending || requests[id].outcome.Some? || requests[id].givenUp)
    && (forall id :: id in requests && requests[id].armed ==> requests[id].started)
  }

  // A reply under way belongs to the armed request its frame names.
  ghost predicate ReplyIsMatched(requests: map<nat, Request>, id: nat, frame: Received) {
    id in requests && requests[id].armed && frame.sequence == id
  }

  ghost predicate PhaseIsMatched(phase: Phase, requests: map<nat, Request>) {
    match phase
    case Matched(frame, pending) => pending.Some? ==> ReplyIsMatched(requests, pending.value, frame)
    case Renewing(id, frame, before) => ReplyIsMatched(requests, id, frame) && frame.identity.Some? && frame.kind == Rsp
    case Stored(next, frame) => next.Some? ==> ReplyIsMatched(requests, next.value, frame) && frame.kind == Rsp
    case Answering(id, frame, answer) => ReplyIsMatched(requests, id, frame) && (answer == Result ==> frame.kind == Rsp)
    case Idle => true
    case Resetting(_) => true
  }

  // A result is that of a response frame naming the request, which had been written by then.
  ghost predicate ResultsAreOwn(results: map<nat, Received>, requests: map<nat, Request>) {
    forall id :: id in results || id in requests ==>
      (id in results <==> id in requests && requests[id].outcome == Some(Result))
      && (id in results ==> results[id].kind == Rsp && ReplyIsMatched(requests, id, results[id]))
  }

  function One(b: bool): nat {
    if b then 1 else 0
  }

  // Every projected frame was read, replaced, dropped at the end, or waits in the slot.
  ghost predicate MotorFramesAreConserved(s: Session) {
    && s.projected + One(s.phase.Stored?) == s.published + s.reading + s.coalesced + s.dropped + One(s.slot.Some?)
    && |s.output| == s.published + s.reading
    && (s.dropped > 0 ==> s.disposed)
  }

  predicate Before(f: MotorFrame, g: MotorFrame) {
    f.epoch < g.epoch || (f.epoch == g.epoch && f.counter < g.counter)
  }

  // Frames leave in the order they were projected, and the slot holds a later one.
  ghost predicate OutputIsOrdered(output: seq<MotorFrame>, slot: Option<MotorFrame>, epoch: nat, counter: nat) {
    var now := MotorFrame(epoch, counter + 1);
    && (forall i, j :: 0 <= i < j < |output| ==> Before(output[i], output[j]))
    && (forall i :: 0 <= i < |output| ==> Before(output[i], if slot.Some? then slot.value else now))
    && (slot.Some? ==> Before(slot.value, now))
  }

  ghost predicate Inv(s: Session) {
    && ClaimsIncrease(s.claims, s.lastClaimed, s.requests)
    && PendingIsOpen(s.pending, s.requests)
    && PhaseIsMatched(s.phase, s.requests)
    && ResultsAreOwn(s.results, s.requests)
    && MotorFramesAreConserved(s)
    && OutputIsOrdered(s.output, s.slot, s.epoch, s.frameCounter)
  }

  predicate IsInitial(s: Session) {
    s == INITIAL_SESSION
  }

  lemma InitialInv(s: Session)
    requires IsInitial(s)
    ensures Inv(s)
  {
  }

  // ---------------------------------------------------------------- every step keeps them

  // What a change to one request must respect to keep the invariants of the others.
  ghost predicate Evolves(s: Session, id: nat, r: Request) {
    && id in s.requests
    && r.operation == s.requests[id].operation
    && (s.requests[id].armed ==> r.armed) && (r.armed ==> r.started)
    && (s.requests[id].outcome.Some? ==> r.outcome == s.requests[id].outcome)
    && (s.requests[id].givenUp ==> r.givenUp)
  }

  lemma RequestEvolves(s: Session, id: nat, r: Request, pending: set<nat>, results: map<nat, Received>)
    requires Inv(s) && Evolves(s, id, r)
    requires pending == s.pending || pending == s.pending - {id}
    requires id in pending <==> r.outcome.None? && !r.givenUp
    requires if r.outcome == Some(Result) && s.requests[id].outcome != Some(Result)
             then id in results && results == s.results[id := results[id]]
                  && results[id].kind == Rsp && results[id].sequence == id && r.armed
             else results == s.results
    ensures var requests := s.requests[id := r];
      && ClaimsIncrease(s.claims, s.lastClaimed, requests) && PendingIsOpen(pending, requests)
      && PhaseIsMatched(s.phase, requests) && ResultsAreOwn(results, requests)
  {
    RemovingShrinks(s.pending, id);
  }

  lemma RemovingShrinks(pending: set<nat>, id: nat)
    ensures |pending - {id}| <= |pending|
  {
    if id in pending {
      assert |pending - {id}| == |pending| - 1;
    } else {
      assert pending - {id} == pending;
    }
  }

  lemma ClaimKeeps(s: Session, id: nat)
    requires Inv(s)
    ensures Inv(Step(s, Claim(id)))
  {
  }

  lemma ClaimGrows(claims: seq<nat>, last: nat, requests: map<nat, Request>, id: nat, r: Request)
    requires ClaimsIncrease(claims, last, requests) && id > last
    ensures ClaimsIncrease(claims + [id], id, requests[id := r])
  {
    assert forall x :: x in claims + [id] <==> x in claims || x == id;
  }

  lemma PendingGrows(pending: set<nat>, requests: map<nat, Request>, id: nat, r: Request)
    requires PendingIsOpen(pending, requests) && |pending| < MAXIMUM_PENDING_REQUESTS
    requires id !in requests && !r.armed && r.outcome.None? && !r.givenUp
    ensures PendingIsOpen(pending + {id}, requests[id := r])
  {
  }

  lemma NewRequestKeepsReplies(phase: Phase, results: map<nat, Received>, requests: map<nat, Request>, id: nat, r: Request)
    requires PhaseIsMatched(phase, requests) && ResultsAreOwn(results, requests) && id !in requests && r.outcome.None?
    ensures PhaseIsMatched(phase, requests[id := r]) && ResultsAreOwn(results, requests[id := r])
  {
  }

  lemma RegisterKeeps(s: Session, id: nat, operation: Operation)
    requires Inv(s)
    ensures Inv(Step(s, Register(id, operation)))
  {
    if |s.pending| < MAXIMUM_PENDING_REQUESTS && id > s.lastClaimed && id !in s.pending {
      var r := Request(operation, false, false, false, None, false);
      assert id !in s.requests;
      ClaimGrows(s.claims, s.lastClaimed, s.requests, id, r);
      PendingGrows(s.pending, s.requests, id, r);
      NewRequestKeepsReplies(s.phase, s.results, s.requests, id, r);
    }
  }

  lemma QueueKeeps(s: Session, id: nat)
    requires Inv(s) && Enabled(s, Queue(id))
    ensures Inv(Step(s, Queue(id)))
  {
    RequestEvolves(s, id, s.requests[id].(queued := true), s.pending, s.results);
  }

  lemma StartKeeps(s: Session, id: nat)
    requires Inv(s) && Enabled(s, Start(id))
    ensures Inv(Step(s, Start(id)))
  {
    RequestEvolves(s, id, s.requests[id].(started := true, armed := id in s.pending), s.pending, s.results);
  }

  lemma GiveUpKeeps(s: Session, id: nat)
    requires Inv(s) && Enabled(s, GiveUp(id))
    ensures Inv(Step(s, GiveUp(id)))
  {
    RequestEvolves(s, id, s.requests[id].(givenUp := true), s.pending - {id}, s.results);
  }

  lemma RemoveAndSettleKeeps(s: Session, id: nat, outcome: Outcome)
    requires Inv(s) && id in s.requests && outcome != Result
    ensures Inv(RemoveAndSettle(s, id, outcome))
  {
    if id in s.pending {
      RequestEvolves(s, id, s.requests[id].(outcome := Some(outcome)), s.pending - {id}, s.results);
    }
  }

  lemma ResultKeeps(s: Session, id: nat, frame: Received)
    requires Inv(s) && id in s.pending && ReplyIsMatched(s.requests, id, frame) && frame.kind == Rsp
    ensures Inv(Settle(s.(pending := s.pending - {id}), id, Result).(results := s.results[id := frame]))
  {
    RequestEvolves(s, id, s.requests[id].(outcome := Some(Result)), s.pending - {id}, s.results[id := frame]);
  }

  lemma SettledKeeps(s: Session, id: nat, frame: Received, answer: Outcome)
    requires Inv(s) && ReplyIsMatched(s.requests, id, frame) && (answer == Result ==> frame.kind == Rsp)
    ensures Inv(Settled(s, id, frame, answer)) && Settled(s, id, frame, answer).phase == s.phase
  {
    if answer != Result {
      RemoveAndSettleKeeps(s, id, answer);
      SettleKeeps(s, id, answer);
    } else if id in s.pending {
      ResultKeeps(s, id, frame);
    }
  }

  lemma AnswerKeeps(s: Session)
    requires Inv(s) && Enabled(s, Answer)
    ensures Inv(Step(s, Answer))
  {
    SettledKeeps(s, s.phase.id, s.phase.frame, s.phase.answer);
    PhaseMayChange(Settled(s, s.phase.id, s.phase.frame, s.phase.answer), Idle);
  }

  lemma SettleKeeps(s: Session, id: nat, outcome: Outcome)
    requires Inv(s) && id in s.requests && outcome != Result
    ensures Inv(Settle(s.(pending := s.pending - {id}), id, outcome))
  {
    if s.requests[id].outcome.None? {
      RequestEvolves(s, id, s.requests[id].(outcome := Some(outcome)), s.pending - {id}, s.results);
    } else {
      assert s.pending - {id} == s.pending;
    }
  }

  lemma AfterFrameIsMatched(s: Session, frame: Received, pending: Option<nat>)
    requires pending.Some? ==> ReplyIsMatched(s.requests, pending.value, frame)
    ensures PhaseIsMatched(AfterFrame(s, frame, pending), s.requests)
  {
  }

  // A frame is stored by the step that goes on to count it.
  lemma StoredIsCounted(s: Session, frame: Received, pending: Option<nat>)
    requires pending.Some? ==> pending.value in s.requests
    ensures AfterFrame(s, frame, pending).Stored?
       <==> !BootChanged(s, frame, pending) && CarriesMotorState(s, frame, pending) && Projects(s, frame)
  {
  }

  lemma ProjectMovesOn(s: Session, frame: Received)
    requires OutputIsOrdered(s.output, s.slot, s.epoch, s.frameCounter)
    ensures var s' := Project(s, frame);
      && OutputIsOrdered(s.output, s'.slot, s'.epoch, s'.frameCounter)
      && s'.coalesced + One(s'.slot.Some?) == s.coalesced + One(s.slot.Some?) + One(Projects(s, frame))
      && s'.(frameCounter := s.frameCounter, coalesced := s.coalesced, slot := s.slot) == s
  {
  }

  lemma CounterMayRestart(output: seq<MotorFrame>, slot: Option<MotorFrame>, epoch: nat, counter: nat)
    requires OutputIsOrdered(output, slot, epoch, counter)
    ensures OutputIsOrdered(output, slot, epoch + 1, 0)
  {
  }

  // The dispatcher may turn to any matched phase; leaving or entering Stored is what counts a frame.
  lemma PhaseMayChange(s: Session, phase: Phase)
    requires Inv(s) && PhaseIsMatched(phase, s.requests) && !phase.Stored? && !s.phase.Stored?
    ensures Inv(s.(phase := phase))
  {
  }

  lemma ProjectKeeps(s: Session, frame: Received, phase: Phase)
    requires Inv(s) && !s.phase.Stored? && PhaseIsMatched(phase, s.requests)
    requires phase.Stored? <==> Projects(s, frame)
    ensures Inv(Project(s, frame).(phase := phase))
  {
    ProjectMovesOn(s, frame);
  }

  lemma ForgetIdentityKeeps(s: Session)
    requires Inv(s)
    ensures Inv(s.(identity := None, frameCounter := 0, epoch := s.epoch + 1))
  {
    CounterMayRestart(s.output, s.slot, s.epoch, s.frameCounter);
  }

  lemma HandleKeeps(s: Session)
    requires Inv(s) && Enabled(s, Handle)
    ensures Inv(Step(s, Handle))
  {
    var frame, pending := s.phase.frame, s.phase.pending;
    var phase := AfterFrame(s, frame, pending);
    AfterFrameIsMatched(s, frame, pending);
    StoredIsCounted(s, frame, pending);
    if BootChanged(s, frame, pending) {
      ForgetIdentityKeeps(s);
      PhaseMayChange(s.(identity := None, frameCounter := 0, epoch := s.epoch + 1), phase);
    } else if CarriesMotorState(s, frame, pending) {
      ProjectKeeps(s, frame, phase);
    } else {
      PhaseMayChange(s, phase);
    }
  }

  lemma CancelsDoneKeeps(s: Session)
    requires Inv(s) && Enabled(s, CancelsDone)
    ensures Inv(Step(s, CancelsDone))
  {
    CounterMayRestart(s.output, s.slot, s.epoch, s.frameCounter);
  }

  lemma ReadLatestKeeps(s: Session)
    requires Inv(s) && Enabled(s, ReadLatest)
    ensures Inv(Step(s, ReadLatest))
  {
  }

  lemma OtherStepsKeep(s: Session, e: Event)
    requires Inv(s) && Enabled(s, e)
    requires e.Receive? || e == CountProjected || e == CountPublished || e == Dispose || e == Finish
    ensures Inv(Step(s, e))
  {
  }

  lemma StepKeepsInv(s: Session, e: Event)
    requires Inv(s) && Enabled(s, e)
    ensures Inv(Step(s, e))
  {
    match e
    case Claim(id) => ClaimKeeps(s, id);
    case Register(id, operation) => RegisterKeeps(s, id, operation);
    case Queue(id) => QueueKeeps(s, id);
    case Start(id) => StartKeeps(s, id);
    case GiveUp(id) => GiveUpKeeps(s, id);
    case Receive(frame) => OtherStepsKeep(s, Receive(frame));
    case Handle => HandleKeeps(s);
    case CancelOne(id) => RemoveAndSettleKeeps(s, id, Restarted);
    case CancelsDone => CancelsDoneKeeps(s);
    case CountProjected => OtherStepsKeep(s, CountProjected);
    case Answer => AnswerKeeps(s);
    case ReadLatest => ReadLatestKeeps(s);
    case CountPublished => OtherStepsKeep(s, CountPublished);
    case Dispose => OtherStepsKeep(s, Dispose);
    case CloseOne(id) => RemoveAndSettleKeeps(s, id, Closed);
    case Finish => OtherStepsKeep(s, Finish);
  }

  // ---------------------------------------------------------------- runs

  ghost predicate IsRun(s: Session, events: seq<Event>)
    decreases |events|
  {
    events == [] || (Enabled(s, events[0]) && IsRun(Step(s, events[0]), events[1..]))
  }

  ghost function After(s: Session, events: seq<Event>): Session
    requires IsRun(s, events)
    decreases |events|
  {
    if events == [] then s else After(Step(s, events[0]), events[1..])
  }

  lemma {:induction false} RunsKeepInv(s: Session, events: seq<Event>)
    requires Inv(s) && IsRun(s, events)
    ensures Inv(After(s, events))
    decreases |events|
  {
    if events != [] {
      StepKeepsInv(s, events[0]);
      RunsKeepInv(Step(s, events[0]), events[1..]);
    }
  }

  // Over a whole session: request IDs are claimed in strictly increasing order, at most 64
  // requests are pending, and every result is that of a response frame naming its request,
  // written before.
  lemma RequestsAreCorrelated(start: Session, events: seq<Event>)
    requires Inv(start) && IsRun(start, events)
    ensures var s := After(start, events);
      && (forall i, j :: 0 <= i < j < |s.claims| ==> s.claims[i] < s.claims[j])
      && |s.pending| <= MAXIMUM_PENDING_REQUESTS
      && (forall id :: id in s.requests && s.requests[id].outcome == Some(Result) ==>
            id in s.results && s.results[id].kind == Rsp && s.results[id].sequence == id && s.requests[id].started)
  {
    RunsKeepInv(start, events);
  }

  // Until disposal every projected frame has been published, replaced by a newer one, or waits in
  // the slot, up to the counter updates under way; and frames are published in order.
  lemma MotorFramesAreAccountedFor(start: Session, events: seq<Event>)
    requires Inv(start) && IsRun(start, events)
    ensures var s := After(start, events);
      && (!s.disposed && s.reading == 0 && !s.phase.Stored? ==>
            s.projected == s.published + s.coalesced + One(s.slot.Some?))
      && (forall i, j :: 0 <= i < j < |s.output| ==> Before(s.output[i], s.output[j]))
  {
    RunsKeepInv(start, events);
  }

  // What a step may do to a known request: settle it once, with a result only at the end of a
  // reply and while it is pending; it never becomes pending again.
  ghost predicate Onward(s: Session, s': Session, id: nat) {
    id in s.requests ==>
      && id in s'.requests
      && (s.requests[id].outcome.Some? ==> s'.requests[id].outcome == s.requests[id].outcome)
      && (id in s'.pending ==> id in s.pending)
      && (s'.requests[id].outcome == Some(Result) && s.requests[id].outcome.None? ==> s.phase.Answering? && id in s.pending)
  }

  lemma CallersGoOnward(s: Session, e: Event, id: nat)
    requires Inv(s) && Enabled(s, e) && (e.Queue? || e.Start? || e.GiveUp?)
    ensures Onward(s, Step(s, e), id)
  {
  }

  lemma RegisterGoesOnward(s: Session, newId: nat, operation: Operation, id: nat)
    requires Inv(s)
    ensures Onward(s, Step(s, Register(newId, operation)), id)
  {
    if id in s.requests {
      assert id in s.claims && id <= s.lastClaimed;
    }
  }

  lemma SettlingGoesOnward(s: Session, settled: nat, outcome: Outcome, id: nat)
    requires Inv(s) && settled in s.requests && outcome != Result
    ensures Onward(s, RemoveAndSettle(s, settled, outcome), id)
    ensures Onward(s, Settle(s.(pending := s.pending - {settled}), settled, outcome), id)
  {
  }

  lemma AnswerGoesOnward(s: Session, id: nat)
    requires Inv(s) && Enabled(s, Answer)
    ensures Onward(s, Step(s, Answer), id)
  {
    if s.phase.answer != Result {
      SettlingGoesOnward(s, s.phase.id, s.phase.answer, id);
    }
  }

  lemma OthersLeaveRequests(s: Session, e: Event)
    requires Enabled(s, e)
    requires e.Claim? || e.Receive? || e == CancelsDone || e == CountProjected || e == ReadLatest
             || e == CountPublished || e == Dispose || e == Finish
    ensures Step(s, e).requests == s.requests && Step(s, e).pending == s.pending
  {
  }

  lemma HandleLeavesRequests(s: Session)
    requires Enabled(s, Handle)
    ensures Step(s, Handle).requests == s.requests && Step(s, Handle).pending == s.pending
  {
  }

  // A settled response never changes, and a request that is no longer pending stays so.
  lemma StepGoesOnward(s: Session, e: Event, id: nat)
    requires Inv(s) && Enabled(s, e)
    ensures Onward(s, Step(s, e), id)
  {
    match e
    case Register(newId, operation) => RegisterGoesOnward(s, newId, operation, id);
    case Queue(x) => CallersGoOnward(s, Queue(x), id);
    case Start(x) => CallersGoOnward(s, Start(x), id);
    case GiveUp(x) => CallersGoOnward(s, GiveUp(x), id);
    case CancelOne(x) => SettlingGoesOnward(s, x, Restarted, id);
    case CloseOne(x) => SettlingGoesOnward(s, x, Closed, id);
    case Answer => AnswerGoesOnward(s, id);
    case Handle => HandleLeavesRequests(s);
    case Claim(x) => OthersLeaveRequests(s, Claim(x));
    case Receive(frame) => OthersLeaveRequests(s, Receive(frame));
    case CancelsDone => OthersLeaveRequests(s, CancelsDone);
    case CountProjected => OthersLeaveRequests(s, CountProjected);
    case ReadLatest => OthersLeaveRequests(s, ReadLatest);
    case CountPublished => OthersLeaveRequests(s, CountPublished);
    case Dispose => OthersLeaveRequests(s, Dispose);
    case Finish => OthersLeaveRequests(s, Finish);
  }

  lemma ResetGoesOn(s: Session, e: Event)
    requires Enabled(s, e) && s.phase.Resetting?
    ensures if e == CancelsDone then s.phase.before !! s.pending else Step(s, e).phase == s.phase
  {
  }

  // These requests get no result any more; those still pending are the ones a reset is failing.
  ghost predicate Failing(s: Session, ids: set<nat>) {
    forall id :: id in ids ==>
      && id in s.requests && s.requests[id].outcome != Some(Result)
      && (id in s.pending ==> s.phase.Resetting? && id in s.phase.before)
  }

  lemma StepKeepsFailing(s: Session, e: Event, ids: set<nat>)
    requires Inv(s) && Enabled(s, e) && Failing(s, ids)
    ensures Failing(Step(s, e), ids)
  {
    var s' := Step(s, e);
    if s.phase.Resetting? {
      ResetGoesOn(s, e);
    }
    forall id | id in ids
      ensures id in s'.requests && s'.requests[id].outcome != Some(Result)
      ensures id in s'.pending ==> s'.phase.Resetting? && id in s'.phase.before
    {
      StepGoesOnward(s, e, id);
    }
  }

  lemma {:induction false} RunKeepsFailing(s: Session, events: seq<Event>, ids: set<nat>)
    requires Inv(s) && IsRun(s, events) && Failing(s, ids)
    ensures Failing(After(s, events), ids)
    decreases |events|
  {
    if events != [] {
      StepKeepsInv(s, events[0]);
      StepKeepsFailing(s, events[0], ids);
      RunKeepsFailing(Step(s, events[0]), events[1..], ids);
    }
  }

  // A frame that shows a new boot fails every request pending at that moment: whatever happens
  // afterwards none of them gets a result, and once the reset is over none is pending.
  lemma BootChangeFailsPending(s: Session, events: seq<Event>, id: nat)
    requires Inv(s) && Enabled(s, Handle) && BootChanged(s, s.phase.frame, s.phase.pending)
    requires IsRun(Step(s, Handle), events) && id in s.pending
    ensures var s' := After(Step(s, Handle), events);
      && id in s'.requests && s'.requests[id].outcome != Some(Result)
      && (!s'.phase.Resetting? ==> id !in s'.pending && (s'.requests[id].outcome.Some? || s'.requests[id].givenUp))
  {
    StepKeepsInv(s, Handle);
    RunKeepsFailing(Step(s, Handle), events, s.pending);
    RunsKeepInv(Step(s, Handle), events);
  }

  // The only step that establishes an identity: the end of an accepted HELLO.
  predicate Establishes(s: Session, e: Event) {
    e == CancelsDone && s.phase.Renewing?
  }

  lemma HandlingProjectsNothing(s: Session)
    requires Enabled(s, Handle) && s.identity.None?
    ensures var s' := Step(s, Handle);
      s'.identity.None? && !s'.phase.Stored? && s'.projected == s.projected && s'.frameCounter == s.frameCounter
  {
  }

  lemma AnsweringProjectsNothing(s: Session, id: nat, frame: Received, answer: Outcome)
    requires id in s.requests
    ensures var s' := Settled(s, id, frame, answer);
      s'.identity == s.identity && s'.phase == s.phase && s'.projected == s.projected && s'.frameCounter == s.frameCounter
  {
  }

  lemma NoIdentityNoProjection(s: Session, e: Event)
    requires Enabled(s, e) && s.identity.None? && !s.phase.Stored? && !Establishes(s, e)
    ensures var s' := Step(s, e);
      s'.identity.None? && !s'.phase.Stored? && s'.projected == s.projected && s'.frameCounter == s.frameCounter
  {
    match e
    case Handle => HandlingProjectsNothing(s);
    case Answer => AnsweringProjectsNothing(s, s.phase.id, s.phase.frame, s.phase.answer);
    case Claim(_) =>
    case Register(_, _) =>
    case Queue(_) =>
    case Start(_) =>
    case GiveUp(_) =>
    case Receive(_) =>
    case CancelOne(_) =>
    case CancelsDone =>
    case CountProjected =>
    case ReadLatest =>
    case CountPublished =>
    case Dispose =>
    case CloseOne(_) =>
    case Finish =>
  }

  ghost predicate NoHello(s: Session, events: seq<Event>)
    requires IsRun(s, events)
    decreases |events|
  {
    events == [] || (!Establishes(s, events[0]) && NoHello(Step(s, events[0]), events[1..]))
  }

  // From a boot change until the next accepted HELLO no motor frame is projected.
  lemma {:induction false} NothingProjectedUntilHello(s: Session, events: seq<Event>)
    requires IsRun(s, events) && s.identity.None? && !s.phase.Stored? && NoHello(s, events)
    ensures After(s, events).projected == s.projected && After(s, events).identity.None?
    decreases |events|
  {
    if events != [] {
      NoIdentityNoProjection(s, events[0]);
      NothingProjectedUntilHello(Step(s, events[0]), events[1..]);
    }
  }

  lemma BootChangeForgetsIdentity(s: Session)
    requires Enabled(s, Handle) && BootChanged(s, s.phase.frame, s.phase.pending)
    ensures var s' := Step(s, Handle);
      s'.identity.None? && !s'.phase.Stored? && s'.frameCounter == 0 && s'.projected == s.projected
  {
  }
}
