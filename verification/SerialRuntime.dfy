/**
The running serial scheduler as a state machine over its atomic steps: any number of
producers inside QueueWrite, the writer loop, releases of response fences, and shutdown.
Each step is one locked region, one flag access or one completion; steps of different
parties interleave in any order.
*/
module SerialRuntime {
  import opened Wrappers
  import opened WriteQueue

  datatype Outcome = Written | Expired | Superseded | Cancelled | Failed

  // Where the writer goes once it has completed a write.
  datatype After = ToFence | ToTop | ToFault(leaves: bool) | ToExit

  // The program counter of the writer loop.
  datatype Writer =
    | AtTop
    | ReadingFence
    | Taking
    | Draining
    | Choosing
    | Rechecking(anyWork: bool)
    | Parked(anyWork: bool)
    | Holding(work: Work)
    | Transmitting(work: Work)
    | Completing(work: Work, outcome: Outcome, after: After)
    | Publishing(work: Work, outcome: Outcome, after: After)
    | Fencing(work: Work)
    | Faulting(leaves: bool)
    | CancellingLifetime(leaves: bool)
    | Exiting
    | Clearing(batch: seq<Work>)
    | Stopped

  datatype State = State(
    queue: Queue,
    token: bool,                  // the one-place wake channel holds its token
    writer: Writer,
    activeFence: Option<nat>,
    released: set<nat>,
    cancelled: bool,              // the lifetime token is cancelled
    handoffs: map<nat, nat>,      // superseded ticket, not yet completed, to the producer that displaced it
    signalling: set<nat>,         // producers whose next step is SignalWriter
    completions: map<nat, Outcome>,
    transmitted: set<nat>)        // history: tickets handed to the transport

  const INITIAL := State(EMPTY, false, AtTop, None, {}, false, map[], {}, map[], {})

  datatype TransportResult = WriteOk | ObserverThrows | WriteThrows
  datatype Wake = ByToken | ByFence(alsoConsumesToken: bool) | ByCancellation

  datatype Event =
    | Produce(request: Request, now: int)
    | CompleteSuperseded(ticket: nat)
    | Signal(ticket: nat)
    | Release(fence: nat)
    | SetStopping
    | CancelLifetime
    | ClearOnDispose
    | WriterStep(now: int, io: TransportResult, wake: Wake)

  function TrySet(cells: map<nat, Outcome>, ticket: nat, outcome: Outcome): map<nat, Outcome> {
    if ticket in cells then cells else cells[ticket := outcome]
  }

  predicate FenceReleased(s: State) {
    s.activeFence.None? || s.activeFence.value in s.released
  }

  predicate Enabled(s: State, e: Event) {
    match e
    case CompleteSuperseded(t) => t in s.handoffs
    case Signal(t) => t in s.signalling
    case CancelLifetime => s.queue.stopping
    case ClearOnDispose => s.writer.Stopped?
    case WriterStep(_, _, wake) =>
      && !s.writer.Stopped?
      && (s.writer.Parked? ==>
            match wake
            case ByToken => s.token
            case ByFence(_) => !s.writer.anyWork && FenceReleased(s)
            case ByCancellation => s.cancelled)
    case _ => true
  }

  function Step(o: Options, s: State, e: Event): State
    requires Enabled(s, e)
  {
    match e
    case Produce(r, now) =>
      var (queue, x) := Admit(o, s.queue, r, now);
      if !x.Accepted? then s.(queue := queue)
      else if x.superseded.Some? then
        s.(queue := queue, handoffs := s.handoffs[x.superseded.value.ticket := x.work.ticket])
      else
        s.(queue := queue, signalling := s.signalling + {x.work.ticket})
    case CompleteSuperseded(t) =>
      s.(completions := TrySet(s.completions, t, Superseded),
         signalling := s.signalling + {s.handoffs[t]},
         handoffs := s.handoffs - {t})
    case Signal(t) => s.(token := true, signalling := s.signalling - {t})
    case Release(f) => s.(released := s.released + {f})
    case SetStopping => s.(queue := s.queue.(stopping := true))
    case CancelLifetime => s.(cancelled := true)
    case ClearOnDispose => Clear(s)
    case WriterStep(now, io, wake) => WriterNext(s, now, io, wake)
  }

  function Clear(s: State): State
  {
    var (queue, batch) := CancelAll(s.queue);
    s.(queue := queue, writer := Clearing(batch))
  }

  function WriterNext(s: State, now: int, io: TransportResult, wake: Wake): State
    requires !s.writer.Stopped?
  {
    match s.writer
    case AtTop => s.(writer := if s.cancelled then Exiting else ReadingFence)
    case ReadingFence => s.(activeFence := if FenceReleased(s) then None else s.activeFence, writer := Taking)
    case Taking =>
      var (queue, w) := Take(s.queue, s.activeFence.Some?);
      s.(queue := queue, writer := if w.None? then Draining else Holding(w.value))
    case Draining => if s.token then s.(token := false) else s.(writer := Choosing)
    case Choosing => s.(writer := Rechecking(FenceReleased(s)))
    case Rechecking(anyWork) =>
      s.(writer := if (if anyWork then s.queue.depth > 0 else s.queue.lanes.safety != []) then AtTop else Parked(anyWork))
    case Parked(_) =>
      (match wake
       case ByToken => s.(token := false, writer := AtTop)
       case ByFence(also) => s.(token := s.token && !also, writer := AtTop)
       case ByCancellation => s.(writer := Exiting))
    case Holding(w) =>
      if now - w.enqueuedAt > w.request.maximumQueueDelay then s.(writer := Completing(w, Expired, ToTop))
      else s.(writer := Transmitting(w), transmitted := s.transmitted + {w.ticket})
    case Transmitting(w) =>
      s.(writer := match io
                   case WriteOk => Completing(w, Written, ToFence)
                   case ObserverThrows => Completing(w, Failed, ToFault(true))
                   case WriteThrows => if s.cancelled then Completing(w, Cancelled, ToExit)
                                       else Completing(w, Failed, ToFault(false)))
    case Completing(w, outcome, after) =>
      s.(queue := Forget(s.queue, w.request.workId), writer := Publishing(w, outcome, after))
    case Publishing(w, outcome, after) =>
      s.(completions := TrySet(s.completions, w.ticket, outcome),
         writer := match after
                   case ToFence => Fencing(w)
                   case ToTop => AtTop
                   case ToFault(leaves) => Faulting(leaves)
                   case ToExit => Exiting)
    case Fencing(w) =>
      s.(activeFence := if w.request.fence.Some? && w.request.fence.value !in s.released then w.request.fence
                        else s.activeFence,
         writer := AtTop)
    case Faulting(leaves) => s.(queue := s.queue.(stopping := true), writer := CancellingLifetime(leaves))
    case CancellingLifetime(leaves) => s.(cancelled := true, writer := if leaves then Exiting else AtTop)
    case Exiting => Clear(s)
    case Clearing(batch) =>
      if batch == [] then s.(writer := Stopped)
      else s.(completions := TrySet(s.completions, batch[0].ticket, Cancelled), writer := Clearing(batch[1..]))
  }

  // ---------------------------------------------------------------- counting tickets and work IDs

  datatype Key = ByTicket(ticket: nat) | ByWorkId(id: string)

  predicate Matches(w: Work, k: Key) {
    match k
    case ByTicket(t) => w.ticket == t
    case ByWorkId(id) => w.request.workId == id
  }

  function One(w: Work, k: Key): nat {
    if Matches(w, k) then 1 else 0
  }

  // How often the key occurs in a sequence of work.
  function Count(q: seq<Work>, k: Key): nat {
    if q == [] then 0 else One(q[0], k) + Count(q[1..], k)
  }

  lemma {:induction false} CountConcat(p: seq<Work>, q: seq<Work>, k: Key)
    ensures Count(p + q, k) == Count(p, k) + Count(q, k)
    decreases |p|
  {
    if p == [] {
      assert p + q == q;
    } else {
      assert (p + q)[1..] == p[1..] + q;
      CountConcat(p[1..], q, k);
    }
  }

  lemma CountSingle(w: Work, k: Key)
    ensures Count([w], k) == One(w, k)
  {
    assert [w][1..] == [];
  }

  function LaneCount(lanes: Lanes, k: Key): nat {
    Count(lanes.safety, k) + Count(lanes.interactive, k) + Count(lanes.telemetry, k) + Count(lanes.background, k)
  }

  lemma LaneCountHead(lanes: Lanes, p: Priority, k: Key)
    requires lanes.Of(p) != []
    ensures LaneCount(lanes, k) == LaneCount(lanes.With(p, lanes.Of(p)[1..]), k) + One(lanes.Of(p)[0], k)
  {
  }

  lemma LaneCountAppend(lanes: Lanes, p: Priority, w: Work, k: Key)
    ensures LaneCount(lanes.With(p, lanes.Of(p) + [w]), k) == LaneCount(lanes, k) + One(w, k)
  {
    CountConcat(lanes.Of(p), [w], k);
    CountSingle(w, k);
  }

  lemma LaneCountAll(lanes: Lanes, k: Key)
    ensures Count(lanes.All(), k) == LaneCount(lanes, k)
  {
    CountConcat(lanes.safety + lanes.interactive + lanes.telemetry, lanes.background, k);
    CountConcat(lanes.safety + lanes.interactive, lanes.telemetry, k);
    CountConcat(lanes.safety, lanes.interactive, k);
  }

  // The lanes after an admission, counted.
  lemma AdmitMovesCount(o: Options, s: Queue, r: Request, now: int, k: Key)
    requires Valid(o, s) && Admit(o, s, r, now).1.Accepted?
    ensures var (s', x) := Admit(o, s, r, now);
            LaneCount(s'.lanes, k) + (if x.superseded.Some? then One(x.superseded.value, k) else 0)
            == LaneCount(s.lanes, k) + One(x.work, k)
  {
    AdmitLanes(o, s, r, now);
    var x := Admit(o, s, r, now).1;
    if x.superseded.Some? {
      var p := x.superseded.value.request.priority;
      LaneCountHead(s.lanes, p, k);
      LaneCountAppend(s.lanes.With(p, s.lanes.Of(p)[1..]), Safety, x.work, k);
    } else {
      LaneCountAppend(s.lanes, r.priority, x.work, k);
    }
  }

  lemma TakeMovesCount(o: Options, s: Queue, safetyOnly: bool, k: Key)
    requires Valid(o, s)
    ensures var (s', w) := Take(s, safetyOnly);
            LaneCount(s'.lanes, k) + (if w.Some? then One(w.value, k) else 0) == LaneCount(s.lanes, k)
  {
    TakeRemovesAHead(o, s, safetyOnly);
    var w := Take(s, safetyOnly).1;
    if w.Some? {
      LaneCountHead(s.lanes, w.value.request.priority, k);
    }
  }

  // ---------------------------------------------------------------- the invariant

  // Work the writer has taken from the queue and not completed.
  function InFlight(w: Writer): seq<Work> {
    match w
    case Holding(x) => [x]
    case Transmitting(x) => [x]
    case Completing(x, _, _) => [x]
    case Publishing(x, _, _) => [x]
    case Clearing(batch) => batch
    case _ => []
  }

  // The part of it whose work ID is still claimed.
  function Claiming(w: Writer): seq<Work> {
    match w
    case Holding(x) => [x]
    case Transmitting(x) => [x]
    case Completing(x, _, _) => [x]
    case _ => []
  }

  // In how many places an accepted ticket is: queued, with the writer, displaced, or completed.
  ghost function Places(s: State, t: nat): nat {
    LaneCount(s.queue.lanes, ByTicket(t)) + Count(InFlight(s.writer), ByTicket(t))
    + (if t in s.handoffs then 1 else 0) + (if t in s.completions then 1 else 0)
  }

  // Every accepted ticket is in exactly one place, and the places hold nothing else.
  ghost predicate LedgerBalances(s: State) {
    && (forall t: nat :: Places(s, t) == if t < s.queue.accepted then 1 else 0)
    && s.queue.accepted == s.queue.lanes.Total() + |InFlight(s.writer)| + |s.handoffs| + |s.completions|
  }

  // The claimed work IDs are those of the queued and the unfinished work, each claimed once.
  ghost predicate WorkIdsMatch(s: State) {
    forall id: string ::
      LaneCount(s.queue.lanes, ByWorkId(id)) + Count(Claiming(s.writer), ByWorkId(id))
      == if id in s.queue.ids then 1 else 0
  }

  // Shutdown is announced before it is performed, and a cleared queue stays clear.
  ghost predicate ShutdownOrdered(s: State)
  {
    && (s.cancelled ==> s.queue.stopping)
    && (s.writer.CancellingLifetime? ==> s.queue.stopping)
    && (s.writer.Exiting? || s.writer.Clearing? || s.writer.Stopped? ==> s.cancelled)
    && (s.writer.Completing? || s.writer.Publishing? ==> s.writer.after == ToExit ==> s.cancelled)
    && (s.writer.Clearing? || s.writer.Stopped? ==> s.queue.lanes.Total() == 0)
  }

  // While the writer remembers a fence, the work in its hands is Safety work.
  ghost predicate OnlySafetyPastFence(s: State) {
    && (s.activeFence.Some? && Claiming(s.writer) != [] ==> Claiming(s.writer)[0].request.priority == Safety)
    && (s.activeFence.Some? && (s.writer.Publishing? || s.writer.Fencing?) ==> s.writer.work.request.priority == Safety)
  }

  // What has been handed to the transport is being written or ended as a write does.
  ghost predicate TransmissionsAccounted(s: State) {
    && (s.writer.Completing? || s.writer.Publishing? ==>
          (s.writer.outcome == Expired <==> s.writer.after == ToTop) && s.writer.outcome != Superseded)
    && (forall t :: t in s.transmitted ==>
          || (t in s.completions && s.completions[t] in {Written, Failed, Cancelled})
          || (s.writer.Transmitting? && s.writer.work.ticket == t)
          || ((s.writer.Completing? || s.writer.Publishing?) && s.writer.outcome != Expired && s.writer.work.ticket == t))
    && (forall t :: t in s.completions && s.completions[t] in {Written, Failed} ==> t in s.transmitted)
    && (s.writer.Transmitting? || s.writer.Fencing? ==> s.writer.work.ticket in s.transmitted)
    && ((s.writer.Completing? || s.writer.Publishing?) && s.writer.after == ToFence ==> s.writer.outcome == Written)
    && ((s.writer.Completing? || s.writer.Publishing?) && s.writer.outcome != Expired ==>
          s.writer.work.ticket in s.transmitted)
  }

  ghost predicate ProducerBeforeSignal(s: State) {
    s.handoffs != map[] || s.signalling != {}
  }

  // A parked writer that has work to do has a token waiting, or a producer about to leave one.
  ghost predicate WakeIsComing(s: State)
  {
    && (s.writer.Parked? && s.writer.anyWork && s.queue.lanes.Total() > 0 ==> s.token || ProducerBeforeSignal(s))
    && (s.writer.Parked? && !s.writer.anyWork && s.queue.lanes.safety != [] ==> s.token || ProducerBeforeSignal(s))
    && (s.writer.Parked? && !s.writer.anyWork ==> s.activeFence.Some?)
    && (s.writer.Parked? && s.writer.anyWork ==> FenceReleased(s))
    && (s.writer.Rechecking? && s.writer.anyWork ==> FenceReleased(s))
    && (s.writer.Rechecking? && !s.writer.anyWork ==> s.activeFence.Some?)
  }

  ghost predicate Inv(o: Options, s: State) {
    && Valid(o, s.queue)
    && LedgerBalances(s)
    && WorkIdsMatch(s)
    && ShutdownOrdered(s)
    && OnlySafetyPastFence(s)
    && TransmissionsAccounted(s)
    && WakeIsComing(s)
  }

  // ---------------------------------------------------------------- every step keeps the invariant

  // The writer is looking for work, writing one item, or shutting down.
  predicate Looping(w: Writer) {
    w.AtTop? || w.ReadingFence? || w.Draining? || w.Choosing? || w.Rechecking? || w.Parked?
  }

  predicate Writing(w: Writer) {
    w.Holding? || w.Transmitting? || w.Completing? || w.Publishing? || w.Fencing?
  }

  // What the steps of the writer outside the queue regions leave alone.
  ghost predicate LeavesQueue(s: State, s': State) {
    s'.queue == s.queue && s'.handoffs == s.handoffs
  }

  lemma LoopingLeavesQueue(o: Options, s: State, e: Event)
    requires e.WriterStep? && Enabled(s, e) && Looping(s.writer)
    ensures LeavesQueue(s, Step(o, s, e)) && Step(o, s, e).completions == s.completions
    ensures InFlight(Step(o, s, e).writer) == [] == Claiming(Step(o, s, e).writer)
  {
  }

  lemma WritingLeavesQueue(o: Options, s: State, e: Event)
    requires e.WriterStep? && Writing(s.writer) && !s.writer.Completing? && !s.writer.Publishing?
    ensures LeavesQueue(s, Step(o, s, e)) && Step(o, s, e).completions == s.completions
    ensures InFlight(Step(o, s, e).writer) == InFlight(s.writer)
    ensures Claiming(Step(o, s, e).writer) == Claiming(s.writer)
  {
  }

  lemma CompletingOnlyForgets(o: Options, s: State, e: Event)
    requires e.WriterStep? && s.writer.Completing?
    ensures var w := s.writer;
            Step(o, s, e) == s.(queue := Forget(s.queue, w.work.request.workId),
                                writer := Publishing(w.work, w.outcome, w.after))
  {
  }

  lemma PublishingOnlySetsACell(o: Options, s: State, e: Event)
    requires e.WriterStep? && s.writer.Publishing?
    ensures Step(o, s, e) == s.(completions := TrySet(s.completions, s.writer.work.ticket, s.writer.outcome),
                                writer := Step(o, s, e).writer)
    ensures InFlight(Step(o, s, e).writer) == [] == Claiming(Step(o, s, e).writer)
  {
  }

  lemma StepKeepsQueueValid(o: Options, s: State, e: Event)
    requires Valid(o, s.queue) && Enabled(s, e)
    ensures Valid(o, Step(o, s, e).queue)
  {
    match e
    case Produce(r, now) => AdmitKeepsReserve(o, s.queue, r, now);
    case WriterStep(_, _, _) => WriterKeepsQueueValid(o, s, e);
    case _ =>
  }

  lemma WriterKeepsQueueValid(o: Options, s: State, e: Event)
    requires Valid(o, s.queue) && Enabled(s, e) && e.WriterStep?
    ensures Valid(o, Step(o, s, e).queue)
  {
    if s.writer.Taking? {
      TakeRemovesAHead(o, s.queue, s.activeFence.Some?);
    } else if Looping(s.writer) {
      LoopingLeavesQueue(o, s, e);
    } else if s.writer.Completing? {
      CompletingOnlyForgets(o, s, e);
    } else if s.writer.Publishing? {
      PublishingOnlySetsACell(o, s, e);
    } else if Writing(s.writer) {
      WritingLeavesQueue(o, s, e);
    }
  }

  // ---- the ledger

  // A ticket that is with the writer or displaced is not yet completed, and a queued one not displaced.
  lemma LiveIsNotCompleted(s: State)
    requires LedgerBalances(s)
    ensures forall t :: t in s.handoffs ==> t !in s.completions
    ensures InFlight(s.writer) != [] ==> InFlight(s.writer)[0].ticket !in s.completions
    ensures forall p: Priority :: s.queue.lanes.Of(p) != [] ==> s.queue.lanes.Of(p)[0].ticket !in s.handoffs
  {
    forall t | t in s.handoffs ensures t !in s.completions {
      assert Places(s, t) <= 1;
    }
    if InFlight(s.writer) != [] {
      assert Places(s, InFlight(s.writer)[0].ticket) <= 1;
    }
    forall p: Priority | s.queue.lanes.Of(p) != [] ensures s.queue.lanes.Of(p)[0].ticket !in s.handoffs {
      assert Places(s, s.queue.lanes.Of(p)[0].ticket) <= 1;
    }
  }

  lemma AdmittingKeepsPlaces(o: Options, s: State, r: Request, now: int, t: nat)
    requires Valid(o, s.queue) && LedgerBalances(s) && Admit(o, s.queue, r, now).1.Accepted?
    ensures Places(Step(o, s, Produce(r, now)), t) == Places(s, t) + if t == s.queue.accepted then 1 else 0
  {
    AdmitMovesCount(o, s.queue, r, now, ByTicket(t));
    AdmitLanes(o, s.queue, r, now);
    LiveIsNotCompleted(s);
    var x := Admit(o, s.queue, r, now).1;
    assert x.work.ticket == s.queue.accepted;
    if x.superseded.Some? {
      assert x.superseded.value == s.queue.lanes.Of(x.superseded.value.request.priority)[0];
    }
  }

  lemma AdmittingKeepsSum(o: Options, s: State, r: Request, now: int)
    requires Valid(o, s.queue) && LedgerBalances(s) && Admit(o, s.queue, r, now).1.Accepted?
    ensures var s' := Step(o, s, Produce(r, now));
            && s'.queue.accepted == s.queue.accepted + 1
            && s'.queue.accepted == s'.queue.lanes.Total() + |InFlight(s'.writer)| + |s'.handoffs| + |s'.completions|
  {
    AdmitLanes(o, s.queue, r, now);
    LiveIsNotCompleted(s);
    var x := Admit(o, s.queue, r, now).1;
    if x.superseded.Some? {
      assert x.superseded.value == s.queue.lanes.Of(x.superseded.value.request.priority)[0];
    }
  }

  lemma RefusingMovesNothing(o: Options, s: State, r: Request, now: int)
    requires Valid(o, s.queue) && LedgerBalances(s) && !Admit(o, s.queue, r, now).1.Accepted?
    ensures LedgerBalances(Step(o, s, Produce(r, now)))
  {
    var s' := Step(o, s, Produce(r, now));
    AdmitLanes(o, s.queue, r, now);
    assert forall t: nat :: Places(s', t) == Places(s, t);
  }

  lemma ProduceKeepsLedger(o: Options, s: State, r: Request, now: int)
    requires Valid(o, s.queue) && LedgerBalances(s)
    ensures LedgerBalances(Step(o, s, Produce(r, now)))
  {
    if Admit(o, s.queue, r, now).1.Accepted? {
      AdmittingKeepsSum(o, s, r, now);
      forall t: nat
        ensures Places(Step(o, s, Produce(r, now)), t) == if t < s.queue.accepted + 1 then 1 else 0
      {
        AdmittingKeepsPlaces(o, s, r, now, t);
        assert Places(s, t) == if t < s.queue.accepted then 1 else 0;
      }
    } else {
      RefusingMovesNothing(o, s, r, now);
    }
  }

  // A writer step leaves the number of accepted tickets and the displaced work alone.
  ghost predicate SamePlaces(s: State, s': State) {
    && s'.queue.accepted == s.queue.accepted
    && (forall t: nat :: Places(s', t) == Places(s, t))
    && s'.queue.lanes.Total() + |InFlight(s'.writer)| + |s'.handoffs| + |s'.completions|
       == s.queue.lanes.Total() + |InFlight(s.writer)| + |s.handoffs| + |s.completions|
  }

  lemma TakingKeepsPlaces(o: Options, s: State, s': State)
    requires Valid(o, s.queue) && s.writer.Taking?
    requires var (queue, w) := Take(s.queue, s.activeFence.Some?);
             s' == s.(queue := queue, writer := if w.None? then Draining else Holding(w.value))
    ensures SamePlaces(s, s')
  {
    TakeRemovesAHead(o, s.queue, s.activeFence.Some?);
    forall t: nat ensures Places(s', t) == Places(s, t) {
      TakeMovesCount(o, s.queue, s.activeFence.Some?, ByTicket(t));
      if s'.writer.Holding? {
        CountSingle(s'.writer.work, ByTicket(t));
      }
    }
  }

  lemma CompletionKeepsPlaces(s: State, s': State, w: Work, outcome: Outcome)
    requires InFlight(s.writer) != [] && InFlight(s.writer)[0] == w && w.ticket !in s.completions
    requires s' == s.(completions := s.completions[w.ticket := outcome], writer := s'.writer)
    requires InFlight(s'.writer) == InFlight(s.writer)[1..]
    ensures SamePlaces(s, s')
  {
  }

  lemma ClearKeepsPlaces(s: State)
    requires InFlight(s.writer) == []
    ensures SamePlaces(s, Clear(s))
  {
    forall t: nat ensures Places(Clear(s), t) == Places(s, t) {
      LaneCountAll(s.queue.lanes, ByTicket(t));
    }
  }

  lemma UntouchedKeepsPlaces(s: State, s': State)
    requires s'.queue.lanes == s.queue.lanes && s'.queue.accepted == s.queue.accepted
    requires s'.handoffs == s.handoffs && s'.completions == s.completions && InFlight(s'.writer) == InFlight(s.writer)
    ensures SamePlaces(s, s')
  {
  }

  lemma WriteKeepsPlaces(o: Options, s: State, e: Event)
    requires LedgerBalances(s) && e.WriterStep? && Writing(s.writer)
    ensures SamePlaces(s, Step(o, s, e))
  {
    if s.writer.Publishing? {
      LiveIsNotCompleted(s);
      PublishingOnlySetsACell(o, s, e);
      CompletionKeepsPlaces(s, Step(o, s, e), s.writer.work, s.writer.outcome);
    } else {
      if s.writer.Completing? {
        CompletingOnlyForgets(o, s, e);
      } else {
        WritingLeavesQueue(o, s, e);
      }
      UntouchedKeepsPlaces(s, Step(o, s, e));
    }
  }

  lemma ClearingKeepsPlaces(o: Options, s: State, e: Event)
    requires LedgerBalances(s) && e.WriterStep? && s.writer.Clearing?
    ensures SamePlaces(s, Step(o, s, e))
  {
    if s.writer.batch != [] {
      LiveIsNotCompleted(s);
      CompletionKeepsPlaces(s, Step(o, s, e), s.writer.batch[0], Cancelled);
    }
  }

  lemma WriterKeepsPlaces(o: Options, s: State, e: Event)
    requires Valid(o, s.queue) && LedgerBalances(s) && e.WriterStep? && Enabled(s, e)
    ensures SamePlaces(s, Step(o, s, e))
  {
    if s.writer.Taking? {
      TakingKeepsPlaces(o, s, Step(o, s, e));
    } else if s.writer.Clearing? {
      ClearingKeepsPlaces(o, s, e);
    } else if s.writer.Exiting? {
      ClearKeepsPlaces(s);
    } else if Writing(s.writer) {
      WriteKeepsPlaces(o, s, e);
    } else {
      if Looping(s.writer) {
        LoopingLeavesQueue(o, s, e);
      }
      UntouchedKeepsPlaces(s, Step(o, s, e));
    }
  }

  lemma CompleteSupersededKeepsPlaces(o: Options, s: State, e: Event)
    requires LedgerBalances(s) && e.CompleteSuperseded? && Enabled(s, e)
    ensures SamePlaces(s, Step(o, s, e))
  {
    LiveIsNotCompleted(s);
    var s' := Step(o, s, e);
    assert s.handoffs == s'.handoffs[e.ticket := s.handoffs[e.ticket]];
  }

  lemma StepKeepsLedger(o: Options, s: State, e: Event)
    requires Valid(o, s.queue) && LedgerBalances(s) && Enabled(s, e)
    ensures LedgerBalances(Step(o, s, e))
  {
    if e.Produce? {
      ProduceKeepsLedger(o, s, e.request, e.now);
    } else {
      if e.CompleteSuperseded? {
        CompleteSupersededKeepsPlaces(o, s, e);
      } else if e.ClearOnDispose? {
        ClearKeepsPlaces(s);
      } else if e.WriterStep? {
        WriterKeepsPlaces(o, s, e);
      }
      assert SamePlaces(s, Step(o, s, e));
    }
  }

  // ---- work IDs

  lemma ProduceKeepsWorkIds(o: Options, s: State, r: Request, now: int)
    requires Valid(o, s.queue) && WorkIdsMatch(s)
    ensures WorkIdsMatch(Step(o, s, Produce(r, now)))
  {
    var x := Admit(o, s.queue, r, now).1;
    var s' := Step(o, s, Produce(r, now));
    AdmitLanes(o, s.queue, r, now);
    if x.Accepted? {
      forall id: string
        ensures LaneCount(s'.queue.lanes, ByWorkId(id)) + Count(Claiming(s'.writer), ByWorkId(id))
             == if id in s'.queue.ids then 1 else 0
      {
        AdmitMovesCount(o, s.queue, r, now, ByWorkId(id));
        if x.superseded.Some? {
          LaneCountHead(s.queue.lanes, x.superseded.value.request.priority, ByWorkId(id));
        }
      }
    }
  }

  lemma TakingKeepsWorkIds(o: Options, s: State, e: Event)
    requires Valid(o, s.queue) && WorkIdsMatch(s) && e.WriterStep? && s.writer.Taking?
    ensures WorkIdsMatch(Step(o, s, e))
  {
    var s' := Step(o, s, e);
    TakeRemovesAHead(o, s.queue, s.activeFence.Some?);
    forall id: string
      ensures LaneCount(s'.queue.lanes, ByWorkId(id)) + Count(Claiming(s'.writer), ByWorkId(id))
           == if id in s'.queue.ids then 1 else 0
    {
      TakeMovesCount(o, s.queue, s.activeFence.Some?, ByWorkId(id));
      if s'.writer.Holding? {
        CountSingle(s'.writer.work, ByWorkId(id));
      }
    }
  }

  lemma CompletingKeepsWorkIds(o: Options, s: State, e: Event)
    requires WorkIdsMatch(s) && e.WriterStep? && s.writer.Completing?
    ensures WorkIdsMatch(Step(o, s, e))
  {
    var s' := Step(o, s, e);
    forall id: string
      ensures LaneCount(s'.queue.lanes, ByWorkId(id)) + Count(Claiming(s'.writer), ByWorkId(id))
           == if id in s'.queue.ids then 1 else 0
    {
      CountSingle(s.writer.work, ByWorkId(id));
    }
  }

  lemma UntouchedKeepsWorkIds(s: State, s': State)
    requires WorkIdsMatch(s) && s'.queue == s.queue && Claiming(s'.writer) == Claiming(s.writer)
    ensures WorkIdsMatch(s')
  {
  }

  lemma ClearKeepsWorkIds(s: State)
    ensures WorkIdsMatch(Clear(s))
  {
  }

  lemma WriterKeepsWorkIds(o: Options, s: State, e: Event)
    requires Valid(o, s.queue) && WorkIdsMatch(s) && e.WriterStep? && Enabled(s, e)
    ensures WorkIdsMatch(Step(o, s, e))
  {
    if s.writer.Taking? {
      TakingKeepsWorkIds(o, s, e);
    } else if s.writer.Completing? {
      CompletingKeepsWorkIds(o, s, e);
    } else if s.writer.Exiting? {
      ClearKeepsWorkIds(s);
    } else if s.writer.Faulting? {
      UntouchedKeepsWorkIds(s, Step(o, s, e).(queue := s.queue));
    } else {
      if s.writer.Publishing? {
        PublishingOnlySetsACell(o, s, e);
      } else if Looping(s.writer) {
        LoopingLeavesQueue(o, s, e);
      } else if Writing(s.writer) {
        WritingLeavesQueue(o, s, e);
      }
      UntouchedKeepsWorkIds(s, Step(o, s, e));
    }
  }

  lemma StepKeepsWorkIds(o: Options, s: State, e: Event)
    requires Valid(o, s.queue) && WorkIdsMatch(s) && Enabled(s, e)
    requires s.writer.Stopped? ==> s.queue.lanes == NO_LANES
    ensures WorkIdsMatch(Step(o, s, e))
  {
    match e
    case Produce(r, now) => ProduceKeepsWorkIds(o, s, r, now);
    case WriterStep(_, _, _) =>
      WriterKeepsWorkIds(o, s, e);
    case _ =>
  }

  // ---- shutdown, fence, wake and transmissions

  ghost predicate Orderly(s: State) {
    ShutdownOrdered(s) && OnlySafetyPastFence(s) && TransmissionsAccounted(s) && WakeIsComing(s)
  }

  lemma TakingKeepsOrder(o: Options, s: State, e: Event)
    requires Valid(o, s.queue) && Orderly(s) && e.WriterStep? && s.writer.Taking?
    ensures Orderly(Step(o, s, e))
  {
    TakeRemovesAHead(o, s.queue, s.activeFence.Some?);
  }

  lemma LoopKeepsOrder(o: Options, s: State, e: Event)
    requires Valid(o, s.queue) && Orderly(s) && e.WriterStep? && Enabled(s, e) && Looping(s.writer)
    ensures Orderly(Step(o, s, e))
  {
  }

  lemma WriteKeepsTransmissions(o: Options, s: State, e: Event)
    requires TransmissionsAccounted(s) && e.WriterStep? && Writing(s.writer)
    requires s.writer.Publishing? ==> s.writer.work.ticket !in s.completions
    ensures TransmissionsAccounted(Step(o, s, e))
  {
  }

  lemma WriteKeepsOrder(o: Options, s: State, e: Event)
    requires Orderly(s) && e.WriterStep? && Writing(s.writer)
    requires s.writer.Publishing? ==> s.writer.work.ticket !in s.completions
    ensures Orderly(Step(o, s, e))
  {
    WriteKeepsTransmissions(o, s, e);
  }

  lemma StoppingKeepsOrder(o: Options, s: State, e: Event)
    requires Orderly(s) && e.WriterStep? && Enabled(s, e)
    requires !Looping(s.writer) && !Writing(s.writer) && !s.writer.Taking?
    requires s.writer.Clearing? && s.writer.batch != [] ==> s.writer.batch[0].ticket !in s.completions
    ensures Orderly(Step(o, s, e))
  {
  }

  lemma ProduceKeepsOrder(o: Options, s: State, r: Request, now: int)
    requires Valid(o, s.queue) && Orderly(s)
    ensures Orderly(Step(o, s, Produce(r, now)))
  {
    AdmitLanes(o, s.queue, r, now);
  }

  lemma OthersKeepOrder(o: Options, s: State, e: Event)
    requires Orderly(s) && Enabled(s, e) && !e.Produce? && !e.WriterStep?
    requires e.CompleteSuperseded? ==> e.ticket !in s.completions
    ensures Orderly(Step(o, s, e))
  {
    if e.CompleteSuperseded? {
      assert s.handoffs[e.ticket] in Step(o, s, e).signalling;
    }
  }

  lemma StepKeepsOrder(o: Options, s: State, e: Event)
    requires Inv(o, s) && Enabled(s, e)
    ensures Orderly(Step(o, s, e))
  {
    LiveIsNotCompleted(s);
    match e
    case Produce(r, now) => ProduceKeepsOrder(o, s, r, now);
    case WriterStep(_, _, _) =>
      if s.writer.Taking? {
        TakingKeepsOrder(o, s, e);
      } else if Looping(s.writer) {
        LoopKeepsOrder(o, s, e);
      } else if Writing(s.writer) {
        WriteKeepsOrder(o, s, e);
      } else {
        StoppingKeepsOrder(o, s, e);
      }
    case _ => OthersKeepOrder(o, s, e);
  }

  lemma StepKeepsInv(o: Options, s: State, e: Event)
    requires Inv(o, s) && Enabled(s, e)
    ensures Inv(o, Step(o, s, e))
  {
    StepKeepsQueueValid(o, s, e);
    StepKeepsLedger(o, s, e);
    StepKeepsWorkIds(o, s, e);
    StepKeepsOrder(o, s, e);
  }

  // ---------------------------------------------------------------- runs

  // A run: consecutive states joined by enabled events, from the freshly started scheduler.
  ghost predicate IsRun(o: Options, states: seq<State>, events: seq<Event>) {
    && |states| == |events| + 1
    && states[0] == INITIAL
    && (forall i :: 0 <= i < |events| ==> Enabled(states[i], events[i]) && states[i + 1] == Step(o, states[i], events[i]))
  }

  lemma InitialInv(o: Options)
    requires o.Valid()
    ensures Inv(o, INITIAL)
  {
  }

  lemma {:induction false} RunsKeepInv(o: Options, states: seq<State>, events: seq<Event>, i: nat)
    requires o.Valid() && IsRun(o, states, events) && i < |states|
    ensures Inv(o, states[i])
  {
    if i == 0 {
      InitialInv(o);
    } else {
      RunsKeepInv(o, states, events, i - 1);
      StepKeepsInv(o, states[i - 1], events[i - 1]);
    }
  }

  // The safety reserve holds in every state of every run.
  lemma SafetyReserveHolds(o: Options, states: seq<State>, events: seq<Event>, i: nat)
    requires o.Valid() && IsRun(o, states, events) && i < |states|
    ensures var q := states[i].queue;
            && q.depth == q.lanes.Total() <= o.capacity
            && |q.lanes.interactive| + |q.lanes.telemetry| + |q.lanes.background| <= o.capacity - o.reserve
  {
    RunsKeepInv(o, states, events, i);
  }

  // ---- no lost wake-up

  // Queued work the writer may dispatch now.
  predicate HasEligibleWork(s: State) {
    if FenceReleased(s) then s.queue.lanes.Total() > 0 else s.queue.lanes.safety != []
  }

  // Some wake of the parked writer is enabled: its token is there, or the fence it waits for is released.
  ghost predicate CanWake(s: State) {
    exists wake: Wake :: !wake.ByCancellation? && Enabled(s, WriterStep(0, WriteOk, wake))
  }

  // In every interleaving, a writer parked with eligible work queued can wake at once, or some producer
  // stands between its insertion and SignalWriter, and its signal leaves the token.
  lemma NoLostWakeup(o: Options, states: seq<State>, events: seq<Event>, i: nat)
    requires o.Valid() && IsRun(o, states, events) && i < |states|
    requires states[i].writer.Parked? && HasEligibleWork(states[i])
    ensures CanWake(states[i]) || ProducerBeforeSignal(states[i])
  {
    RunsKeepInv(o, states, events, i);
    var s := states[i];
    if s.token {
      assert Enabled(s, WriterStep(0, WriteOk, ByToken));
    } else if !s.writer.anyWork && FenceReleased(s) {
      assert Enabled(s, WriterStep(0, WriteOk, ByFence(false)));
    }
  }

  // ---- exactly one outcome

  // The tickets that ended with the given outcome.
  function Ended(cells: map<nat, Outcome>, outcome: Outcome): set<nat> {
    set t | t in cells && cells[t] == outcome
  }

  lemma OutcomesPartition(cells: map<nat, Outcome>)
    ensures |cells| == |Ended(cells, Written)| + |Ended(cells, Expired)| + |Ended(cells, Superseded)|
                       + |Ended(cells, Failed)| + |Ended(cells, Cancelled)|
  {
    var w, e, s, f, c := Ended(cells, Written), Ended(cells, Expired), Ended(cells, Superseded),
                         Ended(cells, Failed), Ended(cells, Cancelled);
    assert cells.Keys == w + e + s + f + c;
    assert |w + e| == |w| + |e|;
    assert |w + e + s| == |w| + |e| + |s|;
    assert |w + e + s + f| == |w| + |e| + |s| + |f|;
    assert |w + e + s + f + c| == |w| + |e| + |s| + |f| + |c|;
  }

  // Conservation in every state of every run, faults and shutdown included: accepted work is written,
  // expired, superseded, failed, cancelled, queued, with the writer, or displaced and about to be completed.
  lemma AcceptedWorkIsConserved(o: Options, states: seq<State>, events: seq<Event>, i: nat)
    requires o.Valid() && IsRun(o, states, events) && i < |states|
    ensures var s := states[i];
            s.queue.accepted == |Ended(s.completions, Written)| + |Ended(s.completions, Expired)|
                                + |Ended(s.completions, Superseded)| + |Ended(s.completions, Failed)|
                                + |Ended(s.completions, Cancelled)|
                                + s.queue.lanes.Total() + |InFlight(s.writer)| + |s.handoffs|
    ensures forall t: nat :: t in states[i].completions ==> t < states[i].queue.accepted
  {
    RunsKeepInv(o, states, events, i);
    OutcomesPartition(states[i].completions);
    forall t: nat | t in states[i].completions ensures t < states[i].queue.accepted {
      assert Places(states[i], t) >= 1;
    }
  }

  lemma StepKeepsOutcomes(o: Options, s: State, e: Event)
    requires Enabled(s, e)
    ensures forall t :: t in s.completions ==> t in Step(o, s, e).completions && Step(o, s, e).completions[t] == s.completions[t]
  {
    match e
    case WriterStep(_, _, _) =>
      if s.writer.Publishing? {
        PublishingOnlySetsACell(o, s, e);
      } else if Looping(s.writer) {
        LoopingLeavesQueue(o, s, e);
      } else if Writing(s.writer) && !s.writer.Completing? {
        WritingLeavesQueue(o, s, e);
      }
    case _ =>
  }

  // An outcome, once given, is never changed.
  lemma {:induction false} OutcomesAreFinal(o: Options, states: seq<State>, events: seq<Event>, i: nat, j: nat, t: nat)
    requires IsRun(o, states, events) && i <= j < |states| && t in states[i].completions
    ensures t in states[j].completions && states[j].completions[t] == states[i].completions[t]
    decreases j - i
  {
    if i < j {
      StepKeepsOutcomes(o, states[i], events[i]);
      OutcomesAreFinal(o, states, events, i + 1, j, t);
    }
  }

  // ---- every ticket completes

  // How many steps the writer is from its end once the lifetime is cancelled, queue and wakes apart.
  function Rank(w: Writer): nat {
    match w
    case Stopped => 0
    case Clearing(batch) => 1 + |batch|
    case Exiting => 2
    case AtTop => 3
    case Parked(_) => 4
    case Fencing(_) => 4
    case CancellingLifetime(_) => 4
    case Faulting(_) => 5
    case Rechecking(_) => 5
    case Choosing => 6
    case Publishing(_, _, _) => 6
    case Draining => 7
    case Completing(_, _, _) => 7
    case Transmitting(_) => 8
    case Holding(_) => 9
    case Taking => 10
    case ReadingFence => 11
  }

  // Tokens that are in the wake channel or may still come to it.
  function Wakes(s: State): nat {
    (if s.token then 1 else 0) + 2 * |s.signalling| + 2 * |s.handoffs|
  }

  // A bound on the writer's own steps from a cancelled state to its end.
  function StepsToStop(s: State): nat {
    Rank(s.writer) + s.queue.lanes.Total() + Wakes(s)
  }

  lemma RefusedWhileStopping(o: Options, s: Queue, r: Request, now: int)
    requires s.stopping
    ensures !Admit(o, s, r, now).1.Accepted? && Admit(o, s, r, now).0 == s.(rejected := s.rejected + 1)
  {
  }

  lemma WakesDoNotGrow(o: Options, s: State, e: Event)
    requires Enabled(s, e) && (e.CompleteSuperseded? || e.Signal?)
    ensures Wakes(Step(o, s, e)) <= Wakes(s)
  {
    if e.CompleteSuperseded? {
      var rest := s.handoffs - {e.ticket};
      assert s.handoffs == rest[e.ticket := s.handoffs[e.ticket]];
      assert |s.signalling + {s.handoffs[e.ticket]}| <= |s.signalling| + 1;
    }
  }

  lemma TakingNearsStop(o: Options, s: State, e: Event)
    requires Valid(o, s.queue) && e.WriterStep? && s.writer.Taking?
    ensures StepsToStop(Step(o, s, e)) < StepsToStop(s)
  {
    TakeRemovesAHead(o, s.queue, s.activeFence.Some?);
  }

  lemma ExitingNearsStop(o: Options, s: State, e: Event)
    requires e.WriterStep? && s.writer.Exiting?
    ensures StepsToStop(Step(o, s, e)) < StepsToStop(s)
  {
    assert |s.queue.lanes.All()| == s.queue.lanes.Total();
  }

  lemma LoopingNearsStop(o: Options, s: State, e: Event)
    requires e.WriterStep? && Enabled(s, e) && s.cancelled && Looping(s.writer)
    ensures StepsToStop(Step(o, s, e)) < StepsToStop(s)
  {
    LoopingLeavesQueue(o, s, e);
  }

  lemma WritingNearsStop(o: Options, s: State, e: Event)
    requires e.WriterStep? && Writing(s.writer)
    ensures StepsToStop(Step(o, s, e)) < StepsToStop(s)
  {
  }

  lemma EndingNearsStop(o: Options, s: State, e: Event)
    requires e.WriterStep? && (s.writer.Faulting? || s.writer.CancellingLifetime? || s.writer.Clearing?)
    ensures StepsToStop(Step(o, s, e)) < StepsToStop(s)
  {
  }

  // Once the lifetime is cancelled, each step of the writer brings its end nearer, and no step of
  // anyone else pushes it away.
  lemma StepNearsStop(o: Options, s: State, e: Event)
    requires Inv(o, s) && Enabled(s, e) && s.cancelled && !s.writer.Stopped?
    ensures e.WriterStep? ==> StepsToStop(Step(o, s, e)) < StepsToStop(s)
    ensures !e.WriterStep? ==> StepsToStop(Step(o, s, e)) <= StepsToStop(s)
  {
    match e
    case Produce(r, now) => RefusedWhileStopping(o, s.queue, r, now);
    case CompleteSuperseded(_) => WakesDoNotGrow(o, s, e);
    case Signal(_) => WakesDoNotGrow(o, s, e);
    case WriterStep(_, _, _) =>
      if s.writer.Taking? {
        TakingNearsStop(o, s, e);
      } else if s.writer.Exiting? {
        ExitingNearsStop(o, s, e);
      } else if Looping(s.writer) {
        LoopingNearsStop(o, s, e);
      } else if Writing(s.writer) {
        WritingNearsStop(o, s, e);
      } else {
        EndingNearsStop(o, s, e);
      }
    case _ =>
  }

  // And the writer can always take that step, whatever the clock and the transport say.
  lemma CancelledWriterCanStep(s: State, now: int, io: TransportResult)
    requires s.cancelled && !s.writer.Stopped?
    ensures exists wake :: Enabled(s, WriterStep(now, io, wake))
  {
    assert Enabled(s, WriterStep(now, io, ByCancellation));
  }

  function WriterSteps(events: seq<Event>): nat {
    if events == [] then 0 else (if events[0].WriterStep? then 1 else 0) + WriterSteps(events[1..])
  }

  lemma {:induction false} CancellationLasts(o: Options, states: seq<State>, events: seq<Event>, i: nat, j: nat)
    requires IsRun(o, states, events) && i <= j < |states| && states[i].cancelled
    ensures states[j].cancelled
    decreases j - i
  {
    if i < j {
      CancellationLasts(o, states, events, i + 1, j);
    }
  }

  // Within that many of its own steps, whatever happens in between, the writer has stopped.
  lemma {:induction false} CancelledWriterStops(o: Options, states: seq<State>, events: seq<Event>, i: nat, j: nat)
    returns (m: nat)
    requires o.Valid() && IsRun(o, states, events) && i <= j < |states| && states[i].cancelled
    requires WriterSteps(events[i..j]) >= StepsToStop(states[i])
    ensures i <= m <= j && states[m].writer.Stopped?
    decreases j - i
  {
    if states[i].writer.Stopped? {
      m := i;
    } else {
      RunsKeepInv(o, states, events, i);
      StepNearsStop(o, states[i], events[i]);
      assert events[i..j][1..] == events[i + 1..j];
      m := CancelledWriterStops(o, states, events, i + 1, j);
    }
  }

  // A fault is on its way to cancelling the lifetime.
  function StepsToCancel(w: Writer): nat {
    match w
    case Completing(_, _, _) => 4
    case Publishing(_, _, _) => 3
    case Faulting(_) => 2
    case _ => 1
  }

  predicate IsFaulting(w: Writer) {
    w.Faulting? || w.CancellingLifetime? || ((w.Completing? || w.Publishing?) && w.after.ToFault?)
  }

  lemma FaultNearsCancellation(o: Options, s: State, e: Event)
    requires Enabled(s, e) && IsFaulting(s.writer)
    ensures e.WriterStep? ==>
      || Step(o, s, e).cancelled
      || (IsFaulting(Step(o, s, e).writer) && StepsToCancel(Step(o, s, e).writer) < StepsToCancel(s.writer))
    ensures !e.WriterStep? ==> Step(o, s, e).writer == s.writer
  {
  }

  // A failed write or observer cancels the lifetime within four steps of the writer.
  lemma {:induction false} FaultCancels(o: Options, states: seq<State>, events: seq<Event>, i: nat, j: nat) returns (m: nat)
    requires IsRun(o, states, events) && i <= j < |states| && IsFaulting(states[i].writer)
    requires WriterSteps(events[i..j]) >= StepsToCancel(states[i].writer)
    ensures i <= m <= j && states[m].cancelled
    decreases j - i
  {
    FaultNearsCancellation(o, states[i], events[i]);
    assert events[i..j][1..] == events[i + 1..j];
    if states[i + 1].cancelled {
      m := i + 1;
    } else {
      m := FaultCancels(o, states, events, i + 1, j);
    }
  }

  lemma StepKeepsHandoffs(o: Options, s: State, e: Event)
    requires Enabled(s, e) && s.queue.stopping
    ensures Step(o, s, e).handoffs.Keys == if e.CompleteSuperseded? then s.handoffs.Keys - {e.ticket} else s.handoffs.Keys
    ensures Step(o, s, e).queue.accepted == s.queue.accepted && Step(o, s, e).queue.stopping
  {
    match e
    case Produce(r, now) => RefusedWhileStopping(o, s.queue, r, now);
    case _ =>
  }

  // Displaced work whose producer takes its next step is no longer in its hands.
  lemma {:induction false} HandoffsOnlyShrink(o: Options, states: seq<State>, events: seq<Event>, i: nat, j: nat)
    requires IsRun(o, states, events) && i <= j < |states| && states[i].queue.stopping
    ensures states[j].handoffs.Keys <= states[i].handoffs.Keys
    ensures forall k :: i <= k < j && events[k].CompleteSuperseded? ==> events[k].ticket !in states[j].handoffs
    ensures states[j].queue.accepted == states[i].queue.accepted && states[j].queue.stopping
    decreases j - i
  {
    if i < j {
      HandoffsOnlyShrink(o, states, events, i, j - 1);
      StepKeepsHandoffs(o, states[j - 1], events[j - 1]);
    }
  }

  // What is accepted and not completed once the writer has stopped is in a producer's hands.
  lemma StoppedLeavesHandoffs(o: Options, s: State)
    requires Inv(o, s) && s.writer.Stopped?
    ensures forall t: nat :: t < s.queue.accepted <==> t in s.completions || t in s.handoffs
  {
    assert s.queue.lanes == NO_LANES;
    forall t: nat ensures t < s.queue.accepted <==> t in s.completions || t in s.handoffs {
      assert Places(s, t) == if t < s.queue.accepted then 1 else 0;
    }
  }

  // Every accepted ticket completes: after cancellation it takes a bounded number of the writer's
  // own steps, and the next step of each producer that holds displaced work. From then on no
  // request is accepted.
  lemma EveryTicketCompletes(o: Options, states: seq<State>, events: seq<Event>, i: nat, j: nat)
    requires o.Valid() && IsRun(o, states, events) && i <= j < |states| && states[i].cancelled
    requires WriterSteps(events[i..j]) >= StepsToStop(states[i])
    requires forall t :: t in states[i].handoffs ==> exists k :: i <= k < j && events[k] == CompleteSuperseded(t)
    ensures forall t: nat :: t in states[j].completions <==> t < states[j].queue.accepted
    ensures forall r: Request, now: int :: !Admit(o, states[j].queue, r, now).1.Accepted?
  {
    var m := CancelledWriterStops(o, states, events, i, j);
    RunsKeepInv(o, states, events, i);
    HandoffsOnlyShrink(o, states, events, i, j);
    HandoffsOnlyShrink(o, states, events, i, m);
    HandoffsOnlyShrink(o, states, events, m, j);
    RunsKeepInv(o, states, events, m);
    RunsKeepInv(o, states, events, j);
    StoppedLeavesHandoffs(o, states[m]);
    forall t: nat ensures t in states[j].completions <==> t < states[j].queue.accepted {
      assert Places(states[j], t) == if t < states[j].queue.accepted then 1 else 0;
      if t in states[m].completions {
        OutcomesAreFinal(o, states, events, m, j, t);
      } else if t < states[j].queue.accepted {
        var k :| i <= k < j && events[k] == CompleteSuperseded(t);
        HandedOverIsCompleted(o, states, events, k, j, t);
      }
    }
  }

  lemma HandedOverIsCompleted(o: Options, states: seq<State>, events: seq<Event>, k: nat, j: nat, t: nat)
    requires IsRun(o, states, events) && k < j < |states| && events[k] == CompleteSuperseded(t)
    ensures t in states[j].completions
  {
    assert t in states[k + 1].completions;
    OutcomesAreFinal(o, states, events, k + 1, j, t);
  }

  // Work reported Expired or Superseded never reaches the transport; work reported Written or Failed has.
  lemma ExpiredWorkIsNeverTransmitted(o: Options, states: seq<State>, events: seq<Event>, i: nat, j: nat, t: nat)
    requires o.Valid() && IsRun(o, states, events) && i < |states| && j < |states| && t in states[i].completions
    ensures states[i].completions[t] in {Expired, Superseded} ==> t !in states[j].transmitted
    ensures states[i].completions[t] in {Written, Failed} ==> t in states[i].transmitted
  {
    RunsKeepInv(o, states, events, i);
    var k := if i < j then j else i;
    OutcomesAreFinal(o, states, events, i, k, t);
    RunsKeepInv(o, states, events, k);
    TransmissionsAreRemembered(o, states, events, j, k, t);
    assert Places(states[k], t) <= 1;
    if states[k].writer.Transmitting? || states[k].writer.Completing? || states[k].writer.Publishing? {
      CountSingle(states[k].writer.work, ByTicket(t));
    }
  }

  lemma {:induction false} TransmissionsAreRemembered(
    o: Options, states: seq<State>, events: seq<Event>, i: nat, j: nat, t: nat)
    requires IsRun(o, states, events) && i <= j < |states|
    ensures t in states[i].transmitted ==> t in states[j].transmitted
    decreases j - i
  {
    if i < j {
      StepOnlyAddsTransmissions(o, states[i], events[i]);
      TransmissionsAreRemembered(o, states, events, i + 1, j, t);
    }
  }

  lemma StepOnlyAddsTransmissions(o: Options, s: State, e: Event)
    requires Enabled(s, e)
    ensures s.transmitted <= Step(o, s, e).transmitted
  {
  }

  // Live work IDs are distinct: an ID occurs at most once among the queued and the unfinished work,
  // and exactly the IDs that occur are refused to a new request.
  lemma LiveWorkIdsAreDistinct(o: Options, states: seq<State>, events: seq<Event>, i: nat, id: string)
    requires o.Valid() && IsRun(o, states, events) && i < |states|
    ensures var s := states[i];
            var live := LaneCount(s.queue.lanes, ByWorkId(id)) + Count(Claiming(s.writer), ByWorkId(id));
            live <= 1 && (live == 1 <==> id in s.queue.ids)
  {
    RunsKeepInv(o, states, events, i);
  }

  // ---- the response fence

  // While the writer remembers a fence, everything it dispatches is Safety work.
  lemma OnlySafetyWhileFenced(o: Options, states: seq<State>, events: seq<Event>, i: nat)
    requires o.Valid() && IsRun(o, states, events) && i < |states|
    requires states[i].activeFence.Some? && (states[i].writer.Holding? || states[i].writer.Transmitting?)
    ensures states[i].writer.work.request.priority == Safety
  {
    RunsKeepInv(o, states, events, i);
  }

  // A remembered fence gives way only to its release, or to the unreleased fence of Safety work just written.
  lemma FenceGivesWayOnlyToReleaseOrSafety(o: Options, states: seq<State>, events: seq<Event>, i: nat)
    requires o.Valid() && IsRun(o, states, events) && i < |events|
    requires states[i].activeFence.Some? && states[i + 1].activeFence != states[i].activeFence
    ensures var s, s' := states[i], states[i + 1];
            || (s'.activeFence.None? && s.activeFence.value in s.released)
            || (&& s.writer.Fencing? && s.writer.work.request.priority == Safety
                && s'.activeFence == s.writer.work.request.fence && s'.activeFence.value !in s.released
                && s.writer.work.ticket in s.transmitted)
  {
    RunsKeepInv(o, states, events, i);
    RunsKeepInv(o, states, events, i + 1);
    StepChangesFenceWhere(o, states[i], events[i]);
  }

  lemma StepChangesFenceWhere(o: Options, s: State, e: Event)
    requires Enabled(s, e) && Step(o, s, e).activeFence != s.activeFence
    ensures e.WriterStep? && (s.writer.ReadingFence? || s.writer.Fencing?)
  {
  }
}
