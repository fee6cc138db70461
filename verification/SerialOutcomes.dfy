/**
What decides the outcome of accepted work: the clock when the writer takes it up, the answer of
the transport, a Safety request that displaces it, or the end of the writer. Stated on the
events of a run.
*/
module SerialOutcomes {
  import opened Wrappers
  import opened WriteQueue
  import opened SerialRuntime

  // ---------------------------------------------------------------- where work comes from

  // The k-th step of the run accepted the ticket.
  ghost predicate AcceptedAt(states: seq<State>, events: seq<Event>, k: nat, t: nat) {
    && k < |events| < |states|
    && events[k].Produce? && states[k].queue.accepted == t && states[k + 1].queue.accepted == t + 1
  }

  // The work is queued or with the writer.
  predicate IsAround(s: State, w: Work) {
    w in s.queue.lanes.All() || w in InFlight(s.writer) || (s.writer.Fencing? && s.writer.work == w)
  }

  lemma AdmitBringsNew(o: Options, q: Queue, r: Request, now: int, w: Work)
    requires Valid(o, q) && w in Admit(o, q, r, now).0.lanes.All()
    ensures w in q.lanes.All() || (w == Work(q.accepted, r, now) && Admit(o, q, r, now).0.accepted == q.accepted + 1)
  {
    AdmitLanes(o, q, r, now);
  }

  lemma ProduceBringsNew(o: Options, s: State, r: Request, now: int, w: Work)
    requires Valid(o, s.queue) && IsAround(Step(o, s, Produce(r, now)), w)
    ensures IsAround(s, w)
         || (w == Work(s.queue.accepted, r, now) && Step(o, s, Produce(r, now)).queue.accepted == s.queue.accepted + 1)
  {
    if w in Step(o, s, Produce(r, now)).queue.lanes.All() {
      AdmitBringsNew(o, s.queue, r, now, w);
    }
  }

  lemma TakingBringsNothing(o: Options, s: State, e: Event, w: Work)
    requires Valid(o, s.queue) && e.WriterStep? && s.writer.Taking? && IsAround(Step(o, s, e), w)
    ensures IsAround(s, w)
  {
    TakeRemovesAHead(o, s.queue, s.activeFence.Some?);
  }

  lemma EndingBringsNothing(o: Options, s: State, e: Event, w: Work)
    requires e.WriterStep? && !s.writer.Stopped? && !s.writer.Taking? && !Looping(s.writer) && !Writing(s.writer)
    requires IsAround(Step(o, s, e), w)
    ensures IsAround(s, w)
  {
  }

  lemma WriterBringsNothing(o: Options, s: State, e: Event, w: Work)
    requires Valid(o, s.queue) && Enabled(s, e) && e.WriterStep? && IsAround(Step(o, s, e), w)
    ensures IsAround(s, w)
  {
    if s.writer.Taking? {
      TakingBringsNothing(o, s, e, w);
    } else if s.writer.Publishing? {
      PublishingOnlySetsACell(o, s, e);
    } else if s.writer.Completing? {
      CompletingOnlyForgets(o, s, e);
    } else if Looping(s.writer) {
      LoopingLeavesQueue(o, s, e);
    } else if Writing(s.writer) {
      WritingLeavesQueue(o, s, e);
    } else {
      EndingBringsNothing(o, s, e, w);
    }
  }

  lemma StepBringsNew(o: Options, s: State, e: Event, w: Work)
    requires Valid(o, s.queue) && Enabled(s, e) && IsAround(Step(o, s, e), w)
    ensures IsAround(s, w)
         || (e.Produce? && w == Work(s.queue.accepted, e.request, e.now)
             && Step(o, s, e).queue.accepted == s.queue.accepted + 1)
  {
    if e.Produce? {
      ProduceBringsNew(o, s, e.request, e.now, w);
    } else if e.WriterStep? {
      WriterBringsNothing(o, s, e, w);
    }
  }

  // Work is around because some step accepted it, with its request and at its time.
  lemma {:induction false} WasAccepted(o: Options, states: seq<State>, events: seq<Event>, i: nat, w: Work) returns (k: nat)
    requires o.Valid() && IsRun(o, states, events) && i < |states| && IsAround(states[i], w)
    ensures k < i && AcceptedAt(states, events, k, w.ticket)
    ensures events[k].request == w.request && events[k].now == w.enqueuedAt
  {
    assert !IsAround(INITIAL, w);
    var s, e := states[i - 1], events[i - 1];
    RunsKeepInv(o, states, events, i - 1);
    StepBringsNew(o, s, e, w);
    if IsAround(s, w) {
      k := WasAccepted(o, states, events, i - 1, w);
    } else {
      k := i - 1;
    }
  }

  lemma {:induction false} AcceptedNeverFalls(o: Options, states: seq<State>, events: seq<Event>, i: nat, j: nat)
    requires o.Valid() && IsRun(o, states, events) && i <= j < |states|
    ensures states[i].queue.accepted <= states[j].queue.accepted
    decreases j - i
  {
    if i < j {
      RunsKeepInv(o, states, events, i);
      StepKeepsAccepted(o, states[i], events[i]);
      AcceptedNeverFalls(o, states, events, i + 1, j);
    }
  }

  lemma StepKeepsAccepted(o: Options, s: State, e: Event)
    requires Inv(o, s) && Enabled(s, e)
    ensures s.queue.accepted <= Step(o, s, e).queue.accepted
  {
    if e.WriterStep? {
      WriterKeepsPlaces(o, s, e);
    }
  }

  lemma AcceptedOnce(o: Options, states: seq<State>, events: seq<Event>, k: nat, l: nat, t: nat)
    requires o.Valid() && IsRun(o, states, events)
    requires AcceptedAt(states, events, k, t) && AcceptedAt(states, events, l, t)
    ensures k == l
  {
    if k < l {
      AcceptedNeverFalls(o, states, events, k + 1, l);
    } else if l < k {
      AcceptedNeverFalls(o, states, events, l + 1, k);
    }
  }

  // ---------------------------------------------------------------- what brings an outcome

  predicate IsQueued(s: State, t: nat) {
    exists w :: w in s.queue.lanes.All() && w.ticket == t
  }

  predicate Writes(s: State, e: Event, t: nat) {
    e.WriterStep? && s.writer.Transmitting? && s.writer.work.ticket == t
  }

  predicate TakesUp(s: State, e: Event, t: nat) {
    e.WriterStep? && s.writer.Holding? && s.writer.work.ticket == t
  }

  // The step from s to s' decides the outcome of the ticket: the transport accepted the write;
  // it or the observer threw, with the scheduler running; the work had waited too long when it
  // was taken up; it left the queue for another request; the scheduler ended with it queued, or
  // with its write throwing.
  predicate Brings(s: State, e: Event, s': State, t: nat, x: Outcome) {
    match x
    case Written => Writes(s, e, t) && e.io == WriteOk
    case Failed => Writes(s, e, t) && (e.io == ObserverThrows || (e.io == WriteThrows && !s.cancelled))
    case Expired => TakesUp(s, e, t) && e.now - s.writer.work.enqueuedAt > s.writer.work.request.maximumQueueDelay
    case Superseded => e.Produce? && IsQueued(s, t) && !IsQueued(s', t)
    case Cancelled =>
      || (Writes(s, e, t) && e.io == WriteThrows && s.cancelled)
      || (e.WriterStep? && s.writer.Exiting? && IsQueued(s, t))
  }

  // The outcome is decided, though perhaps not yet published.
  predicate IsDecided(s: State, t: nat, x: Outcome) {
    || (t in s.completions && s.completions[t] == x)
    || ((s.writer.Completing? || s.writer.Publishing?) && s.writer.work.ticket == t && s.writer.outcome == x)
    || (x == Superseded && t in s.handoffs)
    || (x == Cancelled && s.writer.Clearing? && Count(s.writer.batch, ByTicket(t)) > 0)
  }

  lemma {:induction false} CountFinds(q: seq<Work>, t: nat)
    ensures Count(q, ByTicket(t)) > 0 <==> exists w :: w in q && w.ticket == t
  {
    if q != [] {
      CountFinds(q[1..], t);
      assert forall w :: w in q <==> w == q[0] || w in q[1..];
      assert q[0] in q;
    }
  }

  lemma QueuedIsCounted(s: State, t: nat)
    ensures IsQueued(s, t) <==> LaneCount(s.queue.lanes, ByTicket(t)) > 0
  {
    CountFinds(s.queue.lanes.All(), t);
    LaneCountAll(s.queue.lanes, ByTicket(t));
  }

  lemma RefusingDecidesNothing(o: Options, s: State, e: Event)
    requires Valid(o, s.queue) && e.Produce? && !Admit(o, s.queue, e.request, e.now).1.Accepted?
    ensures var s' := Step(o, s, e);
      s'.queue.lanes == s.queue.lanes && s'.completions == s.completions && s'.handoffs == s.handoffs && s'.writer == s.writer
  {
    AdmitLanes(o, s.queue, e.request, e.now);
  }

  lemma AdmittingDecides(o: Options, s: State, e: Event, t: nat)
    requires Inv(o, s) && e.Produce? && Admit(o, s.queue, e.request, e.now).1.Accepted?
    ensures var s' := Step(o, s, e);
      && s'.completions == s.completions && s'.writer == s.writer
      && (t in s'.handoffs <==> t in s.handoffs || (IsQueued(s, t) && !IsQueued(s', t)))
  {
    var s' := Step(o, s, e);
    AdmitLanes(o, s.queue, e.request, e.now);
    QueuedIsCounted(s, t);
    QueuedIsCounted(s', t);
    assert Places(s, t) <= 1;
    AdmitMovesCount(o, s.queue, e.request, e.now, ByTicket(t));
    assert Places(s, s.queue.accepted) == 0;
  }

  lemma ProduceDecides(o: Options, s: State, e: Event, t: nat, x: Outcome)
    requires Inv(o, s) && e.Produce?
    ensures IsDecided(Step(o, s, e), t, x) <==> IsDecided(s, t, x) || Brings(s, e, Step(o, s, e), t, x)
  {
    if Admit(o, s.queue, e.request, e.now).1.Accepted? {
      AdmittingDecides(o, s, e, t);
    } else {
      RefusingDecidesNothing(o, s, e);
    }
  }

  // What IsDecided reads of a state.
  ghost predicate SameEnds(s: State, s': State) {
    && s'.completions == s.completions && s'.handoffs == s.handoffs
    && !s.writer.Completing? && !s.writer.Publishing? && !s.writer.Clearing?
    && !s'.writer.Completing? && !s'.writer.Publishing? && !s'.writer.Clearing?
  }

  lemma PublishingDecides(o: Options, s: State, e: Event, t: nat, x: Outcome)
    requires Inv(o, s) && e.WriterStep? && s.writer.Publishing?
    ensures IsDecided(Step(o, s, e), t, x) <==> IsDecided(s, t, x)
  {
    LiveIsNotCompleted(s);
    PublishingOnlySetsACell(o, s, e);
  }

  lemma TransportDecides(o: Options, s: State, e: Event, t: nat, x: Outcome)
    requires e.WriterStep? && (s.writer.Holding? || s.writer.Transmitting? || s.writer.Fencing?)
    ensures IsDecided(Step(o, s, e), t, x) <==> IsDecided(s, t, x) || Brings(s, e, Step(o, s, e), t, x)
  {
  }

  lemma WritingDecides(o: Options, s: State, e: Event, t: nat, x: Outcome)
    requires Inv(o, s) && e.WriterStep? && Writing(s.writer)
    ensures IsDecided(Step(o, s, e), t, x) <==> IsDecided(s, t, x) || Brings(s, e, Step(o, s, e), t, x)
  {
    if s.writer.Publishing? {
      PublishingDecides(o, s, e, t, x);
    } else if s.writer.Completing? {
      CompletingOnlyForgets(o, s, e);
    } else {
      TransportDecides(o, s, e, t, x);
    }
  }

  lemma ExitingTakesAll(o: Options, s: State, e: Event)
    requires e.WriterStep? && s.writer.Exiting?
    ensures var s' := Step(o, s, e);
      s'.writer == Clearing(s.queue.lanes.All()) && s'.completions == s.completions && s'.handoffs == s.handoffs
  {
  }

  lemma ExitingDecides(o: Options, s: State, e: Event, t: nat, x: Outcome)
    requires e.WriterStep? && s.writer.Exiting?
    ensures IsDecided(Step(o, s, e), t, x) <==> IsDecided(s, t, x) || Brings(s, e, Step(o, s, e), t, x)
  {
    ExitingTakesAll(o, s, e);
    QueuedIsCounted(s, t);
    LaneCountAll(s.queue.lanes, ByTicket(t));
  }

  lemma ClearingDecides(o: Options, s: State, e: Event, t: nat, x: Outcome)
    requires Inv(o, s) && e.WriterStep? && s.writer.Clearing?
    ensures IsDecided(Step(o, s, e), t, x) <==> IsDecided(s, t, x)
  {
    LiveIsNotCompleted(s);
  }

  lemma EndingDecides(o: Options, s: State, e: Event, t: nat, x: Outcome)
    requires Inv(o, s) && e.WriterStep? && (s.writer.Exiting? || s.writer.Clearing?)
    ensures IsDecided(Step(o, s, e), t, x) <==> IsDecided(s, t, x) || Brings(s, e, Step(o, s, e), t, x)
  {
    if s.writer.Exiting? {
      ExitingDecides(o, s, e, t, x);
    } else {
      ClearingDecides(o, s, e, t, x);
    }
  }

  lemma LoopDecidesNothing(o: Options, s: State, e: Event)
    requires Enabled(s, e) && e.WriterStep?
    requires !s.writer.Stopped? && !Writing(s.writer) && !s.writer.Exiting? && !s.writer.Clearing?
    ensures SameEnds(s, Step(o, s, e))
  {
    if Looping(s.writer) {
      LoopingLeavesQueue(o, s, e);
    }
  }

  // Completing displaced work publishes what its displacement decided.
  lemma HandoffDecidesNothing(o: Options, s: State, e: Event, t: nat, x: Outcome)
    requires Inv(o, s) && Enabled(s, e) && !e.Produce? && !e.WriterStep?
    ensures IsDecided(Step(o, s, e), t, x) <==> IsDecided(s, t, x)
  {
    LiveIsNotCompleted(s);
  }

  lemma StepDecides(o: Options, s: State, e: Event, t: nat, x: Outcome)
    requires Inv(o, s) && Enabled(s, e)
    ensures IsDecided(Step(o, s, e), t, x) <==> IsDecided(s, t, x) || Brings(s, e, Step(o, s, e), t, x)
  {
    if e.Produce? {
      ProduceDecides(o, s, e, t, x);
    } else if e.WriterStep? && Writing(s.writer) {
      WritingDecides(o, s, e, t, x);
    } else if e.WriterStep? && (s.writer.Exiting? || s.writer.Clearing?) {
      EndingDecides(o, s, e, t, x);
    } else if e.WriterStep? {
      LoopDecidesNothing(o, s, e);
    } else {
      HandoffDecidesNothing(o, s, e, t, x);
    }
  }

  lemma {:induction false} DecidedStays(o: Options, states: seq<State>, events: seq<Event>, i: nat, j: nat, t: nat, x: Outcome)
    requires o.Valid() && IsRun(o, states, events) && i <= j < |states| && IsDecided(states[i], t, x)
    ensures IsDecided(states[j], t, x)
    decreases j - i
  {
    if i < j {
      RunsKeepInv(o, states, events, i);
      StepDecides(o, states[i], events[i], t, x);
      DecidedStays(o, states, events, i + 1, j, t, x);
    }
  }

  lemma NothingIsDecidedAtFirst(t: nat, x: Outcome)
    ensures !IsDecided(INITIAL, t, x)
  {
  }

  lemma {:induction false} DecidedWasBrought(o: Options, states: seq<State>, events: seq<Event>, j: nat, t: nat, x: Outcome)
    returns (i: nat)
    requires o.Valid() && IsRun(o, states, events) && j < |states| && IsDecided(states[j], t, x)
    ensures i < j && Brings(states[i], events[i], states[i + 1], t, x)
  {
    NothingIsDecidedAtFirst(t, x);
    RunsKeepInv(o, states, events, j - 1);
    StepDecides(o, states[j - 1], events[j - 1], t, x);
    if IsDecided(states[j - 1], t, x) {
      i := DecidedWasBrought(o, states, events, j - 1, t, x);
    } else {
      i := j - 1;
    }
  }

  lemma DecidedAndCompleted(o: Options, s: State, t: nat, x: Outcome)
    requires Inv(o, s) && IsDecided(s, t, x) && t in s.completions
    ensures s.completions[t] == x
  {
    assert Places(s, t) <= 1;
    if s.writer.Completing? || s.writer.Publishing? {
      CountSingle(s.writer.work, ByTicket(t));
    }
  }

  // Over every run: a completed ticket has an outcome if and only if an earlier step brought it.
  lemma OutcomeExactlyWhenBrought(o: Options, states: seq<State>, events: seq<Event>, j: nat, t: nat, x: Outcome)
    requires o.Valid() && IsRun(o, states, events) && j < |states| && t in states[j].completions
    ensures states[j].completions[t] == x <==> exists i :: 0 <= i < j && Brings(states[i], events[i], states[i + 1], t, x)
  {
    RunsKeepInv(o, states, events, j);
    if states[j].completions[t] == x {
      var i := DecidedWasBrought(o, states, events, j, t, x);
    }
    if i: nat :| i < j && Brings(states[i], events[i], states[i + 1], t, x) {
      RunsKeepInv(o, states, events, i);
      StepDecides(o, states[i], events[i], t, x);
      DecidedStays(o, states, events, i + 1, j, t, x);
      DecidedAndCompleted(o, states[j], t, x);
    }
  }

  // ---------------------------------------------------------------- in time or too late

  // The ticket was accepted by the k-th step, and taken up by the writer in the i-th.
  ghost predicate TakenUp(states: seq<State>, events: seq<Event>, k: nat, i: nat, t: nat) {
    k < i < |events| && AcceptedAt(states, events, k, t) && TakesUp(states[i], events[i], t)
  }

  predicate Late(events: seq<Event>, k: nat, i: nat)
    requires k < |events| && i < |events| && events[k].Produce? && events[i].WriterStep?
  {
    events[i].now - events[k].now > events[k].request.maximumQueueDelay
  }

  // Taking a ticket up, its time and its limit are those of the step that accepted it.
  lemma HeldSinceAccepted(o: Options, states: seq<State>, events: seq<Event>, k: nat, i: nat, t: nat)
    requires o.Valid() && IsRun(o, states, events) && TakenUp(states, events, k, i, t)
    ensures states[i].writer.work == Work(t, events[k].request, events[k].now)
  {
    var l := WasAccepted(o, states, events, i, states[i].writer.work);
    AcceptedOnce(o, states, events, k, l, t);
  }

  lemma HoldingWasAccepted(o: Options, states: seq<State>, events: seq<Event>, i: nat, t: nat) returns (k: nat)
    requires o.Valid() && IsRun(o, states, events) && i < |events| && TakesUp(states[i], events[i], t)
    ensures TakenUp(states, events, k, i, t)
  {
    k := WasAccepted(o, states, events, i, states[i].writer.work);
  }

  // A completed ticket is Expired if and only if, when the writer took it up, more time than its
  // request allows had passed since the step that accepted it.
  lemma ExpiredExactlyWhenLate(o: Options, states: seq<State>, events: seq<Event>, j: nat, t: nat)
    requires o.Valid() && IsRun(o, states, events) && j < |states| && t in states[j].completions
    ensures states[j].completions[t] == Expired
       <==> exists k, i :: 0 <= i < j && TakenUp(states, events, k, i, t) && Late(events, k, i)
  {
    OutcomeExactlyWhenBrought(o, states, events, j, t, Expired);
    if i: nat :| i < j && Brings(states[i], events[i], states[i + 1], t, Expired) {
      var k := HoldingWasAccepted(o, states, events, i, t);
      HeldSinceAccepted(o, states, events, k, i, t);
      assert Late(events, k, i);
    }
    if k: nat, i: nat :| i < j && TakenUp(states, events, k, i, t) && Late(events, k, i) {
      HeldSinceAccepted(o, states, events, k, i, t);
      assert Brings(states[i], events[i], states[i + 1], t, Expired);
    }
  }

  lemma StepTransmits(o: Options, s: State, e: Event, t: nat)
    requires Inv(o, s) && Enabled(s, e)
    ensures t in Step(o, s, e).transmitted && t !in s.transmitted
       <==> TakesUp(s, e, t) && e.now - s.writer.work.enqueuedAt <= s.writer.work.request.maximumQueueDelay
  {
    if e.WriterStep? && s.writer.Holding? {
      LiveIsNotCompleted(s);
    } else {
      OnlyHoldingTransmits(o, s, e);
    }
  }

  lemma OnlyHoldingTransmits(o: Options, s: State, e: Event)
    requires Enabled(s, e) && !(e.WriterStep? && s.writer.Holding?)
    ensures Step(o, s, e).transmitted == s.transmitted
  {
  }

  // A step hands a ticket to the transport if and only if the writer holds it and no more time than
  // its request allows has passed since the step that accepted it.
  lemma TransmittedExactlyWhenInTime(o: Options, states: seq<State>, events: seq<Event>, i: nat, t: nat)
    requires o.Valid() && IsRun(o, states, events) && i < |events|
    ensures t in states[i + 1].transmitted && t !in states[i].transmitted
       <==> exists k :: TakenUp(states, events, k, i, t) && !Late(events, k, i)
  {
    RunsKeepInv(o, states, events, i);
    StepTransmits(o, states[i], events[i], t);
    if TakesUp(states[i], events[i], t) {
      var k := HoldingWasAccepted(o, states, events, i, t);
      forall l: nat | TakenUp(states, events, l, i, t) ensures l == k {
        AcceptedOnce(o, states, events, k, l, t);
      }
      HeldSinceAccepted(o, states, events, k, i, t);
    }
  }

  // ---------------------------------------------------------------- taking and fencing

  // A writer at its queue takes the oldest Safety work there is; without any, and unless it
  // remembers a fence, the oldest of another class that has work; otherwise nothing.
  lemma EligibleWorkIsTaken(o: Options, states: seq<State>, events: seq<Event>, i: nat)
    requires o.Valid() && IsRun(o, states, events) && i < |events| && events[i].WriterStep? && states[i].writer.Taking?
    ensures var q, w := states[i].queue.lanes, states[i + 1].writer;
      if q.safety != [] then w == Holding(q.safety[0])
      else if states[i].activeFence.Some? || q.Total() == 0 then w == Draining
      else
        || (q.interactive != [] && w == Holding(q.interactive[0]))
        || (q.telemetry != [] && w == Holding(q.telemetry[0]))
        || (q.background != [] && w == Holding(q.background[0]))
  {
    RunsKeepInv(o, states, events, i);
    TakeRemovesAHead(o, states[i].queue, states[i].activeFence.Some?);
  }

  // The writer is on its way to taking work, and will find some it may take.
  predicate IsHeading(s: State) {
    match s.writer
    case AtTop => !s.cancelled && HasEligibleWork(s)
    case ReadingFence => HasEligibleWork(s)
    case Taking => s.queue.lanes.safety != [] || (s.activeFence.None? && s.queue.lanes.Total() > 0)
    case _ => false
  }

  function StepsToHold(w: Writer): nat {
    match w
    case AtTop => 3
    case ReadingFence => 2
    case _ => 1
  }

  lemma AdmittingKeepsEligible(o: Options, s: State, e: Event)
    requires Valid(o, s.queue) && e.Produce?
    ensures var (l, l') := (s.queue.lanes, Step(o, s, e).queue.lanes);
      (l.safety != [] ==> l'.safety != []) && (l.Total() > 0 ==> l'.Total() > 0)
  {
    AdmitLanes(o, s.queue, e.request, e.now);
  }

  lemma HeadingGoesOn(o: Options, s: State, e: Event)
    requires Valid(o, s.queue) && Enabled(s, e) && IsHeading(s) && !Step(o, s, e).cancelled
    ensures var s' := Step(o, s, e);
      if !e.WriterStep? then s'.writer == s.writer && IsHeading(s')
      else s'.writer.Holding? || (IsHeading(s') && StepsToHold(s'.writer) < StepsToHold(s.writer))
  {
    if e.Produce? {
      AdmittingKeepsEligible(o, s, e);
    } else if e.WriterStep? && s.writer.Taking? {
      TakeRemovesAHead(o, s.queue, s.activeFence.Some?);
    }
  }

  // A writer at the top of its loop with work it may take, no fence being left or Safety work being
  // there, holds some within three steps of its own unless the scheduler is cancelled: whatever is
  // queued meanwhile, and whatever fence it still remembers.
  lemma {:induction false} EligibleWorkIsHeld(o: Options, states: seq<State>, events: seq<Event>, i: nat, j: nat) returns (m: nat)
    requires o.Valid() && IsRun(o, states, events) && i <= j < |states| && IsHeading(states[i]) && !states[j].cancelled
    requires WriterSteps(events[i..j]) >= StepsToHold(states[i].writer)
    ensures i < m <= j && states[m].writer.Holding?
    decreases j - i
  {
    assert events[i..j][1..] == events[i + 1..j];
    RunsKeepInv(o, states, events, i);
    if states[i + 1].cancelled {
      CancellationLasts(o, states, events, i + 1, j);
    }
    HeadingGoesOn(o, states[i], events[i]);
    m := i + 1;
    if !states[m].writer.Holding? {
      m := EligibleWorkIsHeld(o, states, events, i + 1, j);
    }
  }

  // The step ends a write that carries a fence.
  predicate WritesFenced(s: State, e: Event) {
    e.WriterStep? && s.writer.Transmitting? && e.io == WriteOk && s.writer.work.request.fence.Some?
  }

  predicate IsSettingFence(w: Writer) {
    w.Fencing? || ((w.Completing? || w.Publishing?) && w.after == ToFence)
  }

  // The fence of the written work is remembered, or about to be.
  predicate FenceStands(s: State, w: Work) {
    if IsSettingFence(s.writer) && s.writer.work == w then true
    else s.activeFence == w.request.fence && (IsSettingFence(s.writer) ==> s.writer.work.request.fence.None?)
  }

  lemma StepKeepsFence(o: Options, s: State, e: Event, w: Work)
    requires Enabled(s, e) && FenceStands(s, w) && w.request.fence.Some? && w.request.fence.value !in s.released
    requires !WritesFenced(s, e)
    ensures FenceStands(Step(o, s, e), w)
  {
  }

  lemma ReleasedGrows(o: Options, s: State, e: Event)
    requires Enabled(s, e)
    ensures s.released <= Step(o, s, e).released
  {
  }

  lemma {:induction false} ReleasedNeverShrinks(o: Options, states: seq<State>, events: seq<Event>, i: nat, j: nat)
    requires IsRun(o, states, events) && i <= j < |states|
    ensures states[i].released <= states[j].released
    decreases j - i
  {
    if i < j {
      ReleasedGrows(o, states[i], events[i]);
      ReleasedNeverShrinks(o, states, events, i + 1, j);
    }
  }

  lemma {:induction false} FenceStandsUntil(o: Options, states: seq<State>, events: seq<Event>, i: nat, j: nat, w: Work)
    requires IsRun(o, states, events) && i <= j < |states| && FenceStands(states[i], w) && w.request.fence.Some?
    requires w.request.fence.value !in states[j].released
    requires forall m :: i <= m < j ==> !WritesFenced(states[m], events[m])
    ensures FenceStands(states[j], w)
    decreases j - i
  {
    if i < j {
      ReleasedNeverShrinks(o, states, events, i, j);
      StepKeepsFence(o, states[i], events[i], w);
      FenceStandsUntil(o, states, events, i + 1, j, w);
    }
  }

  // From the end of a fenced write until its fence is released, or another fenced write ends, the
  // writer takes up and transmits nothing but Safety work.
  lemma FencedWriteHoldsOthersBack(o: Options, states: seq<State>, events: seq<Event>, i: nat, j: nat)
    requires o.Valid() && IsRun(o, states, events) && i < j < |states| && WritesFenced(states[i], events[i])
    requires states[i].writer.work.request.fence.value !in states[j].released
    requires forall m :: i < m < j ==> !WritesFenced(states[m], events[m])
    ensures states[j].writer.Holding? || states[j].writer.Transmitting? ==>
      states[j].activeFence == states[i].writer.work.request.fence && states[j].writer.work.request.priority == Safety
  {
    FenceStandsUntil(o, states, events, i + 1, j, states[i].writer.work);
    if states[j].writer.Holding? || states[j].writer.Transmitting? {
      OnlySafetyWhileFenced(o, states, events, j);
    }
  }

  // ---------------------------------------------------------------- fences, stopping and cancellation

  // The step ends the acceptance of requests: the caller's stop, or a fault of the writer.
  predicate StopsAccepting(s: State, e: Event) {
    e == SetStopping || (e.WriterStep? && s.writer.Faulting?)
  }

  predicate CancelsLifetime(s: State, e: Event) {
    e == CancelLifetime || (e.WriterStep? && s.writer.CancellingLifetime?)
  }

  lemma WriterStopsAccepting(o: Options, s: State, e: Event)
    requires Enabled(s, e) && e.WriterStep? && !s.writer.Taking?
    ensures Step(o, s, e).queue.stopping <==> s.queue.stopping || StopsAccepting(s, e)
  {
  }

  lemma WriterCancelsLifetime(o: Options, s: State, e: Event)
    requires Enabled(s, e) && e.WriterStep? && !s.writer.Taking?
    ensures Step(o, s, e).released == s.released
    ensures Step(o, s, e).cancelled <==> s.cancelled || CancelsLifetime(s, e)
  {
  }

  lemma StepMovesSwitches(o: Options, s: State, e: Event, f: nat)
    requires Enabled(s, e) && !e.Produce? && !(e.WriterStep? && s.writer.Taking?)
    ensures var s' := Step(o, s, e);
      && (f in s'.released <==> f in s.released || e == Release(f))
      && (s'.queue.stopping <==> s.queue.stopping || StopsAccepting(s, e))
      && (s'.cancelled <==> s.cancelled || CancelsLifetime(s, e))
  {
    if e.WriterStep? {
      WriterStopsAccepting(o, s, e);
      WriterCancelsLifetime(o, s, e);
    }
  }

  lemma TakingLeavesSwitches(o: Options, s: State, e: Event)
    requires Valid(o, s.queue) && e.WriterStep? && s.writer.Taking?
    ensures var s' := Step(o, s, e);
      s'.released == s.released && s'.queue.stopping == s.queue.stopping && s'.cancelled == s.cancelled
  {
    TakeRemovesAHead(o, s.queue, s.activeFence.Some?);
  }

  lemma ProducingLeavesSwitches(o: Options, s: State, e: Event)
    requires Enabled(s, e) && e.Produce?
    ensures var s' := Step(o, s, e);
      s'.released == s.released && s'.queue.stopping == s.queue.stopping && s'.cancelled == s.cancelled
  {
  }

  ghost predicate WasReleased(events: seq<Event>, j: nat, f: nat)
    requires j <= |events|
  {
    exists i :: 0 <= i < j && events[i] == Release(f)
  }

  ghost predicate WasStopped(states: seq<State>, events: seq<Event>, j: nat)
    requires j <= |events| < |states|
  {
    exists i :: 0 <= i < j && StopsAccepting(states[i], events[i])
  }

  ghost predicate WasCancelled(states: seq<State>, events: seq<Event>, j: nat)
    requires j <= |events| < |states|
  {
    exists i :: 0 <= i < j && CancelsLifetime(states[i], events[i])
  }

  lemma SwitchesAreCounted(states: seq<State>, events: seq<Event>, n: nat, f: nat)
    requires n < |events| < |states|
    ensures WasReleased(events, n + 1, f) <==> WasReleased(events, n, f) || events[n] == Release(f)
    ensures WasStopped(states, events, n + 1) <==> WasStopped(states, events, n) || StopsAccepting(states[n], events[n])
    ensures WasCancelled(states, events, n + 1) <==> WasCancelled(states, events, n) || CancelsLifetime(states[n], events[n])
  {
  }

  // In every reachable state a fence is released if and only if someone released it; requests are
  // refused for stopping if and only if the scheduler was told to stop or its writer met a fault;
  // and the lifetime is cancelled if and only if the one or the other has gone on to cancel it.
  lemma {:induction false} SwitchedExactlyWhen(o: Options, states: seq<State>, events: seq<Event>, j: nat, f: nat)
    requires o.Valid() && IsRun(o, states, events) && j < |states|
    ensures f in states[j].released <==> WasReleased(events, j, f)
    ensures states[j].queue.stopping <==> WasStopped(states, events, j)
    ensures states[j].cancelled <==> WasCancelled(states, events, j)
  {
    if j > 0 {
      var n := j - 1;
      SwitchedExactlyWhen(o, states, events, n, f);
      RunsKeepInv(o, states, events, n);
      if events[n].Produce? {
        ProducingLeavesSwitches(o, states[n], events[n]);
      } else if events[n].WriterStep? && states[n].writer.Taking? {
        TakingLeavesSwitches(o, states[n], events[n]);
      } else {
        StepMovesSwitches(o, states[n], events[n], f);
      }
      SwitchesAreCounted(states, events, n, f);
    }
  }
}
