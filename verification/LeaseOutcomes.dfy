/**
Who gets the response lease, what arms it, and what decides its response: each as an equivalence
on the steps of a run.
*/
module LeaseOutcomes {
  import opened Wrappers
  import opened ResponseLease

  // ---------------------------------------------------------------- getting the lease

  // The transaction asks for the lease: at its beginning, or again after a wait.
  predicate Asks(s: State, e: Event, t: nat) {
    (e.Begin? && t == s.serials) || e == Retry(t)
  }

  // The call the transaction asks with.
  function CallOf(s: State, e: Event, t: nat): Option<Call> {
    if e.Begin? then Some(e.call) else if t in s.calls then Some(s.calls[t]) else None
  }

  // Safety work asks while a lease below Safety is active.
  predicate TakesOver(s: State, e: Event, t: nat, l: nat) {
    && Asks(s, e, t) && s.active == Some(l) && CallOf(s, e, t).Some? && CallOf(s, e, t).value.safety
    && l in s.calls && !s.calls[l].safety
  }

  lemma AskingDecides(s: State, e: Event, t: nat)
    requires Inv(s) && Enabled(s, e) && Asks(s, e, t)
    ensures var s' := Step(s, e);
      if s.active.None? then s'.active == Some(t) && s'.responses == s.responses && s'.released == s.released
      else if TakesOver(s, e, t, s.active.value) then
        var l := s.active.value;
        && s'.active == Some(t) && t in s'.preempts && s'.preempts[t] == l && l in s'.released
        && s'.responses == TrySet(s.responses, l, Preempted)
      else
        && s'.active == s.active && t in s'.waiting && s'.waiting[t] == s.active.value && s'.responses == s.responses
  {
  }

  lemma OthersKeepActive(s: State, e: Event)
    requires Enabled(s, e) && !e.Begin? && !e.Retry? && !e.Unwind? && e != TakeActive && !e.Close?
    ensures Step(s, e).active == s.active
  {
  }

  lemma EndingActivatesNobody(s: State, e: Event)
    requires Enabled(s, e) && (e.Unwind? || e == TakeActive || e.Close?)
    ensures Step(s, e).active == s.active || Step(s, e).active == None
  {
    if e.Unwind? {
      UnwindingActivatesNobody(s, e.t);
    }
  }

  lemma UnwindingActivatesNobody(s: State, u: nat)
    requires Enabled(s, Unwind(u))
    ensures Step(s, Unwind(u)).active == s.active || Step(s, Unwind(u)).active == None
  {
  }

  lemma OnlyAskingActivates(s: State, e: Event, t: nat)
    requires Inv(s) && Enabled(s, e) && s.active != Some(t) && Step(s, e).active == Some(t)
    ensures Asks(s, e, t)
  {
    if e.Begin? {
      AskingDecides(s, e, s.serials);
    } else if e.Retry? {
      AskingDecides(s, e, e.t);
    } else if e.Unwind? || e == TakeActive || e.Close? {
      EndingActivatesNobody(s, e);
    } else {
      OthersKeepActive(s, e);
    }
  }

  lemma AskerIsNotActive(s: State, e: Event, t: nat)
    requires Inv(s) && Enabled(s, e) && Asks(s, e, t)
    ensures s.active != Some(t)
  {
  }

  // A transaction gets the lease by a step if and only if it asks then and no lease is active, or
  // it is Safety work and the active lease is not: Safety does take over.
  lemma GetsLeaseExactlyWhen(states: seq<State>, events: seq<Event>, i: nat, t: nat)
    requires IsRun(states, events) && i < |events|
    ensures states[i].active != Some(t) && states[i + 1].active == Some(t)
       <==> Asks(states[i], events[i], t)
            && (states[i].active.None? || exists l :: TakesOver(states[i], events[i], t, l))
  {
    RunsKeepInv(states, events, i);
    if Asks(states[i], events[i], t) {
      AskingDecides(states[i], events[i], t);
      AskerIsNotActive(states[i], events[i], t);
    } else if states[i].active != Some(t) && states[i + 1].active == Some(t) {
      OnlyAskingActivates(states[i], events[i], t);
    }
  }

  // ---------------------------------------------------------------- arming

  // The step starts a write under the work ID of the lease while that is active.
  predicate StartsUnder(s: State, e: Event, t: nat) {
    e.StartWrite? && s.active == Some(t) && t in s.calls && e.write.workId == s.calls[t].workId
  }

  lemma StepArms(s: State, e: Event, t: nat)
    requires Inv(s) && Enabled(s, e)
    ensures t in Step(s, e).armed <==> t in s.armed || StartsUnder(s, e, t)
  {
    match e
    case Unwind(u) => UnwindingArmsNothing(s, u);
    case Close(l) => ClosingArmsNothing(s, l);
    case _ =>
  }

  ghost predicate StartedUnder(states: seq<State>, events: seq<Event>, j: nat, t: nat)
    requires j <= |events| < |states|
  {
    exists i :: 0 <= i < j && StartsUnder(states[i], events[i], t)
  }

  lemma StartsAreCounted(states: seq<State>, events: seq<Event>, n: nat, t: nat)
    requires n < |events| < |states|
    ensures StartedUnder(states, events, n + 1, t) <==> StartedUnder(states, events, n, t) || StartsUnder(states[n], events[n], t)
  {
  }

  // A lease is armed if and only if, while it was active, a write started under its work ID.
  lemma {:induction false} ArmedExactlyWhen(states: seq<State>, events: seq<Event>, j: nat, t: nat)
    requires IsRun(states, events) && j < |states|
    ensures t in states[j].armed <==> StartedUnder(states, events, j, t)
  {
    if j > 0 {
      var n := j - 1;
      var s, e := states[n], events[n];
      RunsKeepInv(states, events, n);
      ArmedExactlyWhen(states, events, n, t);
      StepArms(s, e, t);
      StartsAreCounted(states, events, n, t);
    }
  }

  // ---------------------------------------------------------------- responses

  // The step gives the lease its response: a reply delivered from a chunk that was taken up while
  // the lease was active and armed, the takeover by Safety work, or the end of the session.
  predicate Answers(s: State, e: Event, t: nat, r: Reply) {
    t !in s.responses
    && match r
       case Result(_) => e == Deliver(Some(r)) && s.dispatcher == Captured(Some(t))
       case DeviceError => e == Deliver(Some(r)) && s.dispatcher == Captured(Some(t))
       case Preempted => (e.Begin? && TakesOver(s, e, s.serials, t)) || (e.Retry? && TakesOver(s, e, e.t, t))
       case Closed => e == Close(t) && t in s.closing && s.closing[t] == Resolving
  }

  lemma OthersAnswerNothing(s: State, e: Event)
    requires Enabled(s, e) && !e.Begin? && !e.Retry? && !e.Deliver? && !e.Close?
    ensures Step(s, e).responses == s.responses
  {
  }

  lemma DeliveryAnswers(s: State, reply: Option<Reply>, t: nat, r: Reply)
    requires Enabled(s, Deliver(reply))
    ensures t in Step(s, Deliver(reply)).responses && Step(s, Deliver(reply)).responses[t] == r
       <==> (t in s.responses && s.responses[t] == r) || Answers(s, Deliver(reply), t, r)
  {
  }

  lemma ClosingAnswers(s: State, l: nat, t: nat, r: Reply)
    requires Enabled(s, Close(l))
    ensures t in Step(s, Close(l)).responses && Step(s, Close(l)).responses[t] == r
       <==> (t in s.responses && s.responses[t] == r) || Answers(s, Close(l), t, r)
  {
  }

  lemma TrySetGives(cells: map<nat, Reply>, l: nat, x: Reply, t: nat, r: Reply)
    ensures t in TrySet(cells, l, x) && TrySet(cells, l, x)[t] == r
       <==> (t in cells && cells[t] == r) || (t !in cells && t == l && r == x)
  {
  }

  lemma AskingAnswers(s: State, e: Event, u: nat, t: nat, r: Reply)
    requires Inv(s) && Enabled(s, e) && Asks(s, e, u)
    ensures t in Step(s, e).responses && Step(s, e).responses[t] == r
       <==> (t in s.responses && s.responses[t] == r) || (t !in s.responses && r == Preempted && TakesOver(s, e, u, t))
  {
    AskingDecides(s, e, u);
    var after := Step(s, e).responses;
    if s.active.Some? && TakesOver(s, e, u, s.active.value) {
      TrySetGives(s.responses, s.active.value, Preempted, t, r);
      assert after == TrySet(s.responses, s.active.value, Preempted);
    } else {
      assert after == s.responses;
    }
  }

  lemma StepAnswers(s: State, e: Event, t: nat, r: Reply)
    requires Inv(s) && Enabled(s, e)
    ensures t in Step(s, e).responses && Step(s, e).responses[t] == r
       <==> (t in s.responses && s.responses[t] == r) || Answers(s, e, t, r)
  {
    match e
    case Begin(_) => AskingAnswers(s, e, s.serials, t, r);
    case Retry(u) => AskingAnswers(s, e, u, t, r);
    case Deliver(reply) => DeliveryAnswers(s, reply, t, r);
    case Close(l) => ClosingAnswers(s, l, t, r);
    case _ => OthersAnswerNothing(s, e);
  }

  ghost predicate WasAnswered(states: seq<State>, events: seq<Event>, j: nat, t: nat, r: Reply)
    requires j <= |events| < |states|
  {
    exists i :: 0 <= i < j && Answers(states[i], events[i], t, r)
  }

  lemma AnswersAreCounted(states: seq<State>, events: seq<Event>, n: nat, t: nat, r: Reply)
    requires n < |events| < |states|
    ensures WasAnswered(states, events, n + 1, t, r) <==> WasAnswered(states, events, n, t, r) || Answers(states[n], events[n], t, r)
  {
  }

  // A lease has a response if and only if a step gave it that one.
  lemma {:induction false} AnsweredExactlyWhen(states: seq<State>, events: seq<Event>, j: nat, t: nat, r: Reply)
    requires IsRun(states, events) && j < |states|
    ensures t in states[j].responses && states[j].responses[t] == r <==> WasAnswered(states, events, j, t, r)
  {
    if j > 0 {
      var n := j - 1;
      var s, e := states[n], events[n];
      RunsKeepInv(states, events, n);
      AnsweredExactlyWhen(states, events, n, t, r);
      StepAnswers(s, e, t, r);
      AnswersAreCounted(states, events, n, t, r);
    }
  }

  // The i-th step took a chunk up with the lease active and armed, and none of the steps up to the
  // j-th delivered from it.
  predicate TookUpFor(states: seq<State>, events: seq<Event>, i: nat, j: nat, t: nat) {
    && i < j <= |events| < |states| && events[i] == Capture && states[i].active == Some(t) && t in states[i].armed
    && forall m :: i < m < j ==> !events[m].Deliver?
  }

  lemma EndingLeavesDispatcher(s: State, e: Event)
    requires Enabled(s, e) && (e.Unwind? || e.Close?)
    ensures Step(s, e).dispatcher == s.dispatcher
  {
  }

  lemma OthersLeaveDispatcher(s: State, e: Event)
    requires Enabled(s, e) && e != Capture && !e.Deliver?
    ensures Step(s, e).dispatcher == s.dispatcher
  {
    if e.Unwind? || e.Close? {
      EndingLeavesDispatcher(s, e);
    }
  }

  // What the dispatcher delivers goes to the lease that was active and armed when the chunk came,
  // whoever is active by then.
  lemma {:induction false} CapturedExactlyWhen(states: seq<State>, events: seq<Event>, j: nat, t: nat)
    requires IsRun(states, events) && j < |states|
    ensures states[j].dispatcher == Captured(Some(t)) <==> exists i: nat :: TookUpFor(states, events, i, j, t)
  {
    if j > 0 {
      var n := j - 1;
      CapturedExactlyWhen(states, events, n, t);
      if events[n] != Capture && !events[n].Deliver? {
        OthersLeaveDispatcher(states[n], events[n]);
      }
      TakingUpGoesOn(states, events, n, j, t);
    }
  }

  lemma TakingUpGoesOn(states: seq<State>, events: seq<Event>, n: nat, j: nat, t: nat)
    requires IsRun(states, events) && j == n + 1 <= |events|
    requires states[n].dispatcher == Captured(Some(t)) <==> exists i: nat :: TookUpFor(states, events, i, n, t)
    ensures (exists i: nat :: TookUpFor(states, events, i, j, t))
       <==> if events[n] == Capture then states[n].active == Some(t) && t in states[n].armed
            else !events[n].Deliver? && exists i: nat :: TookUpFor(states, events, i, n, t)
  {
    if events[n] == Capture && states[n].active == Some(t) && t in states[n].armed {
      assert TookUpFor(states, events, n, j, t);
    }
    if i: nat :| TookUpFor(states, events, i, n, t) {
      if !events[n].Deliver? {
        assert TookUpFor(states, events, i, j, t);
      }
    }
    if i: nat :| TookUpFor(states, events, i, j, t) && i < n {
      assert TookUpFor(states, events, i, n, t);
    }
  }

  // ---------------------------------------------------------------- fences and writes

  // The lease took over the fence of the other.
  predicate Inherited(s: State, u: nat, t: nat) {
    u in s.preempts && s.preempts[u] == t
  }

  // If the lease took over a fence, that is released.
  ghost predicate TakenFenceFell(s: State, t: nat) {
    forall u :: Inherited(s, t, u) ==> u in s.fences
  }

  lemma UnwindingReleases(s: State, u: nat, t: nat)
    requires Enabled(s, Unwind(u))
    ensures t in Step(s, Unwind(u)).fences
       <==> t in s.fences || (u == t && s.phase[t] == UnwindFence) || (s.phase[u] == UnwindPreempted && Inherited(s, u, t))
  {
  }

  lemma ClosingReleases(s: State, l: nat, t: nat)
    requires Enabled(s, Close(l))
    ensures t in Step(s, Close(l)).fences
       <==> t in s.fences || (l == t && s.closing[t] == ReleasingFence) || (s.closing[l] == ReleasingPreempted && Inherited(s, l, t))
  {
  }

  lemma OthersReleaseNothing(s: State, e: Event)
    requires Enabled(s, e) && !e.AfterQueue? && !e.Unwind? && !e.Close?
    ensures Step(s, e).fences == s.fences
  {
  }

  // The fence of a transaction falls at its own unwinding or closing, or with the lease that took
  // it over: once that queued its write, unwinds, or is closed.
  lemma FenceFallsExactlyWhen(states: seq<State>, events: seq<Event>, i: nat, t: nat)
    requires IsRun(states, events) && i < |events|
    ensures var (s, e) := (states[i], events[i]);
      t in states[i + 1].fences
      <==> || t in s.fences
           || (e == Unwind(t) && s.phase[t] == UnwindFence)
           || (e == Close(t) && s.closing[t] == ReleasingFence)
           || (e.AfterQueue? && Inherited(s, e.t, t))
           || (e.Unwind? && s.phase[e.t] == UnwindPreempted && Inherited(s, e.t, t))
           || (e.Close? && s.closing[e.lease] == ReleasingPreempted && Inherited(s, e.lease, t))
  {
    match events[i]
    case Unwind(u) => UnwindingReleases(states[i], u, t);
    case Close(l) => ClosingReleases(states[i], l, t);
    case AfterQueue(_) =>
    case _ => OthersReleaseNothing(states[i], events[i]);
  }

  // A write is queued for a transaction exactly when the scheduler accepts it and its work ID is
  // neither queued nor being written; the transaction then awaits, and otherwise unwinds.
  lemma QueuesExactlyWhen(s: State, t: nat, accepted: bool)
    requires Inv(s) && Enabled(s, QueueOwn(t, accepted))
    ensures var s' := Step(s, QueueOwn(t, accepted));
      var live := exists w :: (w in s.pool || w in s.writing) && w.workId == s.calls[t].workId;
      && s'.pool == (if accepted && !live then s.pool + {Write(s.calls[t].workId, Some(t), s.serials)} else s.pool)
      && s'.phase[t] == if live then UnwindPreempted else Queued(accepted)
  {
    if w :| (w in s.pool || w in s.writing) && w.workId == s.calls[t].workId {
      assert w in s.pool + s.writing;
    }
  }

  ghost predicate IsLive(s: State, workId: string) {
    exists w :: (w in s.pool || w in s.writing) && w.workId == workId
  }

  // The step queues the write: the accepted one of a transaction, or one nobody observes.
  ghost predicate Queues(s: State, e: Event, w: Write) {
    && w.serial == s.serials && !IsLive(s, w.workId)
    && ((e.QueueOwn? && e.accepted && e.t in s.calls && w.owner == Some(e.t) && w.workId == s.calls[e.t].workId)
        || (e == QueueForeign(w.workId) && w.owner == None))
  }

  lemma LiveIsLive(s: State, workId: string)
    ensures IsLive(s, workId) <==> IdLive(s, workId)
  {
    if w :| (w in s.pool || w in s.writing) && w.workId == workId {
      assert w in s.pool + s.writing;
    }
  }

  lemma QueueingMovesWrites(s: State, e: Event, w: Write)
    requires Enabled(s, e) && (e.QueueOwn? || e.QueueForeign?)
    ensures (w in Step(s, e).pool <==> w in s.pool || Queues(s, e, w)) && Step(s, e).writing == s.writing
  {
    LiveIsLive(s, if e.QueueOwn? then s.calls[e.t].workId else e.workId);
  }

  lemma OthersLeaveWrites(s: State, e: Event)
    requires Enabled(s, e) && !e.QueueOwn? && !e.QueueForeign? && !e.StartWrite? && !e.EndWrite? && !e.DropWrite?
    ensures Step(s, e).pool == s.pool && Step(s, e).writing == s.writing
  {
    match e
    case Unwind(t) => UnwindingLeavesWrites(s, t);
    case Close(l) => ClosingLeavesWrites(s, l);
    case _ =>
  }

  lemma UnwindingLeavesWrites(s: State, t: nat)
    requires Enabled(s, Unwind(t))
    ensures Step(s, Unwind(t)).pool == s.pool && Step(s, Unwind(t)).writing == s.writing
  {
  }

  lemma ClosingLeavesWrites(s: State, l: nat)
    requires Enabled(s, Close(l))
    ensures Step(s, Close(l)).pool == s.pool && Step(s, Close(l)).writing == s.writing
  {
  }

  // A write is queued from the step that queues it until it starts or is dropped, and being written
  // from then until it ends; in all that time its work ID is refused to others, and no longer.
  lemma WritesExactlyWhen(states: seq<State>, events: seq<Event>, i: nat, w: Write)
    requires IsRun(states, events) && i < |events|
    ensures var (s, e, s') := (states[i], events[i], states[i + 1]);
      && (w in s'.pool <==> (w in s.pool && e != StartWrite(w) && e != DropWrite(w)) || Queues(s, e, w))
      && (w in s'.writing <==> (w in s.writing && e != EndWrite(w)) || e == StartWrite(w))
  {
    var s, e := states[i], events[i];
    if e.QueueOwn? || e.QueueForeign? {
      QueueingMovesWrites(s, e, w);
    } else if !e.StartWrite? && !e.EndWrite? && !e.DropWrite? {
      OthersLeaveWrites(s, e);
    }
  }

  // ---------------------------------------------------------------- waiting and closing

  lemma AskerWaits(s: State, e: Event, u: nat, t: nat)
    requires Inv(s) && Enabled(s, e) && Asks(s, e, u)
    ensures t in Step(s, e).waiting <==> if t == u then Step(s, e).active != Some(u) else t in s.waiting
  {
    AskingDecides(s, e, u);
    AskerIsNotActive(s, e, u);
  }

  lemma EndingLeavesWaiting(s: State, e: Event)
    requires Enabled(s, e) && (e.Unwind? || e.Close?)
    ensures Step(s, e).waiting == s.waiting
  {
  }

  lemma OthersLeaveWaiting(s: State, e: Event)
    requires Enabled(s, e) && !e.Begin? && !e.Retry? && !e.Abandon?
    ensures Step(s, e).waiting == s.waiting
  {
    if e.Unwind? || e.Close? {
      EndingLeavesWaiting(s, e);
    }
  }

  // A transaction waits from an asking that did not get the lease until it asks again and gets it,
  // or is abandoned.
  lemma WaitsExactlyWhen(states: seq<State>, events: seq<Event>, i: nat, t: nat)
    requires IsRun(states, events) && i < |events|
    ensures t in states[i + 1].waiting
       <==> if Asks(states[i], events[i], t) then states[i + 1].active != Some(t)
            else t in states[i].waiting && events[i] != Abandon(t)
  {
    RunsKeepInv(states, events, i);
    var s, e := states[i], events[i];
    match e
    case Begin(_) => AskerWaits(s, e, s.serials, t);
    case Retry(u) => AskerWaits(s, e, u, t);
    case Abandon(_) =>
    case _ => OthersLeaveWaiting(s, e);
  }

  // A lease on its way to being closed has done what its place says: answered its caller, then
  // released its fence, then the one it took over.
  ghost predicate ClosesInOrder(s: State, t: nat) {
    t in s.closing ==>
      && (s.closing[t] != Resolving ==> t in s.responses)
      && (s.closing[t] == ReleasingPreempted || s.closing[t] == Announcing ==> t in s.fences)
      && (s.closing[t] == Announcing ==> TakenFenceFell(s, t))
  }

  // Answers and fences are never taken back, and only asking hands a fence on.
  ghost predicate Grows(s: State, s': State, t: nat) {
    && s.responses.Keys <= s'.responses.Keys && s.fences <= s'.fences && s'.closing == s.closing
    && forall u :: Inherited(s', t, u) <==> Inherited(s, t, u)
  }

  lemma AcquiringGrows(s: State, u: nat, call: Call, t: nat)
    requires t != u
    ensures Grows(s, Acquire(s, u, call), t)
  {
  }

  lemma UnwindingGrows(s: State, u: nat, t: nat)
    requires Enabled(s, Unwind(u))
    ensures Grows(s, Step(s, Unwind(u)), t)
  {
  }

  lemma DeliveryGrows(s: State, reply: Option<Reply>, t: nat)
    requires Enabled(s, Deliver(reply))
    ensures Grows(s, Step(s, Deliver(reply)), t)
  {
  }

  lemma OthersGrow(s: State, e: Event, t: nat)
    requires Enabled(s, e) && !e.Close? && e != TakeActive
    requires !e.Unwind? && !e.Begin? && !e.Retry? && !e.Deliver?
    ensures Grows(s, Step(s, e), t)
  {
  }

  lemma StepGrows(s: State, e: Event, t: nat)
    requires Enabled(s, e) && !e.Close? && e != TakeActive && !Asks(s, e, t)
    ensures Grows(s, Step(s, e), t)
  {
    match e
    case Unwind(u) => UnwindingGrows(s, u, t);
    case Begin(call) => AcquiringGrows(s.(calls := s.calls[s.serials := call], serials := s.serials + 1), s.serials, call, t);
    case Retry(u) => AcquiringGrows(s, u, s.calls[u], t);
    case Deliver(reply) => DeliveryGrows(s, reply, t);
    case _ => OthersGrow(s, e, t);
  }

  lemma ClosingLeaseAsksNothing(s: State, e: Event, t: nat)
    requires Inv(s) && Enabled(s, e) && t in s.closing
    ensures !Asks(s, e, t)
  {
  }

  lemma ClosingKeepsOrder(s: State, l: nat, t: nat)
    requires Enabled(s, Close(l)) && ClosesInOrder(s, t)
    ensures ClosesInOrder(Step(s, Close(l)), t)
  {
  }

  lemma ClosingComesFrom(s: State, e: Event, t: nat)
    requires Enabled(s, e) && !e.Close? && e != TakeActive
    ensures Step(s, e).closing == s.closing
  {
    if e.Unwind? {
      UnwindingGrows(s, e.t, t);
    }
  }

  lemma {:induction false} LeasesCloseInOrder(states: seq<State>, events: seq<Event>, j: nat, t: nat)
    requires IsRun(states, events) && j < |states|
    ensures ClosesInOrder(states[j], t)
  {
    if j > 0 {
      var s, e := states[j - 1], events[j - 1];
      LeasesCloseInOrder(states, events, j - 1, t);
      if e.Close? {
        ClosingKeepsOrder(s, e.lease, t);
      } else if e != TakeActive {
        ClosingComesFrom(s, e, t);
        if t in s.closing {
          RunsKeepInv(states, events, j - 1);
          ClosingLeaseAsksNothing(s, e, t);
          StepGrows(s, e, t);
        }
      }
    }
  }

  lemma LastStepOfClosing(s: State, l: nat)
    requires Enabled(s, Close(l)) && ClosesInOrder(s, l) && l !in Step(s, Close(l)).closing
    ensures var s' := Step(s, Close(l));
      && l in s'.responses && l in s'.fences && l in s'.released
      && TakenFenceFell(s', l)
  {
  }

  lemma ClosingIsLeftByItsLastStep(s: State, e: Event, l: nat)
    requires Enabled(s, e) && l in s.closing && l !in Step(s, e).closing
    ensures e == Close(l)
  {
    if !e.Close? && e != TakeActive {
      ClosingComesFrom(s, e, l);
    }
  }

  // Cancelling the active lease is thorough: it is closing from that step on, and when the last
  // step of its closing is done its caller has an answer, its fences are released, and its waiters
  // are woken.
  lemma CancellationIsThorough(states: seq<State>, events: seq<Event>, i: nat, l: nat)
    requires IsRun(states, events) && i < |events|
    ensures events[i] == TakeActive && states[i].active == Some(l) ==>
      l in states[i + 1].closing && states[i + 1].active == None
    ensures l in states[i].closing && l !in states[i + 1].closing ==>
      && events[i] == Close(l) && l in states[i + 1].responses && l in states[i + 1].fences && l in states[i + 1].released
      && TakenFenceFell(states[i + 1], l)
  {
    if l in states[i].closing && l !in states[i + 1].closing {
      ClosingIsLeftByItsLastStep(states[i], events[i], l);
      LeasesCloseInOrder(states, events, i, l);
      LastStepOfClosing(states[i], l);
    }
  }

  // ---------------------------------------------------------------- leaving

  function StepsToFinish(p: Phase): nat {
    match p
    case UnwindPreempted => 4
    case UnwindFence => 3
    case UnwindLease => 2
    case UnwindReleased => 1
    case _ => 0
  }

  // The transaction enters its final steps: it returns or fails, its write was refused, or its work
  // ID is live.
  ghost predicate Leaves(s: State, e: Event, t: nat) {
    || e == Leave(t)
    || (e == AfterQueue(t) && t in s.phase && s.phase[t] == Queued(false))
    || (e.QueueOwn? && e.t == t && t in s.calls && IsLive(s, s.calls[t].workId))
  }

  lemma LeavingUnwinds(s: State, e: Event, t: nat)
    requires Enabled(s, e) && Leaves(s, e, t)
    ensures t in Step(s, e).phase && Step(s, e).phase[t] == UnwindPreempted
  {
    if e.QueueOwn? {
      LiveIsLive(s, s.calls[t].workId);
    }
  }

  lemma UnwindingGoesOn(s: State, t: nat)
    requires Enabled(s, Unwind(t))
    ensures var p := Step(s, Unwind(t)).phase[t];
      Unwinding(p) && StepsToFinish(p) == StepsToFinish(s.phase[t]) - 1
  {
    var next := match s.phase[t]
                case UnwindPreempted => UnwindFence
                case UnwindFence => UnwindLease
                case UnwindLease => UnwindReleased
                case _ => Finished;
    assert Step(s, Unwind(t)).phase == s.phase[t := next];
  }

  lemma OthersLeaveUnwinding(s: State, e: Event, t: nat)
    requires Inv(s) && Enabled(s, e) && e != Unwind(t) && t in s.phase && Unwinding(s.phase[t])
    ensures t in Step(s, e).phase && Step(s, e).phase[t] == s.phase[t]
  {
    match e
    case Close(l) => ClosingLeavesPhases(s, l);
    case Begin(call) => AcquiringLeavesOthers(s.(calls := s.calls[s.serials := call], serials := s.serials + 1), s.serials, call, t);
    case Retry(u) => AcquiringLeavesOthers(s, u, s.calls[u], t);
    case Unwind(u) => UnwindingLeavesOthers(s, u, t);
    case _ => WritersLeaveUnwinding(s, e, t);
  }

  lemma WritersLeaveUnwinding(s: State, e: Event, t: nat)
    requires Enabled(s, e) && !e.Close? && !e.Begin? && !e.Retry? && !e.Unwind? && t in s.phase && Unwinding(s.phase[t])
    ensures t in Step(s, e).phase && Step(s, e).phase[t] == s.phase[t]
  {
  }

  lemma UnwindingLeavesOthers(s: State, u: nat, t: nat)
    requires Enabled(s, Unwind(u)) && t != u && t in s.phase
    ensures t in Step(s, Unwind(u)).phase && Step(s, Unwind(u)).phase[t] == s.phase[t]
  {
  }

  lemma ClosingLeavesPhases(s: State, l: nat)
    requires Enabled(s, Close(l))
    ensures Step(s, Close(l)).phase == s.phase
  {
  }

  lemma AcquiringLeavesOthers(s: State, u: nat, call: Call, t: nat)
    requires t != u && t in s.phase
    ensures t in Acquire(s, u, call).phase && Acquire(s, u, call).phase[t] == s.phase[t]
  {
  }

  function Unwinds(events: seq<Event>, t: nat): nat {
    if events == [] then 0 else (if events[0] == Unwind(t) then 1 else 0) + Unwinds(events[1..], t)
  }

  lemma {:induction false} UnwindingEnds(states: seq<State>, events: seq<Event>, i: nat, j: nat, t: nat)
    requires IsRun(states, events) && i <= j < |states| && t in states[i].phase && Unwinding(states[i].phase[t])
    requires Unwinds(events[i..j], t) >= StepsToFinish(states[i].phase[t])
    ensures t in states[j].phase && states[j].phase[t] == Finished
    decreases j - i
  {
    if i < j {
      assert events[i..j][1..] == events[i + 1..j];
      RunsKeepInv(states, events, i);
      if events[i] == Unwind(t) {
        UnwindingGoesOn(states[i], t);
      } else {
        OthersLeaveUnwinding(states[i], events[i], t);
      }
      UnwindingEnds(states, events, i + 1, j, t);
    }
  }

  // However a transaction ends, four more steps of its own later it has released its fence and the
  // one it took over, does not hold the lease, and its waiters are woken, by itself or by the
  // session that took the lease from it.
  lemma LeaverReleasesEverything(states: seq<State>, events: seq<Event>, i: nat, j: nat, t: nat)
    requires IsRun(states, events) && i < j < |states| && Leaves(states[i], events[i], t)
    requires Unwinds(events[i + 1..j], t) >= 4
    ensures t in states[j].fences && states[j].active != Some(t)
    ensures TakenFenceFell(states[j], t)
    ensures t in states[j].released || t in states[j].closing
  {
    LeavingUnwinds(states[i], events[i], t);
    UnwindingEnds(states, events, i + 1, j, t);
    RunsKeepInv(states, events, j);
    FinishedHasReleased(states[j], t);
  }

  lemma FinishedHasReleased(s: State, t: nat)
    requires Inv(s) && t in s.phase && s.phase[t] == Finished
    ensures t in s.fences && s.active != Some(t) && (t in s.released || t in s.closing)
    ensures TakenFenceFell(s, t)
  {
    assert TakenOver(s, t) <= s.fences;
  }
}
