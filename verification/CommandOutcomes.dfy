/**
From how the core of a command ends to the status its runner reports and to the safety latch,
stated on the events of a run.
*/
module CommandOutcomes {
  import opened Wrappers
  import opened GatewayContracts
  import opened CommandHistory
  import opened CommandEngine

  // A run with its states, from a fresh gateway.
  ghost predicate IsTrace(capacity: nat, states: seq<Gateway>, events: seq<Event>) {
    && |states| == |events| + 1
    && states[0] == Initial(capacity)
    && forall i :: 0 <= i < |events| ==> Enabled(states[i], events[i]) && states[i + 1] == Step(states[i], events[i])
  }

  lemma {:induction false} TracesKeepInv(capacity: nat, states: seq<Gateway>, events: seq<Event>, i: nat)
    requires IsTrace(capacity, states, events) && i < |states|
    ensures Inv(states[i])
  {
    if i > 0 {
      TracesKeepInv(capacity, states, events, i - 1);
      StepKeepsInv(states[i - 1], events[i - 1]);
    }
  }

  // ---------------------------------------------------------------- the life of a runner

  // The k-th step submitted the request of the runner.
  ghost predicate SubmittedAt(states: seq<Gateway>, events: seq<Event>, k: nat, t: nat) {
    && k < |events| < |states|
    && events[k].Submit? && states[k].next == t && t in states[k + 1].runners
  }

  lemma StepKeepsRunner(g: Gateway, e: Event, t: nat)
    requires Enabled(g, e) && t in Step(g, e).runners
    ensures t in g.runners || (e.Submit? && t == g.next && Step(g, e).runners[t] == Runner(e.spec.id, e.spec.stop, Starting))
    ensures t in g.runners && t < g.next ==>
      Step(g, e).runners[t].id == g.runners[t].id && Step(g, e).runners[t].stop == g.runners[t].stop
  {
  }

  lemma {:induction false} RunnerWasSubmitted(capacity: nat, states: seq<Gateway>, events: seq<Event>, n: nat, t: nat)
    returns (k: nat)
    requires IsTrace(capacity, states, events) && n < |states| && t in states[n].runners
    ensures k < n && SubmittedAt(states, events, k, t)
    ensures states[n].runners[t].id == events[k].spec.id && states[n].runners[t].stop == events[k].spec.stop
  {
    var g, e := states[n - 1], events[n - 1];
    TracesKeepInv(capacity, states, events, n - 1);
    StepKeepsRunner(g, e, t);
    if t in g.runners {
      k := RunnerWasSubmitted(capacity, states, events, n - 1, t);
    } else {
      k := n - 1;
    }
  }

  predicate IsPastDeciding(g: Gateway, t: nat, status: CommandStatus) {
    && t in g.runners
    && (g.runners[t].phase == Decided(status) || g.runners[t].phase.Reported? || g.runners[t].phase.Finished?
        || g.runners[t].phase.Ended?)
  }

  lemma StepKeepsPast(g: Gateway, e: Event, t: nat, status: CommandStatus)
    requires Inv(g) && Enabled(g, e) && IsPastDeciding(g, t, status)
    ensures IsPastDeciding(Step(g, e), t, status)
  {
    assert t < g.next;
  }

  lemma {:induction false} PastStaysPast(
    capacity: nat, states: seq<Gateway>, events: seq<Event>, i: nat, j: nat, t: nat, status: CommandStatus)
    requires IsTrace(capacity, states, events) && i <= j < |states| && IsPastDeciding(states[i], t, status)
    ensures IsPastDeciding(states[j], t, status)
    decreases j - i
  {
    if i < j {
      TracesKeepInv(capacity, states, events, i);
      StepKeepsPast(states[i], events[i], t, status);
      PastStaysPast(capacity, states, events, i + 1, j, t, status);
    }
  }

  lemma StepKeepsNext(g: Gateway, e: Event)
    requires Inv(g) && Enabled(g, e)
    ensures g.next <= Step(g, e).next
    ensures e.Submit? && g.next in Step(g, e).runners ==> g.next < Step(g, e).next
  {
  }

  lemma {:induction false} NextNeverFalls(capacity: nat, states: seq<Gateway>, events: seq<Event>, i: nat, j: nat)
    requires IsTrace(capacity, states, events) && i <= j < |states|
    ensures states[i].next <= states[j].next
    decreases j - i
  {
    if i < j {
      TracesKeepInv(capacity, states, events, i);
      StepKeepsNext(states[i], events[i]);
      NextNeverFalls(capacity, states, events, i + 1, j);
    }
  }

  lemma SubmittedBefore(capacity: nat, states: seq<Gateway>, events: seq<Event>, k: nat, l: nat, t: nat)
    requires IsTrace(capacity, states, events) && SubmittedAt(states, events, k, t) && SubmittedAt(states, events, l, t)
    ensures k >= l
  {
    if k < l {
      TracesKeepInv(capacity, states, events, k);
      StepKeepsNext(states[k], events[k]);
      NextNeverFalls(capacity, states, events, k + 1, l);
    }
  }

  lemma SubmittedOnce(capacity: nat, states: seq<Gateway>, events: seq<Event>, k: nat, n: nat, t: nat)
    requires IsTrace(capacity, states, events) && SubmittedAt(states, events, k, t) && n < |states| && t in states[n].runners
    ensures states[n].runners[t].stop == events[k].spec.stop && states[n].runners[t].id == events[k].spec.id
  {
    var l := RunnerWasSubmitted(capacity, states, events, n, t);
    SubmittedBefore(capacity, states, events, k, l, t);
    SubmittedBefore(capacity, states, events, l, k, t);
  }

  // ---------------------------------------------------------------- the reported status

  // The runner was submitted by the k-th step, its core ended in the i-th, and it reported in the j-th.
  ghost predicate EndedAs(states: seq<Gateway>, events: seq<Event>, k: nat, i: nat, j: nat, t: nat, ending: Ending) {
    && i < j < |events| && SubmittedAt(states, events, k, t)
    && events[i] == Decide(t, ending) && events[j] == Report(t)
  }

  // What a runner reports, case by case: a cancelled motion command reports Cancelled, even if its
  // core returned something else or failed with the closing of the line; a stop reports what its
  // core returned; a query that ran out of time reports TimedOut; every other error Failed.
  lemma EndingDecidesReport(
    capacity: nat, states: seq<Gateway>, events: seq<Event>, k: nat, i: nat, j: nat, t: nat, ending: Ending)
    requires IsTrace(capacity, states, events) && EndedAs(states, events, k, i, j, t, ending)
    ensures t in states[j + 1].runners && states[j + 1].runners[t].phase.Reported?
    ensures var status, cancelled := states[j + 1].runners[t].phase.status, t in states[i].cancelled;
      && (ending == ThrowsQueryTimeout ==> status == TimedOut)
      && (ending == ThrowsProtocol ==> status == Failed)
      && (ending == ThrowsOther ==> status == Failed)
      && (ending == ThrowsIo && !cancelled ==> status == Failed)
      && (ending == ThrowsCancelled && !cancelled ==> status == Failed)
      && (ending == ThrowsIo && cancelled ==> status == Cancelled)
      && (ending == ThrowsCancelled && cancelled ==> status == Cancelled)
      && (ending.Returns? && cancelled && !events[k].spec.stop ==> status == Cancelled)
      && (ending.Returns? && (events[k].spec.stop || !cancelled) ==> status == ending.status)
  {
    SubmittedOnce(capacity, states, events, k, i, t);
    var status := Outcome(states[i].runners[t].stop, t in states[i].cancelled, ending);
    PastStaysPast(capacity, states, events, i + 1, j, t, status);
  }

  // ---------------------------------------------------------------- the latch

  // The endings after which the state of the arm is unknown.
  predicate Alarms(stop: bool, cancelled: bool, ending: Ending) {
    || ending == ThrowsQueryTimeout || ending == ThrowsProtocol || ending == ThrowsOther
    || (ending == ThrowsIo && !cancelled) || (ending == ThrowsCancelled && !cancelled)
    || ((stop || !cancelled)
        && (ending == Returns(Unconfirmed) || ending == Returns(Failed) || ending == Returns(TimedOut)))
  }

  // The report of the j-th step sets the latch.
  ghost predicate SetsLatch(states: seq<Gateway>, events: seq<Event>, j: nat) {
    exists k: nat, i: nat, t, ending ::
      EndedAs(states, events, k, i, j, t, ending) && Alarms(events[k].spec.stop, t in states[i].cancelled, ending)
  }

  // The step opens the latch: a reset, or the report of a stop whose core returned Completed.
  ghost predicate OpensLatch(states: seq<Gateway>, events: seq<Event>, j: nat) {
    && j < |events|
    && (events[j] == ClearLatch
        || exists k: nat, i: nat, t :: EndedAs(states, events, k, i, j, t, Returns(Completed)) && events[k].spec.stop)
  }

  lemma DecidedByAnEnding(capacity: nat, states: seq<Gateway>, events: seq<Event>, n: nat, t: nat) returns (i: nat, ending: Ending)
    requires IsTrace(capacity, states, events) && n < |states| && t in states[n].runners && states[n].runners[t].phase.Decided?
    ensures i < n && events[i] == Decide(t, ending)
  {
    var g, e := states[n - 1], events[n - 1];
    TracesKeepInv(capacity, states, events, n - 1);
    StepKeepsRunner(g, e, t);
    if t in g.runners && g.runners[t].phase.Decided? {
      i, ending := DecidedByAnEnding(capacity, states, events, n - 1, t);
    } else {
      OnlyDecideDecides(g, e, t);
      i, ending := n - 1, e.ending;
    }
  }

  lemma OnlyDecideDecides(g: Gateway, e: Event, t: nat)
    requires Inv(g) && Enabled(g, e) && t in Step(g, e).runners && Step(g, e).runners[t].phase.Decided?
    requires !(t in g.runners && g.runners[t].phase.Decided?)
    ensures e.Decide? && e.token == t
  {
  }

  lemma ReportMovesLatch(
    capacity: nat, states: seq<Gateway>, events: seq<Event>, k: nat, i: nat, j: nat, t: nat, ending: Ending)
    requires IsTrace(capacity, states, events) && EndedAs(states, events, k, i, j, t, ending)
    ensures states[j + 1].latched
       <==> || Alarms(events[k].spec.stop, t in states[i].cancelled, ending)
            || (states[j].latched && !(events[k].spec.stop && ending == Returns(Completed)))
  {
    EndingDecidesReport(capacity, states, events, k, i, j, t, ending);
    SubmittedOnce(capacity, states, events, k, j, t);
  }

  lemma OthersKeepLatch(g: Gateway, e: Event)
    requires Enabled(g, e) && !e.Report?
    ensures Step(g, e).latched == (g.latched && e != ClearLatch)
  {
  }

  lemma EndedOnce(capacity: nat, states: seq<Gateway>, events: seq<Event>, i: nat, l: nat, j: nat, t: nat, a: Ending, b: Ending)
    requires IsTrace(capacity, states, events) && i <= l < j < |events|
    requires events[i] == Decide(t, a) && events[l] == Decide(t, b)
    ensures i == l && a == b
  {
    if i < l {
      var status := Outcome(states[i].runners[t].stop, t in states[i].cancelled, a);
      PastStaysPast(capacity, states, events, i + 1, l, t, status);
    }
  }

  lemma ReportHasAnEnding(capacity: nat, states: seq<Gateway>, events: seq<Event>, j: nat)
    returns (k: nat, i: nat, ending: Ending)
    requires IsTrace(capacity, states, events) && j < |events| && events[j].Report?
    ensures EndedAs(states, events, k, i, j, events[j].token, ending)
  {
    var t := events[j].token;
    i, ending := DecidedByAnEnding(capacity, states, events, j, t);
    k := RunnerWasSubmitted(capacity, states, events, j, t);
  }

  // Each step: afterwards the latch is set if and only if the step sets it, or it was set and the
  // step does not open it.
  lemma StepMovesLatch(capacity: nat, states: seq<Gateway>, events: seq<Event>, j: nat)
    requires IsTrace(capacity, states, events) && j < |events|
    ensures states[j + 1].latched <==> SetsLatch(states, events, j) || (states[j].latched && !OpensLatch(states, events, j))
  {
    if events[j].Report? {
      var k, i, ending := ReportHasAnEnding(capacity, states, events, j);
      var t := events[j].token;
      ReportMovesLatch(capacity, states, events, k, i, j, t, ending);
      forall l: nat, m: nat, other: Ending | EndedAs(states, events, l, m, j, t, other)
        ensures m == i && other == ending && events[l].spec.stop == events[k].spec.stop
      {
        EndedOnce(capacity, states, events, if i <= m then i else m, if i <= m then m else i, j, t,
                  if i <= m then ending else other, if i <= m then other else ending);
        SubmittedOnce(capacity, states, events, l, j, t);
        SubmittedOnce(capacity, states, events, k, j, t);
      }
      if Alarms(events[k].spec.stop, t in states[i].cancelled, ending) {
        assert SetsLatch(states, events, j);
      }
      if events[k].spec.stop && ending == Returns(Completed) {
        assert OpensLatch(states, events, j);
      }
    } else {
      OthersKeepLatch(states[j], events[j]);
    }
  }

  // The j-th step sets the latch, and none of the steps up to the n-th opens it.
  ghost predicate AlarmedSince(states: seq<Gateway>, events: seq<Event>, j: nat, n: nat) {
    j < n && SetsLatch(states, events, j) && NoneOpens(states, events, j, n)
  }

  ghost predicate NoneOpens(states: seq<Gateway>, events: seq<Event>, j: nat, n: nat) {
    forall m :: j < m < n ==> !OpensLatch(states, events, m)
  }

  // In every reachable state: the latch is set if and only if some report set it and no later step
  // opened it.
  lemma {:induction false} LatchedExactlyWhenAlarmed(capacity: nat, states: seq<Gateway>, events: seq<Event>, n: nat)
    requires IsTrace(capacity, states, events) && n < |states|
    ensures states[n].latched <==> exists j: nat :: AlarmedSince(states, events, j, n)
  {
    if n == 0 {
      assert !Initial(capacity).latched;
    } else {
      var m := n - 1;
      LatchedExactlyWhenAlarmed(capacity, states, events, m);
      StepMovesLatch(capacity, states, events, m);
      AlarmGoesOn(states, events, m, n);
    }
  }

  lemma AlarmGoesOn(states: seq<Gateway>, events: seq<Event>, n: nat, next: nat)
    requires next == n + 1
    ensures (exists j: nat :: AlarmedSince(states, events, j, next))
       <==> || SetsLatch(states, events, n)
            || ((exists j: nat :: AlarmedSince(states, events, j, n)) && !OpensLatch(states, events, n))
  {
    if SetsLatch(states, events, n) {
      assert AlarmedSince(states, events, n, next);
    }
    if j: nat :| AlarmedSince(states, events, j, n) && !OpensLatch(states, events, n) {
      assert AlarmedSince(states, events, j, next);
    }
    if j: nat :| AlarmedSince(states, events, j, next) && j < n {
      assert AlarmedSince(states, events, j, n);
    }
  }

  // ---------------------------------------------------------------- admission and cancellation

  // Reaching admission, a command goes on if and only if it is a stop or the latch is open.
  lemma AdmittedExactlyWhen(capacity: nat, states: seq<Gateway>, events: seq<Event>, k: nat, i: nat, t: nat)
    requires IsTrace(capacity, states, events) && SubmittedAt(states, events, k, t) && i < |events| && events[i] == Admission(t)
    ensures var phase := states[i + 1].runners[t].phase;
      && (phase == Admitted <==> events[k].spec.stop || !states[i].latched)
      && (phase == Refused <==> !events[k].spec.stop && states[i].latched)
  {
    SubmittedOnce(capacity, states, events, k, i, t);
  }

  // The command of the token owns the exclusive slot.
  predicate OwnsSlot(g: Gateway, t: nat) {
    g.exclusive.Some? && g.exclusive.value in g.entries && g.entries[g.exclusive.value].token == t
  }

  // A step cancels a command if and only if a stop under a new ID comes while it owns the slot and
  // is no stop itself, or the session disconnects while it is retained and running.
  lemma CancelledExactlyWhen(capacity: nat, states: seq<Gateway>, events: seq<Event>, i: nat, t: nat)
    requires IsTrace(capacity, states, events) && i < |events|
    ensures t in states[i + 1].cancelled
       <==> || t in states[i].cancelled
            || ((events[i].Submit? || events[i].Withdraw?) && events[i].spec.stop && events[i].spec.id !in states[i].entries
                && OwnsSlot(states[i], t) && !states[i].entries[states[i].exclusive.value].stop)
            || (events[i] == CancelForDisconnect
                && exists id :: id in states[i].entries && states[i].entries[id].token == t && t !in states[i].completed)
  {
  }

  // ---------------------------------------------------------------- the slot and the history

  // The slot goes to a request under a new ID that finds it free, or is a stop and finds another
  // command in it; it is freed when the command it names ends, and with the session.
  lemma SlotExactlyWhen(capacity: nat, states: seq<Gateway>, events: seq<Event>, i: nat)
    requires IsTrace(capacity, states, events) && i < |events|
    ensures var (g, e) := (states[i], events[i]);
      states[i + 1].exclusive
      == if e.Submit? && e.spec.id !in g.entries
            && (g.exclusive.None? || (e.spec.stop && !g.entries[g.exclusive.value].stop)) then Some(e.spec.id)
         else if e == ClearSession || (e.Free? && g.exclusive == Some(g.runners[e.token].id)) then None
         else g.exclusive
  {
  }

  // The history fits, or all of it is still running or owns the slot.
  ghost predicate FitsOrIsBusy(g: Gateway) {
    |g.order| <= g.capacity || forall id :: id in g.entries ==> g.entries[id].token !in g.completed || g.exclusive == Some(id)
  }

  lemma TrimFits(g: Gateway)
    requires Inv(g)
    ensures FitsOrIsBusy(Trim(g))
  {
    TrimmedFitsOrIsStuck(g.order, CanGo(g), g.capacity);
    var order := Trim(g).order;
    if |order| > g.capacity {
      forall id | id in Trim(g).entries
        ensures g.entries[id].token !in g.completed || g.exclusive == Some(id)
      {
        assert !CanGo(g)(id);
      }
    }
  }

  lemma EntryFits(g: Gateway, spec: Spec)
    requires Inv(g) && spec.id !in g.entries
    ensures FitsOrIsBusy(Accept(g, spec)) && FitsOrIsBusy(StoreImmediate(g, spec))
  {
    OccupyingKeepsInv(g, spec);
    TrimFits(Occupy(g, spec));
    TrimFits(Enter(g, spec).(completed := g.completed + {g.next}));
  }

  lemma OccupyingKeepsInv(g: Gateway, spec: Spec)
    requires Inv(g) && spec.id !in g.entries
    ensures Inv(Occupy(g, spec)) && Inv(Enter(g, spec).(completed := g.completed + {g.next}))
  {
    EnterKeepsQueue(g, spec);
  }

  lemma FreeFits(g: Gateway, t: nat)
    requires Inv(g) && Enabled(g, Free(t))
    ensures FitsOrIsBusy(Step(g, Free(t)))
  {
    FreedKeepsInv(g, t);
    var g' := SetPhase(g, t, Ended);
    TrimFits(if g.exclusive == Some(g.runners[t].id) then g'.(exclusive := None) else g');
  }

  lemma FreedKeepsInv(g: Gateway, t: nat)
    requires Inv(g) && Enabled(g, Free(t))
    ensures Inv(SetPhase(g, t, Ended)) && Inv(SetPhase(g, t, Ended).(exclusive := None))
  {
  }

  // Whenever a command has been taken up or has ended, the history is within its capacity unless
  // nothing in it may go.
  lemma HistoryIsBounded(capacity: nat, states: seq<Gateway>, events: seq<Event>, i: nat)
    requires IsTrace(capacity, states, events) && i < |events|
    requires events[i].Free? || (events[i].Submit? && events[i].spec.id !in states[i].entries)
    ensures |states[i + 1].order| <= states[i + 1].capacity
         || forall id :: id in states[i + 1].entries ==>
              states[i + 1].entries[id].token !in states[i + 1].completed || states[i + 1].exclusive == Some(id)
  {
    TracesKeepInv(capacity, states, events, i);
    var g := states[i];
    if events[i].Free? {
      FreeFits(g, events[i].token);
    } else {
      var spec := events[i].spec;
      EntryFits(g, spec);
      if g.exclusive.Some? {
        EntryFits(g.(cancelled := g.cancelled + {g.entries[g.exclusive.value].token}), spec);
      }
    }
    assert FitsOrIsBusy(states[i + 1]);
  }
}
