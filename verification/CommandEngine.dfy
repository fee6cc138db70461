/**
The command engine of the gateway: idempotent acceptance, one exclusive command, preemption
by stop-and-disable, the safety latch, and session resets, as atomic steps of callers and
command runners. Each step is one locked region or one interlocked access.
*/
module CommandEngine {
  import opened Wrappers
  import opened GatewayContracts
  import opened CommandHistory

  datatype Spec = Spec(id: string, fingerprint: string, stop: bool)

  // How the core of a command ends.
  datatype Ending =
    | Returns(status: CommandStatus)
    | ThrowsCancelled | ThrowsIo | ThrowsQueryTimeout | ThrowsProtocol | ThrowsOther

  // A runner from its start to the release of the exclusive slot. `clears` is the number of
  // times the latch had been cleared when the runner reported.
  datatype Phase =
    | Starting | Admitted | Refused
    | Decided(status: CommandStatus)
    | Reported(status: CommandStatus, clears: nat)
    | Finished(status: CommandStatus, clears: nat)
    | Ended

  datatype Runner = Runner(id: string, stop: bool, phase: Phase)

  datatype Gateway = Gateway(
    capacity: nat,
    entries: map<string, Entry>, order: seq<string>, exclusive: Option<string>,
    latched: bool, clears: nat,
    completed: set<nat>, cancelled: set<nat>,
    runners: map<nat, Runner>, next: nat)

  datatype Event =
    | Submit(spec: Spec)
    | Withdraw(spec: Spec)
    | Admission(token: nat)
    | Decide(token: nat, ending: Ending)
    | Report(token: nat)
    | Complete(token: nat)
    | Free(token: nat)
    | CancelForDisconnect
    | ClearSession
    | ClearLatch

  datatype Response = Awaits(token: nat) | IdConflict | InFlight(token: nat)

  function Initial(capacity: nat): Gateway {
    Gateway(capacity, map[], [], None, false, 0, {}, {}, map[], 0)
  }

  predicate Uncertain(status: CommandStatus) {
    status == Unconfirmed || status == Failed || status == TimedOut
  }

  // The status a runner reports for an ending of the core. A cancelled command that is not a
  // stop reports Cancelled, except after a query timeout or a protocol error.
  function Outcome(stop: bool, cancelled: bool, ending: Ending): CommandStatus {
    match ending
    case Returns(status) => if !stop && cancelled then Cancelled else status
    case ThrowsCancelled => if cancelled then Cancelled else Failed
    case ThrowsIo => if cancelled then Cancelled else Failed
    case ThrowsQueryTimeout => TimedOut
    case ThrowsProtocol => Failed
    case ThrowsOther => Failed
  }

  // ---------------------------------------------------------------- the steps

  function CanGo(g: Gateway): string -> bool {
    id => Removable(g.entries, g.completed, g.exclusive, id)
  }

  function Trim(g: Gateway): Gateway {
    var order := Trimmed(g.order, CanGo(g), g.capacity);
    g.(order := order, entries := Restrict(g.entries, order))
  }

  // A new entry at the end of the queue, before the trim.
  function Enter(g: Gateway, spec: Spec): Gateway {
    g.(entries := g.entries[spec.id := Entry(g.next, spec.fingerprint, spec.stop)],
       order := g.order + [spec.id], next := g.next + 1)
  }

  // A new entry that owns the exclusive slot, with its runner.
  function Occupy(g: Gateway, spec: Spec): Gateway {
    Enter(g, spec).(exclusive := Some(spec.id), runners := g.runners[g.next := Runner(spec.id, spec.stop, Starting)])
  }

  function Accept(g: Gateway, spec: Spec): Gateway {
    Trim(Occupy(g, spec))
  }

  function StoreImmediate(g: Gateway, spec: Spec): Gateway {
    Trim(Enter(g, spec).(completed := g.completed + {g.next}))
  }

  function Submitted(g: Gateway, spec: Spec): (Gateway, Response)
    requires g.exclusive.Some? ==> g.exclusive.value in g.entries
  {
    if spec.id in g.entries then
      (g, if g.entries[spec.id].fingerprint == spec.fingerprint then Awaits(g.entries[spec.id].token) else IdConflict)
    else if g.exclusive.None? then
      (Accept(g, spec), Awaits(g.next))
    else
      var active := g.entries[g.exclusive.value];
      if !spec.stop || active.stop then (StoreImmediate(g, spec), InFlight(g.next))
      else (Accept(g.(cancelled := g.cancelled + {active.token}), spec), Awaits(g.next))
  }

  // A submission whose caller cancels it inside the locked region, just before the acceptance
  // boundary: an acceptable one leaves no entry, but the command a stop preempts is cancelled.
  function Withdrawn(g: Gateway, spec: Spec): Gateway
    requires g.exclusive.Some? ==> g.exclusive.value in g.entries
  {
    if spec.id in g.entries || g.exclusive.None? then g
    else
      var active := g.entries[g.exclusive.value];
      if !spec.stop || active.stop then StoreImmediate(g, spec)
      else g.(cancelled := g.cancelled + {active.token})
  }

  function Running(g: Gateway): set<nat> {
    set id | id in g.entries && g.entries[id].token !in g.completed :: g.entries[id].token
  }

  function SetPhase(g: Gateway, token: nat, phase: Phase): Gateway
    requires token in g.runners
  {
    g.(runners := g.runners[token := g.runners[token].(phase := phase)])
  }

  function ClearedLatch(g: Gateway): Gateway {
    g.(latched := false, clears := g.clears + 1)
  }

  predicate Enabled(g: Gateway, e: Event) {
    match e
    case Submit(_) => g.exclusive.Some? ==> g.exclusive.value in g.entries
    case Withdraw(_) => g.exclusive.Some? ==> g.exclusive.value in g.entries
    case Admission(t) => t in g.runners && g.runners[t].phase == Starting
    case Decide(t, ending) =>
      t in g.runners
      && (g.runners[t].phase == Starting || g.runners[t].phase == Admitted
          || (g.runners[t].phase == Refused && ending == Returns(Rejected)))
    case Report(t) => t in g.runners && g.runners[t].phase.Decided?
    case Complete(t) => t in g.runners && g.runners[t].phase.Reported?
    case Free(t) => t in g.runners && g.runners[t].phase.Finished?
    case _ => true
  }

  function UpdateInterlock(g: Gateway, stop: bool, status: CommandStatus): Gateway {
    if stop && status == Completed then ClearedLatch(g)
    else if Uncertain(status) then g.(latched := true)
    else g
  }

  function Step(g: Gateway, e: Event): Gateway
    requires Enabled(g, e)
  {
    match e
    case Submit(spec) => Submitted(g, spec).0
    case Withdraw(spec) => Withdrawn(g, spec)
    case Admission(t) => SetPhase(g, t, if !g.runners[t].stop && g.latched then Refused else Admitted)
    case Decide(t, ending) => SetPhase(g, t, Decided(Outcome(g.runners[t].stop, t in g.cancelled, ending)))
    case Report(t) =>
      var g' := UpdateInterlock(g, g.runners[t].stop, g.runners[t].phase.status);
      SetPhase(g', t, Reported(g.runners[t].phase.status, g'.clears))
    case Complete(t) =>
      SetPhase(g.(completed := g.completed + {t}), t, Finished(g.runners[t].phase.status, g.runners[t].phase.clears))
    case Free(t) =>
      // The slot is compared by command ID, not by entry.
      var g' := SetPhase(g, t, Ended);
      Trim(if g.exclusive == Some(g.runners[t].id) then g'.(exclusive := None) else g')
    case CancelForDisconnect => g.(cancelled := g.cancelled + Running(g))
    case ClearSession => g.(entries := map[], order := [], exclusive := None)
    case ClearLatch => ClearedLatch(g)
  }

  // ---------------------------------------------------------------- invariants

  // Every retained entry has its own token, and a runner unless it was answered at once.
  ghost predicate EntriesHaveRunners(g: Gateway) {
    && (forall id :: id in g.entries ==>
          var t := g.entries[id].token;
          t < g.next && (t in g.completed || (t in g.runners && g.runners[t].id == id && g.runners[t].stop == g.entries[id].stop)))
    && (forall i, j :: i in g.entries && j in g.entries && i != j ==> g.entries[i].token != g.entries[j].token)
  }

  ghost predicate RunnersAreKnown(g: Gateway) {
    && (forall t :: t in g.runners ==>
          t < g.next && (t in g.completed <==> g.runners[t].phase.Finished? || g.runners[t].phase.Ended?))
    && (forall t :: t in g.completed || t in g.cancelled ==> t < g.next)
  }

  // An uncertain outcome latches before its runner goes on; only a clear unlatches.
  ghost predicate UncertaintyLatched(g: Gateway) {
    forall t :: t in g.runners ==>
      var p := g.runners[t].phase;
      (p.Reported? || p.Finished?) ==>
        p.clears <= g.clears && (Uncertain(p.status) && p.clears == g.clears ==> g.latched)
  }

  ghost predicate Inv(g: Gateway) {
    && Consistent(g.entries, g.order)
    && (g.exclusive.Some? ==> g.exclusive.value in g.entries)
    && EntriesHaveRunners(g) && RunnersAreKnown(g) && UncertaintyLatched(g)
  }

  // Every retained command still running owns the exclusive slot or is cancelled.
  ghost predicate OnlyExclusiveRuns(g: Gateway) {
    forall id :: id in g.entries && g.entries[id].token !in g.completed ==>
      g.exclusive == Some(id) || g.entries[id].token in g.cancelled
  }

  // ---------------------------------------------------------------- every step keeps them

  lemma TrimKeeps(g: Gateway)
    requires Inv(g)
    ensures var g' := Trim(g);
      && Inv(g') && (OnlyExclusiveRuns(g') <==> OnlyExclusiveRuns(g))
      && (forall id :: id in g'.entries ==> id in g.entries && g'.entries[id] == g.entries[id])
      && (forall id :: id in g.entries && id !in g'.entries ==> Removable(g.entries, g.completed, g.exclusive, id))
  {
    var k := Excess(|g.order|, g.capacity);
    DropOldestKeeps(g.order, CanGo(g), k);
    DropOldestKeepsDistinct(g.order, CanGo(g), k);
  }

  lemma EnterKeepsQueue(g: Gateway, spec: Spec)
    requires Inv(g) && spec.id !in g.entries
    ensures Consistent(Enter(g, spec).entries, Enter(g, spec).order)
  {
  }

  lemma AcceptKeeps(g: Gateway, spec: Spec)
    requires Inv(g) && spec.id !in g.entries
    ensures Inv(Accept(g, spec))
    ensures OnlyExclusiveRuns(g.(exclusive := None)) ==> OnlyExclusiveRuns(Accept(g, spec))
  {
    EnterKeepsQueue(g, spec);
    TrimKeeps(Occupy(g, spec));
  }

  lemma StoreImmediateKeeps(g: Gateway, spec: Spec)
    requires Inv(g) && spec.id !in g.entries
    ensures Inv(StoreImmediate(g, spec))
    ensures OnlyExclusiveRuns(g) ==> OnlyExclusiveRuns(StoreImmediate(g, spec))
  {
    EnterKeepsQueue(g, spec);
    TrimKeeps(Enter(g, spec).(completed := g.completed + {g.next}));
  }

  lemma SubmitKeeps(g: Gateway, spec: Spec)
    requires Inv(g)
    ensures Inv(Submitted(g, spec).0)
    ensures OnlyExclusiveRuns(g) ==> OnlyExclusiveRuns(Submitted(g, spec).0)
  {
    if spec.id !in g.entries {
      if g.exclusive.None? {
        AcceptKeeps(g, spec);
      } else {
        var active := g.entries[g.exclusive.value];
        if !spec.stop || active.stop {
          StoreImmediateKeeps(g, spec);
        } else {
          AcceptKeeps(g.(cancelled := g.cancelled + {active.token}), spec);
        }
      }
    }
  }

  lemma WithdrawKeeps(g: Gateway, spec: Spec)
    requires Inv(g)
    ensures Inv(Withdrawn(g, spec))
    ensures OnlyExclusiveRuns(g) ==> OnlyExclusiveRuns(Withdrawn(g, spec))
  {
    if spec.id !in g.entries && g.exclusive.Some? {
      var active := g.entries[g.exclusive.value];
      if !spec.stop || active.stop {
        StoreImmediateKeeps(g, spec);
      }
    }
  }

  lemma AdmissionKeeps(g: Gateway, t: nat)
    requires Inv(g) && Enabled(g, Admission(t))
    ensures Inv(Step(g, Admission(t))) && (OnlyExclusiveRuns(Step(g, Admission(t))) <==> OnlyExclusiveRuns(g))
  {
  }

  lemma DecideKeeps(g: Gateway, t: nat, ending: Ending)
    requires Inv(g) && Enabled(g, Decide(t, ending))
    ensures Inv(Step(g, Decide(t, ending))) && (OnlyExclusiveRuns(Step(g, Decide(t, ending))) <==> OnlyExclusiveRuns(g))
  {
  }

  lemma InterlockKeeps(g: Gateway, stop: bool, status: CommandStatus)
    requires Inv(g)
    ensures Inv(UpdateInterlock(g, stop, status))
    ensures Uncertain(status) ==> UpdateInterlock(g, stop, status).latched
  {
  }

  lemma ReportedKeeps(g: Gateway, t: nat)
    requires Inv(g) && Enabled(g, Report(t)) && (Uncertain(g.runners[t].phase.status) ==> g.latched)
    ensures Inv(SetPhase(g, t, Reported(g.runners[t].phase.status, g.clears)))
  {
  }

  lemma ReportKeeps(g: Gateway, t: nat)
    requires Inv(g) && Enabled(g, Report(t))
    ensures Inv(Step(g, Report(t))) && (OnlyExclusiveRuns(Step(g, Report(t))) <==> OnlyExclusiveRuns(g))
  {
    InterlockKeeps(g, g.runners[t].stop, g.runners[t].phase.status);
    ReportedKeeps(UpdateInterlock(g, g.runners[t].stop, g.runners[t].phase.status), t);
  }

  lemma CompleteKeeps(g: Gateway, t: nat)
    requires Inv(g) && Enabled(g, Complete(t))
    ensures Inv(Step(g, Complete(t))) && (OnlyExclusiveRuns(g) ==> OnlyExclusiveRuns(Step(g, Complete(t))))
  {
  }

  // Freeing takes the slot from another request exactly when the slot's ID has come to name one:
  // the entry it names is not the freed runner's, and is running uncancelled.
  predicate StealsSlot(g: Gateway, e: Event) {
    && e.Free? && Enabled(g, e)
    && var id := g.runners[e.token].id;
       && g.exclusive == Some(id) && id in g.entries && g.entries[id].token != e.token
       && g.entries[id].token !in g.completed && g.entries[id].token !in g.cancelled
  }

  lemma FreeKeeps(g: Gateway, t: nat)
    requires Inv(g) && Enabled(g, Free(t))
    ensures Inv(Step(g, Free(t)))
    ensures OnlyExclusiveRuns(g) ==> (OnlyExclusiveRuns(Step(g, Free(t))) <==> !StealsSlot(g, Free(t)))
  {
    var g' := SetPhase(g, t, Ended);
    if g.exclusive == Some(g.runners[t].id) {
      var freed := g'.(exclusive := None);
      TrimKeeps(freed);
      if OnlyExclusiveRuns(g) && !StealsSlot(g, Free(t)) {
        assert OnlyExclusiveRuns(freed);
      }
    } else {
      TrimKeeps(g');
    }
  }

  lemma StepKeepsInv(g: Gateway, e: Event)
    requires Inv(g) && Enabled(g, e)
    ensures Inv(Step(g, e))
  {
    match e
    case Submit(spec) => SubmitKeeps(g, spec);
    case Withdraw(spec) => WithdrawKeeps(g, spec);
    case Free(t) => FreeKeeps(g, t);
    case Admission(t) => AdmissionKeeps(g, t);
    case Decide(t, ending) => DecideKeeps(g, t, ending);
    case Report(t) => ReportKeeps(g, t);
    case Complete(t) => CompleteKeeps(g, t);
    case CancelForDisconnect =>
    case ClearSession =>
    case ClearLatch =>
  }

  // Exclusivity survives every step but one that frees another request's slot; that step breaks it.
  lemma StepKeepsExclusivity(g: Gateway, e: Event)
    requires Inv(g) && Enabled(g, e) && OnlyExclusiveRuns(g)
    ensures OnlyExclusiveRuns(Step(g, e)) <==> !StealsSlot(g, e)
  {
    match e
    case Submit(spec) => SubmitKeeps(g, spec);
    case Withdraw(spec) => WithdrawKeeps(g, spec);
    case Free(t) => FreeKeeps(g, t);
    case Admission(t) => AdmissionKeeps(g, t);
    case Decide(t, ending) => DecideKeeps(g, t, ending);
    case Report(t) => ReportKeeps(g, t);
    case Complete(t) => CompleteKeeps(g, t);
    case CancelForDisconnect =>
    case ClearSession =>
    case ClearLatch =>
  }

  // ---------------------------------------------------------------- runs

  ghost predicate IsRun(g: Gateway, events: seq<Event>)
    decreases |events|
  {
    events == [] || (Enabled(g, events[0]) && IsRun(Step(g, events[0]), events[1..]))
  }

  ghost function After(g: Gateway, events: seq<Event>): Gateway
    requires IsRun(g, events)
    decreases |events|
  {
    if events == [] then g else After(Step(g, events[0]), events[1..])
  }

  lemma {:induction false} RunsKeepInv(g: Gateway, events: seq<Event>)
    requires Inv(g) && IsRun(g, events)
    ensures Inv(After(g, events))
    decreases |events|
  {
    if events != [] {
      StepKeepsInv(g, events[0]);
      RunsKeepInv(Step(g, events[0]), events[1..]);
    }
  }

  // The queue lists the retained IDs once each, and the exclusive ID is retained, in every
  // reachable state: so looking up the active command never misses.
  lemma QueueListsRetained(capacity: nat, events: seq<Event>)
    requires IsRun(Initial(capacity), events)
    ensures var g := After(Initial(capacity), events);
      Consistent(g.entries, g.order) && |g.order| == |g.entries| && (g.exclusive.Some? ==> g.exclusive.value in g.entries)
  {
    RunsKeepInv(Initial(capacity), events);
    var g := After(Initial(capacity), events);
    SizesAgree(g.entries, g.order);
  }

  // No submission takes an ID that an unfinished runner outside the history still carries.
  predicate FreshId(g: Gateway, e: Event) {
    (e.Submit? || e.Withdraw?) && e.spec.id !in g.entries ==>
      forall t :: t in g.runners && g.runners[t].id == e.spec.id ==> g.runners[t].phase == Ended
  }

  ghost predicate FreshIds(g: Gateway, events: seq<Event>)
    requires IsRun(g, events)
    decreases |events|
  {
    events == [] || (FreshId(g, events[0]) && FreshIds(Step(g, events[0]), events[1..]))
  }

  // The ID of an unfinished runner names that runner's own entry, if it names one.
  ghost predicate IdsAreOwned(g: Gateway) {
    forall t :: t in g.runners && g.runners[t].phase != Ended && g.runners[t].id in g.entries ==>
      g.entries[g.runners[t].id].token == t
  }

  lemma TrimKeepsOwnership(g: Gateway)
    requires Inv(g) && IdsAreOwned(g)
    ensures IdsAreOwned(Trim(g))
  {
    TrimKeeps(g);
  }

  lemma AcceptKeepsOwnership(g: Gateway, spec: Spec)
    requires Inv(g) && IdsAreOwned(g) && spec.id !in g.entries && FreshId(g, Submit(spec))
    ensures IdsAreOwned(Accept(g, spec))
  {
    EnterKeepsQueue(g, spec);
    var g' := Occupy(g, spec);
    assert IdsAreOwned(g');
    TrimKeepsOwnership(g');
  }

  lemma StoreImmediateKeepsOwnership(g: Gateway, spec: Spec)
    requires Inv(g) && IdsAreOwned(g) && spec.id !in g.entries && FreshId(g, Submit(spec))
    ensures IdsAreOwned(StoreImmediate(g, spec))
  {
    EnterKeepsQueue(g, spec);
    var g' := Enter(g, spec).(completed := g.completed + {g.next});
    assert IdsAreOwned(g');
    TrimKeepsOwnership(g');
  }

  lemma SubmitKeepsOwnership(g: Gateway, spec: Spec)
    requires Inv(g) && IdsAreOwned(g) && FreshId(g, Submit(spec))
    ensures IdsAreOwned(Submitted(g, spec).0)
  {
    if spec.id !in g.entries {
      if g.exclusive.None? {
        AcceptKeepsOwnership(g, spec);
      } else {
        var active := g.entries[g.exclusive.value];
        if !spec.stop || active.stop {
          StoreImmediateKeepsOwnership(g, spec);
        } else {
          AcceptKeepsOwnership(g.(cancelled := g.cancelled + {active.token}), spec);
        }
      }
    }
  }

  lemma WithdrawKeepsOwnership(g: Gateway, spec: Spec)
    requires Inv(g) && IdsAreOwned(g) && FreshId(g, Withdraw(spec))
    ensures IdsAreOwned(Withdrawn(g, spec))
  {
    if spec.id !in g.entries && g.exclusive.Some? {
      var active := g.entries[g.exclusive.value];
      if !spec.stop || active.stop {
        StoreImmediateKeepsOwnership(g, spec);
      }
    }
  }

  lemma FreeKeepsOwnership(g: Gateway, t: nat)
    requires Inv(g) && Enabled(g, Free(t)) && IdsAreOwned(g)
    ensures IdsAreOwned(Step(g, Free(t))) && !StealsSlot(g, Free(t))
  {
    var g' := SetPhase(g, t, Ended);
    TrimKeepsOwnership(if g.exclusive == Some(g.runners[t].id) then g'.(exclusive := None) else g');
  }

  lemma StepKeepsOwnership(g: Gateway, e: Event)
    requires Inv(g) && Enabled(g, e) && IdsAreOwned(g) && FreshId(g, e)
    ensures IdsAreOwned(Step(g, e)) && !StealsSlot(g, e)
  {
    match e
    case Submit(spec) => SubmitKeepsOwnership(g, spec);
    case Withdraw(spec) => WithdrawKeepsOwnership(g, spec);
    case Free(t) => FreeKeepsOwnership(g, t);
    case Admission(_) =>
    case Decide(_, _) =>
    case Report(_) =>
    case Complete(_) =>
    case CancelForDisconnect =>
    case ClearSession =>
    case ClearLatch =>
  }

  lemma {:induction false} FreshRunsKeepExclusivity(g: Gateway, events: seq<Event>)
    requires Inv(g) && IsRun(g, events) && FreshIds(g, events) && IdsAreOwned(g) && OnlyExclusiveRuns(g)
    ensures OnlyExclusiveRuns(After(g, events)) && IdsAreOwned(After(g, events))
    decreases |events|
  {
    if events != [] {
      StepKeepsInv(g, events[0]);
      StepKeepsOwnership(g, events[0]);
      StepKeepsExclusivity(g, events[0]);
      FreshRunsKeepExclusivity(Step(g, events[0]), events[1..]);
    }
  }

  // While no command ID is reused under an unfinished runner, at most one retained command runs
  // uncancelled, and it owns the exclusive slot.
  lemma OneLiveCommand(capacity: nat, events: seq<Event>, i: string, j: string)
    requires IsRun(Initial(capacity), events) && FreshIds(Initial(capacity), events)
    requires var g := After(Initial(capacity), events);
      && i in g.entries && g.entries[i].token !in g.completed && g.entries[i].token !in g.cancelled
      && j in g.entries && g.entries[j].token !in g.completed && g.entries[j].token !in g.cancelled
    ensures i == j && After(Initial(capacity), events).exclusive == Some(i)
  {
    FreshRunsKeepExclusivity(Initial(capacity), events);
  }

  // ---------------------------------------------------------------- acceptance

  // Repeating a retained request starts nothing and waits for the same command; a different
  // request under a retained ID is refused and changes nothing.
  lemma AcceptanceIsIdempotent(g: Gateway, spec: Spec, again: Spec)
    requires Inv(g) && again.id == spec.id
    ensures var (g1, r1) := Submitted(g, spec);
      && Inv(g1)
      && (r1.Awaits? ==>
            Submitted(g1, again) == (g1, if again.fingerprint == spec.fingerprint then r1 else IdConflict))
  {
    SubmitKeeps(g, spec);
    if spec.id !in g.entries && Submitted(g, spec).1.Awaits? {
      AcceptedIsRetained(if g.exclusive.None? then g else g.(cancelled := g.cancelled + {g.entries[g.exclusive.value].token}), spec);
    }
  }

  // A stop that its caller withdraws leaves no entry, yet cancels the command it would have preempted.
  lemma WithdrawnStopStillCancels(g: Gateway, spec: Spec)
    requires Inv(g) && spec.stop && spec.id !in g.entries
    ensures var g' := Withdrawn(g, spec);
      Submitted(g, spec).1.Awaits? ==>
        && g'.entries == g.entries && g'.order == g.order && g'.exclusive == g.exclusive && g'.runners == g.runners
        && (g.exclusive.Some? ==> g.entries[g.exclusive.value].token in g'.cancelled)
  {
  }

  lemma AcceptedIsRetained(g: Gateway, spec: Spec)
    requires Inv(g) && spec.id !in g.entries
    ensures var g' := Accept(g, spec);
      spec.id in g'.entries && g'.entries[spec.id] == Entry(g.next, spec.fingerprint, spec.stop)
  {
    EnterKeepsQueue(g, spec);
    TrimKeeps(Occupy(g, spec));
  }

  // ---------------------------------------------------------------- the latch

  // The only steps that open the latch: a stop that completed, and a session reset.
  predicate Unlatches(g: Gateway, e: Event) {
    e == ClearLatch
    || (e.Report? && Enabled(g, e) && g.runners[e.token].stop && g.runners[e.token].phase.status == Completed)
  }

  ghost predicate StaysShut(g: Gateway, events: seq<Event>)
    requires IsRun(g, events)
    decreases |events|
  {
    events == [] || (!Unlatches(g, events[0]) && StaysShut(Step(g, events[0]), events[1..]))
  }

  lemma LatchHolds(g: Gateway, e: Event)
    requires Enabled(g, e) && g.latched
    ensures Step(g, e).latched <==> !Unlatches(g, e)
  {
  }

  // From the moment the latch is set until a stop completes or the session is reset, no command
  // but a stop is admitted.
  lemma {:induction false} LatchBlocksMotion(g: Gateway, events: seq<Event>, k: nat)
    requires IsRun(g, events) && g.latched && StaysShut(g, events) && k < |events| && events[k].Admission?
    ensures IsRun(g, events[..k]) && After(g, events[..k]).latched
    ensures var before := After(g, events[..k]);
      && Enabled(before, events[k])
      && (Step(before, events[k]).runners[events[k].token].phase == Admitted <==> before.runners[events[k].token].stop)
    decreases |events|
  {
    if k == 0 {
      assert events[..k] == [];
    } else {
      LatchHolds(g, events[0]);
      LatchBlocksMotion(Step(g, events[0]), events[1..], k - 1);
      assert events[..k][1..] == events[1..][..k - 1] && events[..k][0] == events[0];
    }
  }

  // A report of an uncertain outcome sets the latch itself.
  lemma ReportLatches(g: Gateway, t: nat)
    requires Enabled(g, Report(t))
    ensures Uncertain(g.runners[t].phase.status) ==> Step(g, Report(t)).latched
    ensures Step(g, Report(t)).runners[t].phase == Reported(g.runners[t].phase.status, Step(g, Report(t)).clears)
  {
  }

  // The k-th step of the run is the report of the runner; right after it the latch is set, and it
  // is still set at the end unless one of the later steps opens it.
  ghost predicate LatchedByReport(g: Gateway, events: seq<Event>, t: nat, k: nat) {
    && k < |events| && events[k] == Report(t) && IsRun(g, events) && IsRun(g, events[..k + 1])
    && var reported := After(g, events[..k + 1]);
    && reported.latched && IsRun(reported, events[k + 1..])
    && (After(g, events).latched || !StaysShut(reported, events[k + 1..]))
  }

  lemma {:induction false} ShutStaysLatched(g: Gateway, events: seq<Event>)
    requires IsRun(g, events) && g.latched && StaysShut(g, events)
    ensures After(g, events).latched
    decreases |events|
  {
    if events != [] {
      LatchHolds(g, events[0]);
      ShutStaysLatched(Step(g, events[0]), events[1..]);
    }
  }

  predicate HasReported(g: Gateway, t: nat, status: CommandStatus) {
    t in g.runners && var p := g.runners[t].phase; (p.Reported? || p.Finished?) && p.status == status
  }

  lemma ReportedStatusStays(g: Gateway, e: Event, t: nat, status: CommandStatus)
    requires Enabled(g, e) && t < g.next && HasReported(Step(g, e), t, status)
    ensures HasReported(g, t, status) || (e == Report(t) && g.runners[t].phase == Decided(status))
  {
  }

  lemma {:induction false} UncertaintyWasReported(g: Gateway, events: seq<Event>, t: nat, status: CommandStatus)
    returns (k: nat)
    requires Inv(g) && IsRun(g, events) && HasReported(After(g, events), t, status) && Uncertain(status)
    requires !HasReported(g, t, status)
    ensures LatchedByReport(g, events, t, k)
    decreases |events|
  {
    var e, next := events[0], Step(g, events[0]);
    StepKeepsInv(g, e);
    if !HasReported(next, t, status) {
      k := UncertaintyWasReported(next, events[1..], t, status);
      k := k + 1;
      assert events[..k + 1][1..] == events[1..][..k] && events[..k + 1][0] == e;
      assert events[k + 1..] == events[1..][k..];
    } else {
      k := 0;
      ReportedStatusStays(g, e, t, status);
      ReportLatches(g, t);
      assert events[..1][1..] == [] && events[..1][0] == e;
      if StaysShut(next, events[1..]) {
        ShutStaysLatched(next, events[1..]);
      }
    }
  }

  // When a command gives up its slot after an uncertain outcome, its report was a step of the run
  // that set the latch, and the latch is still set unless a later step opened it.
  lemma UncertainOutcomeLatchesFirst(capacity: nat, events: seq<Event>, t: nat) returns (k: nat)
    requires IsRun(Initial(capacity), events)
    requires Enabled(After(Initial(capacity), events), Free(t))
    requires Uncertain(After(Initial(capacity), events).runners[t].phase.status)
    ensures LatchedByReport(Initial(capacity), events, t, k)
  {
    k := UncertaintyWasReported(Initial(capacity), events, t, After(Initial(capacity), events).runners[t].phase.status);
  }

  // ---------------------------------------------------------------- running on

  lemma Then(g: Gateway, e: Event, rest: seq<Event>)
    requires Enabled(g, e) && IsRun(Step(g, e), rest)
    ensures IsRun(g, [e] + rest) && After(g, [e] + rest) == After(Step(g, e), rest)
  {
    assert ([e] + rest)[1..] == rest;
  }

  // An unfinished runner can be driven to the release of the slot, leaving entries, slot and
  // cancellations alone.
  lemma OldRunnerFinishes(g: Gateway, t: nat) returns (events: seq<Event>)
    requires t in g.runners && g.runners[t].phase != Ended
    ensures IsRun(g, events) && Enabled(After(g, events), Free(t))
    ensures var g' := After(g, events);
      && g'.entries == g.entries && g'.exclusive == g.exclusive && g'.cancelled == g.cancelled
      && g'.completed <= g.completed + {t} && g'.runners[t].id == g.runners[t].id
    decreases match g.runners[t].phase
              case Finished(_, _) => 0
              case Reported(_, _) => 1
              case Decided(_) => 2
              case _ => 3
  {
    if g.runners[t].phase.Finished? {
      events := [];
    } else {
      var e := match g.runners[t].phase
               case Reported(_, _) => Complete(t)
               case Decided(_) => Report(t)
               case Refused => Decide(t, Returns(Rejected))
               case _ => Decide(t, ThrowsOther);
      var rest := OldRunnerFinishes(Step(g, e), t);
      Then(g, e, rest);
      events := [e] + rest;
    }
  }

  // ---------------------------------------------------------------- which submissions are safe

  // The step frees the slot of the request with this token, which is running uncancelled.
  predicate Robs(g: Gateway, e: Event, token: nat) {
    StealsSlot(g, e) && g.entries[g.runners[e.token].id].token == token
  }

  // Some continuation ends in such a step.
  ghost predicate CanBeRobbed(g: Gateway, token: nat) {
    exists events: seq<Event>, e: Event :: IsRun(g, events) && Robs(After(g, events), e, token)
  }

  predicate IsAccepted(g: Gateway, spec: Spec) {
    && Enabled(g, Submit(spec)) && spec.id !in g.entries
    && (g.exclusive.Some? ==> spec.stop && !g.entries[g.exclusive.value].stop)
  }

  lemma AcceptedOwnsSlot(g: Gateway, spec: Spec)
    requires Inv(g) && IsAccepted(g, spec)
    ensures var g' := Step(g, Submit(spec));
      && Inv(g') && spec.id in g'.entries && g'.entries[spec.id].token == g.next && g'.exclusive == Some(spec.id)
      && g.next !in g'.completed && g.next !in g'.cancelled && g'.next == g.next + 1
      && g'.runners == g.runners[g.next := Runner(spec.id, spec.stop, Starting)]
  {
    SubmitKeeps(g, spec);
    if g.exclusive.None? {
      AcceptedIsRetained(g, spec);
    } else {
      AcceptedIsRetained(g.(cancelled := g.cancelled + {g.entries[g.exclusive.value].token}), spec);
    }
  }

  // While the token names an entry, every other runner under its ID has ended.
  ghost predicate OthersEnded(g: Gateway, id: string, token: nat) {
    && token < g.next
    && (forall x :: x in g.entries && g.entries[x].token == token ==> x == id)
    && (id in g.entries && g.entries[id].token == token ==>
          forall t :: t in g.runners && g.runners[t].id == id && t != token ==> g.runners[t].phase == Ended)
  }

  lemma TrimKeepsOthersEnded(g: Gateway, id: string, token: nat)
    requires Inv(g) && OthersEnded(g, id, token)
    ensures OthersEnded(Trim(g), id, token)
  {
    TrimKeeps(g);
  }

  lemma AcceptKeepsOthersEnded(g: Gateway, spec: Spec, id: string, token: nat)
    requires Inv(g) && OthersEnded(g, id, token) && spec.id !in g.entries
    ensures OthersEnded(Accept(g, spec), id, token)
  {
    EnterKeepsQueue(g, spec);
    TrimKeepsOthersEnded(Occupy(g, spec), id, token);
  }

  lemma StoreImmediateKeepsOthersEnded(g: Gateway, spec: Spec, id: string, token: nat)
    requires Inv(g) && OthersEnded(g, id, token) && spec.id !in g.entries
    ensures OthersEnded(StoreImmediate(g, spec), id, token)
  {
    EnterKeepsQueue(g, spec);
    TrimKeepsOthersEnded(Enter(g, spec).(completed := g.completed + {g.next}), id, token);
  }

  lemma SubmitKeepsOthersEnded(g: Gateway, spec: Spec, id: string, token: nat)
    requires Inv(g) && OthersEnded(g, id, token)
    ensures OthersEnded(Submitted(g, spec).0, id, token) && OthersEnded(Withdrawn(g, spec), id, token)
  {
    if spec.id !in g.entries {
      StoreImmediateKeepsOthersEnded(g, spec, id, token);
      if g.exclusive.None? {
        AcceptKeepsOthersEnded(g, spec, id, token);
      } else {
        AcceptKeepsOthersEnded(g.(cancelled := g.cancelled + {g.entries[g.exclusive.value].token}), spec, id, token);
      }
    }
  }

  lemma FreeKeepsOthersEnded(g: Gateway, t: nat, id: string, token: nat)
    requires Inv(g) && Enabled(g, Free(t)) && OthersEnded(g, id, token)
    ensures OthersEnded(Step(g, Free(t)), id, token) && !Robs(g, Free(t), token)
  {
    var g' := SetPhase(g, t, Ended);
    TrimKeepsOthersEnded(if g.exclusive == Some(g.runners[t].id) then g'.(exclusive := None) else g', id, token);
  }

  lemma StepKeepsOthersEnded(g: Gateway, e: Event, id: string, token: nat)
    requires Inv(g) && Enabled(g, e) && OthersEnded(g, id, token)
    ensures OthersEnded(Step(g, e), id, token)
  {
    match e
    case Submit(spec) => SubmitKeepsOthersEnded(g, spec, id, token);
    case Withdraw(spec) => SubmitKeepsOthersEnded(g, spec, id, token);
    case Free(t) => FreeKeepsOthersEnded(g, t, id, token);
    case Admission(_) =>
    case Decide(_, _) =>
    case Report(_) =>
    case Complete(_) =>
    case CancelForDisconnect =>
    case ClearSession =>
    case ClearLatch =>
  }

  lemma {:induction false} NeverRobbed(g: Gateway, events: seq<Event>, e: Event, id: string, token: nat)
    requires Inv(g) && IsRun(g, events) && OthersEnded(g, id, token)
    ensures !Robs(After(g, events), e, token)
    decreases |events|
  {
    if events == [] {
      if e.Free? && Enabled(g, e) {
        FreeKeepsOthersEnded(g, e.token, id, token);
      }
    } else {
      StepKeepsInv(g, events[0]);
      StepKeepsOthersEnded(g, events[0], id, token);
      NeverRobbed(Step(g, events[0]), events[1..], e, id, token);
    }
  }

  lemma StaleRunnerRobs(g: Gateway, spec: Spec, t: nat)
    requires Inv(g) && IsAccepted(g, spec)
    requires t in g.runners && g.runners[t].id == spec.id && g.runners[t].phase != Ended
    ensures CanBeRobbed(Step(g, Submit(spec)), g.next)
  {
    AcceptedOwnsSlot(g, spec);
    var g' := Step(g, Submit(spec));
    var events := OldRunnerFinishes(g', t);
    assert Robs(After(g', events), Free(t), g.next);
  }

  // In every reachable state: an accepted request can come to lose its slot to the runner of
  // another exactly when it takes the ID of a runner that has not ended.
  lemma SubmissionIsSafeExactlyWhenFresh(capacity: nat, before: seq<Event>, spec: Spec)
    requires IsRun(Initial(capacity), before) && IsAccepted(After(Initial(capacity), before), spec)
    ensures var g := After(Initial(capacity), before);
      CanBeRobbed(Step(g, Submit(spec)), g.next) <==> !FreshId(g, Submit(spec))
  {
    RunsKeepInv(Initial(capacity), before);
    var g := After(Initial(capacity), before);
    if FreshId(g, Submit(spec)) {
      AcceptedOwnsSlot(g, spec);
      var g' := Step(g, Submit(spec));
      forall events: seq<Event>, e: Event | IsRun(g', events) ensures !Robs(After(g', events), e, g.next) {
        NeverRobbed(g', events, e, spec.id, g.next);
      }
    } else {
      var t :| t in g.runners && g.runners[t].id == spec.id && g.runners[t].phase != Ended;
      StaleRunnerRobs(g, spec, t);
    }
  }

  // A request outlives a session reset, and its ID is used again: when the old runner finishes
  // it frees the slot of the new request, which is running uncancelled.
  lemma ReusedIdLosesItsSlot(capacity: nat, x: Spec) returns (events: seq<Event>)
    ensures |events| >= 3 && events[0] == Submit(x) && events[1] == ClearSession && events[2] == Submit(x)
    ensures IsRun(Initial(capacity), events) && StealsSlot(After(Initial(capacity), events), Free(0))
  {
    var g0 := Initial(capacity);
    AcceptedOwnsSlot(g0, x);
    var g1 := Step(g0, Submit(x));
    var g2 := Step(g1, ClearSession);
    StepKeepsInv(g1, ClearSession);
    AcceptedOwnsSlot(g2, x);
    var g3 := Step(g2, Submit(x));
    events := OldRunnerFinishes(g3, 0);
    Then(g2, Submit(x), events);
    events := [Submit(x)] + events;
    Then(g1, ClearSession, events);
    events := [ClearSession] + events;
    Then(g0, Submit(x), events);
    events := [Submit(x)] + events;
  }
}
