/**
The response lease of the Dummy session: at most one transaction at a time owns the
device's next reply, Safety work may preempt it, and each transaction carries a fence
that holds later writes. A state machine over the atomic steps of TransactAsync, the
receive dispatcher, the scheduler's write callbacks and CancelActiveResponse. The
scheduler is abstracted to "any queued write may start, or be dropped, at any time".
*/
module ResponseLease {
  import opened Wrappers

  // A transaction is identified by a number, which also names its lease and its response fence.
  datatype Call = Call(workId: string, safety: bool)

  datatype Reply = Result(value: string) | DeviceError | Preempted | Closed

  // Where a transaction that acquired its lease stands. The finally block is four steps.
  datatype Phase =
    | Acquired
    | Queued(accepted: bool)
    | Awaiting
    | UnwindPreempted
    | UnwindFence
    | UnwindLease
    | UnwindReleased
    | Finished

  datatype Write = Write(workId: string, owner: Option<nat>, serial: nat)

  // CancelActiveResponse after it took the lease: resolve, release both fences, announce.
  datatype Closing = Resolving | ReleasingFence | ReleasingPreempted | Announcing

  datatype Dispatcher = Idle | Captured(lease: Option<nat>)

  datatype State = State(
    calls: map<nat, Call>,            // every transaction begun
    waiting: map<nat, nat>,           // transaction to the lease whose release it awaits
    preempts: map<nat, nat>,          // lease to the lease whose fence it took over
    phase: map<nat, Phase>,           // every lease acquired
    active: Option<nat>,
    armed: set<nat>,
    responses: map<nat, Reply>,
    released: set<nat>,               // leases whose Released task is set
    fences: set<nat>,                 // released fences
    pool: set<Write>,                 // writes queued and not started
    writing: set<Write>,              // writes started and not completed
    started: set<Write>,              // history: every write ever started
    closing: map<nat, Closing>,
    dispatcher: Dispatcher,
    serials: nat)

  const INITIAL := State(map[], map[], map[], map[], None, {}, map[], {}, {}, {}, {}, {}, map[], Idle, 0)

  datatype Event =
    | Begin(call: Call)
    | Retry(t: nat)
    | QueueOwn(t: nat, accepted: bool)
    | AfterQueue(t: nat)
    | Leave(t: nat)                   // return or exception: enter the finally block
    | Unwind(t: nat)
    | QueueForeign(workId: string)
    | StartWrite(write: Write)
    | EndWrite(write: Write)
    | DropWrite(write: Write)
    | Abandon(t: nat)                 // cancelled while waiting
    | Capture
    | Deliver(reply: Option<Reply>)   // None: observed as unowned, or not the expected reply
    | TakeActive                      // first step of CancelActiveResponse
    | Close(lease: nat)

  function TrySet(cells: map<nat, Reply>, lease: nat, reply: Reply): map<nat, Reply> {
    if lease in cells then cells else cells[lease := reply]
  }

  predicate Enabled(s: State, e: Event) {
    match e
    case Retry(t) => t in s.waiting && t in s.calls && s.waiting[t] in s.released
    case QueueOwn(t, _) => t in s.phase && t in s.calls && s.phase[t] == Acquired
    case AfterQueue(t) => t in s.phase && s.phase[t].Queued?
    case Leave(t) => t in s.phase && (s.phase[t].Acquired? || s.phase[t].Awaiting?)
    case Unwind(t) =>
      t in s.phase && (s.phase[t].UnwindPreempted? || s.phase[t].UnwindFence? || s.phase[t].UnwindLease? || s.phase[t].UnwindReleased?)
    case StartWrite(w) => w in s.pool && (s.active.Some? ==> s.active.value in s.calls)
    case EndWrite(w) => w in s.writing
    case DropWrite(w) => w in s.pool
    case Abandon(t) => t in s.waiting
    case Capture => s.dispatcher.Idle?
    case Deliver(reply) =>
      s.dispatcher.Captured? && (reply.Some? ==> reply.value.Result? || reply.value.DeviceError?)
    case TakeActive => s.active.Some?
    case Close(l) => l in s.closing
    case _ => true
  }

  function Acquire(s: State, t: nat, call: Call): State {
    match s.active
    case None => s.(active := Some(t), phase := s.phase[t := Acquired], waiting := s.waiting - {t})
    case Some(l) =>
      if call.safety && l in s.calls && !s.calls[l].safety then
        s.(active := Some(t),
           phase := s.phase[t := Acquired],
           preempts := s.preempts[t := l],
           responses := TrySet(s.responses, l, Preempted),
           released := s.released + {l},
           waiting := s.waiting - {t})
      else
        s.(waiting := s.waiting[t := l])
  }

  function TakenOver(s: State, t: nat): set<nat> {
    if t in s.preempts then {s.preempts[t]} else {}
  }

  // The work ID belongs to a write that is queued or being written; queueing under it is refused.
  predicate IdLive(s: State, workId: string) {
    exists w :: w in s.pool + s.writing && w.workId == workId
  }

  function Step(s: State, e: Event): State
    requires Enabled(s, e)
  {
    match e
    case Begin(call) =>
      var t := s.serials;
      Acquire(s.(calls := s.calls[t := call], serials := t + 1), t, call)
    case Retry(t) => Acquire(s, t, s.calls[t])
    case QueueOwn(t, accepted) =>
      var id := s.calls[t].workId;
      if IdLive(s, id) then s.(phase := s.phase[t := UnwindPreempted])
      else if !accepted then s.(phase := s.phase[t := Queued(false)])
      else s.(phase := s.phase[t := Queued(true)], pool := s.pool + {Write(id, Some(t), s.serials)}, serials := s.serials + 1)
    case AfterQueue(t) =>
      s.(fences := s.fences + TakenOver(s, t),
         phase := s.phase[t := if s.phase[t].accepted then Awaiting else UnwindPreempted])
    case Leave(t) => s.(phase := s.phase[t := UnwindPreempted])
    case Unwind(t) =>
      (match s.phase[t]
       case UnwindPreempted => s.(fences := s.fences + TakenOver(s, t), phase := s.phase[t := UnwindFence])
       case UnwindFence => s.(fences := s.fences + {t}, phase := s.phase[t := UnwindLease])
       case UnwindLease =>
         s.(active := if s.active == Some(t) then None else s.active, phase := s.phase[t := UnwindReleased])
       case _ => s.(released := s.released + {t}, phase := s.phase[t := Finished]))
    case QueueForeign(id) =>
      if IdLive(s, id) then s
      else s.(pool := s.pool + {Write(id, None, s.serials)}, serials := s.serials + 1)
    case StartWrite(w) =>
      s.(pool := s.pool - {w}, writing := s.writing + {w}, started := s.started + {w},
         armed := if s.active.Some? && s.calls[s.active.value].workId == w.workId then s.armed + {s.active.value} else s.armed)
    case EndWrite(w) => s.(writing := s.writing - {w})
    case DropWrite(w) => s.(pool := s.pool - {w})
    case Abandon(t) => s.(waiting := s.waiting - {t})
    case Capture =>
      s.(dispatcher := Captured(if s.active.Some? && s.active.value in s.armed then s.active else None))
    case Deliver(reply) =>
      s.(dispatcher := Idle,
         responses := if reply.Some? && s.dispatcher.lease.Some? then TrySet(s.responses, s.dispatcher.lease.value, reply.value)
                      else s.responses)
    case TakeActive => s.(active := None, closing := s.closing[s.active.value := Resolving])
    case Close(l) =>
      (match s.closing[l]
       case Resolving => s.(responses := TrySet(s.responses, l, Closed), closing := s.closing[l := ReleasingFence])
       case ReleasingFence => s.(fences := s.fences + {l}, closing := s.closing[l := ReleasingPreempted])
       case ReleasingPreempted => s.(fences := s.fences + TakenOver(s, l), closing := s.closing[l := Announcing])
       case Announcing => s.(released := s.released + {l}, closing := s.closing - {l}))
  }

  // ---------------------------------------------------------------- the invariant

  predicate Unwinding(p: Phase) {
    p.UnwindPreempted? || p.UnwindFence? || p.UnwindLease? || p.UnwindReleased? || p.Finished?
  }

  predicate PastOwnFence(p: Phase) {
    p.UnwindLease? || p.UnwindReleased? || p.Finished?
  }

  predicate PastTakenFence(p: Phase) {
    p.Awaiting? || p.UnwindFence? || PastOwnFence(p)
  }

  ghost predicate WellNumbered(s: State) {
    && (forall t :: t in s.calls ==> t < s.serials)
    && s.phase.Keys <= s.calls.Keys
    && s.waiting.Keys <= s.calls.Keys && s.waiting.Keys !! s.phase.Keys
    && (forall t :: t in s.waiting ==> s.waiting[t] in s.phase)
    && (s.active.Some? ==> s.active.value in s.phase)
    && s.closing.Keys <= s.phase.Keys
    && s.armed <= s.phase.Keys && s.responses.Keys <= s.phase.Keys
    && (s.dispatcher.Captured? && s.dispatcher.lease.Some? ==> s.dispatcher.lease.value in s.armed)
    && (forall t :: t in s.preempts ==> t in s.phase && s.preempts[t] in s.phase)
  }

  // A lease that is not active has announced its release, or is one step from doing so.
  ghost predicate LostLeasesAnnounce(s: State)
    requires WellNumbered(s)
  {
    forall t :: t in s.phase && s.active != Some(t) ==>
      t in s.released || t in s.closing || s.phase[t].UnwindReleased?
  }

  // Only leases below Safety are ever preempted, and a preempted lease is not active.
  ghost predicate SafetyStands(s: State)
    requires WellNumbered(s)
  {
    && (forall t :: t in s.responses && s.responses[t] == Preempted ==> !s.calls[t].safety)
    && (forall t :: t in s.preempts ==> s.calls[t].safety && !s.calls[s.preempts[t]].safety)
    && (forall t :: t in s.preempts ==> s.active != Some(s.preempts[t]))
    && (forall t :: t in s.closing ==> s.active != Some(t))
    && (forall t :: t in s.phase && (s.phase[t].UnwindReleased? || s.phase[t].Finished?) ==> s.active != Some(t))
  }

  // The fence of the active lease stands until its transaction unwinds; a finished transaction leaves
  // neither its own fence nor the one it took over.
  ghost predicate FencesFollowLeases(s: State)
    requires WellNumbered(s)
  {
    && (s.active.Some? && !Unwinding(s.phase[s.active.value]) ==> s.active.value !in s.fences)
    && (forall t :: t in s.fences ==> t in s.phase)
    && (forall t :: t in s.phase && PastTakenFence(s.phase[t]) ==> TakenOver(s, t) <= s.fences)
    && (forall t :: t in s.phase && PastOwnFence(s.phase[t]) ==> t in s.fences)
  }

  // A device reply is held only by a lease that a started write has armed.
  ghost predicate RepliesFollowArming(s: State)
    requires WellNumbered(s)
  {
    && (forall t :: t in s.responses && (s.responses[t].Result? || s.responses[t].DeviceError?) ==> t in s.armed)
    && (forall t :: t in s.armed ==> exists w :: w in s.started && w.workId == s.calls[t].workId)
  }

  ghost predicate Inv(s: State) {
    WellNumbered(s) && LostLeasesAnnounce(s) && SafetyStands(s) && FencesFollowLeases(s) && RepliesFollowArming(s)
  }

  // ---------------------------------------------------------------- primitive updates keep it

  lemma PhaseChangeKeepsInv(s: State, t: nat, p: Phase)
    requires Inv(s) && t in s.phase
    requires Unwinding(s.phase[t]) ==> Unwinding(p)
    requires PastTakenFence(p) ==> TakenOver(s, t) <= s.fences
    requires PastOwnFence(p) ==> t in s.fences
    requires p.UnwindReleased? || p.Finished? ==> s.active != Some(t)
    requires s.phase[t].UnwindReleased? ==> t in s.released || p.UnwindReleased?
    ensures Inv(s.(phase := s.phase[t := p]))
  {
  }

  lemma FencesGrowKeepsInv(s: State, more: set<nat>)
    requires Inv(s) && more <= s.phase.Keys
    requires s.active.Some? && !Unwinding(s.phase[s.active.value]) ==> s.active.value !in more
    ensures Inv(s.(fences := s.fences + more))
  {
  }

  lemma ReleaseKeepsInv(s: State, t: nat)
    requires Inv(s)
    ensures Inv(s.(released := s.released + {t}))
  {
  }

  lemma TakenOverIsReleasable(s: State, t: nat)
    requires Inv(s)
    ensures TakenOver(s, t) <= s.phase.Keys
    ensures s.active.Some? ==> s.active.value !in TakenOver(s, t)
  {
  }

  lemma ResponseKeepsInv(s: State, t: nat, reply: Reply)
    requires Inv(s) && t in s.phase
    requires reply.Result? || reply.DeviceError? ==> t in s.armed
    requires reply == Preempted ==> !s.calls[t].safety
    ensures Inv(s.(responses := TrySet(s.responses, t, reply)))
  {
  }

  lemma ClosingChangeKeepsInv(s: State, t: nat, c: Closing)
    requires Inv(s) && t in s.closing
    ensures Inv(s.(closing := s.closing[t := c]))
  {
  }

  lemma ClosingEndKeepsInv(s: State, t: nat)
    requires Inv(s) && t in s.released
    ensures Inv(s.(closing := s.closing - {t}))
  {
  }

  // ---------------------------------------------------------------- so does every step

  lemma GrantKeepsInv(s: State, t: nat)
    requires Inv(s) && t in s.calls && t !in s.phase && s.active.None?
    ensures Inv(s.(active := Some(t), phase := s.phase[t := Acquired], waiting := s.waiting - {t}))
  {
  }

  lemma PreemptKeepsInv(s: State, t: nat, l: nat)
    requires Inv(s) && t in s.calls && t !in s.phase && s.active == Some(l) && s.calls[t].safety && !s.calls[l].safety
    ensures Inv(Acquire(s, t, s.calls[t]))
  {
    ResponseKeepsInv(s, l, Preempted);
    var s1 := s.(responses := TrySet(s.responses, l, Preempted));
    ReleaseKeepsInv(s1, l);
    var s2 := s1.(released := s1.released + {l});
    HandOverKeepsInv(s2, t, l);
  }

  lemma HandOverKeepsInv(s: State, t: nat, l: nat)
    requires Inv(s) && t in s.calls && t !in s.phase && s.active == Some(l) && s.calls[t].safety && !s.calls[l].safety
    requires l in s.released
    ensures Inv(s.(active := Some(t), phase := s.phase[t := Acquired], preempts := s.preempts[t := l],
                   waiting := s.waiting - {t}))
  {
    DeactivateKeepsInv(s, l);
    GrantKeepsInv(s.(active := None), t);
    TakeOverKeepsInv(s.(active := Some(t), phase := s.phase[t := Acquired], waiting := s.waiting - {t}), t, l);
  }

  lemma DeactivateKeepsInv(s: State, l: nat)
    requires Inv(s) && s.active == Some(l) && l in s.released
    ensures Inv(s.(active := None))
  {
  }

  lemma TakeOverKeepsInv(s: State, t: nat, l: nat)
    requires Inv(s) && s.active == Some(t) && s.phase[t] == Acquired && l in s.phase && l != t
    requires s.calls[t].safety && !s.calls[l].safety
    ensures Inv(s.(preempts := s.preempts[t := l]))
  {
  }

  lemma WaitKeepsInv(s: State, t: nat, l: nat)
    requires Inv(s) && t in s.calls && t !in s.phase && l in s.phase
    ensures Inv(s.(waiting := s.waiting[t := l]))
  {
  }

  lemma AcquireKeepsInv(s: State, t: nat)
    requires Inv(s) && t in s.calls && t !in s.phase
    ensures Inv(Acquire(s, t, s.calls[t]))
  {
    if s.active.None? {
      GrantKeepsInv(s, t);
    } else if s.calls[t].safety && !s.calls[s.active.value].safety {
      PreemptKeepsInv(s, t, s.active.value);
    } else {
      WaitKeepsInv(s, t, s.active.value);
    }
  }

  lemma NewCallKeepsInv(s: State, call: Call)
    requires Inv(s)
    ensures Inv(s.(calls := s.calls[s.serials := call], serials := s.serials + 1))
  {
  }

  // Queueing, completing and dropping writes leaves the leases alone.
  lemma PoolChangeKeepsInv(s: State, pool: set<Write>, writing: set<Write>, serials: nat)
    requires Inv(s) && serials >= s.serials
    ensures Inv(s.(pool := pool, writing := writing, serials := serials))
  {
  }

  lemma PoolAndPhaseKeepInv(s: State, pool: set<Write>, serials: nat, t: nat, p: Phase)
    requires Inv(s) && serials >= s.serials && t in s.phase && s.phase[t].Acquired?
    requires p.Queued? || p.UnwindPreempted?
    ensures Inv(s.(pool := pool, serials := serials, phase := s.phase[t := p]))
  {
    PhaseChangeKeepsInv(s, t, p);
    PoolChangeKeepsInv(s.(phase := s.phase[t := p]), pool, s.writing, serials);
  }

  lemma FencesAndPhaseKeepInv(s: State, more: set<nat>, t: nat, p: Phase)
    requires Inv(s) && t in s.phase && more <= s.phase.Keys
    requires s.active.Some? && !Unwinding(s.phase[s.active.value]) ==> s.active.value !in more
    requires Unwinding(s.phase[t]) ==> Unwinding(p)
    requires !s.phase[t].UnwindReleased? && !p.UnwindReleased? && !p.Finished?
    requires PastTakenFence(p) ==> TakenOver(s, t) <= s.fences + more
    requires PastOwnFence(p) ==> t in s.fences + more
    ensures Inv(s.(fences := s.fences + more, phase := s.phase[t := p]))
  {
    FencesGrowKeepsInv(s, more);
    PhaseChangeKeepsInv(s.(fences := s.fences + more), t, p);
  }

  lemma QueueOwnKeepsInv(s: State, t: nat, accepted: bool)
    requires Inv(s) && Enabled(s, QueueOwn(t, accepted))
    ensures Inv(Step(s, QueueOwn(t, accepted)))
  {
    var s' := Step(s, QueueOwn(t, accepted));
    PoolAndPhaseKeepInv(s, s'.pool, s'.serials, t, s'.phase[t]);
  }

  lemma AfterQueueKeepsInv(s: State, t: nat)
    requires Inv(s) && Enabled(s, AfterQueue(t))
    ensures Inv(Step(s, AfterQueue(t)))
  {
    TakenOverIsReleasable(s, t);
    FencesAndPhaseKeepInv(s, TakenOver(s, t), t, if s.phase[t].accepted then Awaiting else UnwindPreempted);
  }

  lemma UnwindFencesKeepsInv(s: State, t: nat)
    requires Inv(s) && t in s.phase && (s.phase[t].UnwindPreempted? || s.phase[t].UnwindFence?)
    ensures Inv(Step(s, Unwind(t)))
  {
    if s.phase[t].UnwindPreempted? {
      TakenOverIsReleasable(s, t);
      FencesAndPhaseKeepInv(s, TakenOver(s, t), t, UnwindFence);
    } else {
      FencesAndPhaseKeepInv(s, {t}, t, UnwindLease);
    }
  }

  lemma AnnounceKeepsInv(s: State, t: nat)
    requires Inv(s) && t in s.phase && s.phase[t].UnwindReleased?
    ensures Inv(s.(released := s.released + {t}, phase := s.phase[t := Finished]))
  {
    ReleaseKeepsInv(s, t);
    PhaseChangeKeepsInv(s.(released := s.released + {t}), t, Finished);
  }

  lemma UnwindLeaseKeepsInv(s: State, t: nat)
    requires Inv(s) && t in s.phase && (s.phase[t].UnwindLease? || s.phase[t].UnwindReleased?)
    ensures Inv(Step(s, Unwind(t)))
  {
    if s.phase[t].UnwindLease? {
      DropKeepsInv(s, t);
    } else {
      AnnounceKeepsInv(s, t);
    }
  }

  lemma DropKeepsInv(s: State, t: nat)
    requires Inv(s) && t in s.phase && s.phase[t].UnwindLease?
    ensures Inv(s.(active := if s.active == Some(t) then None else s.active, phase := s.phase[t := UnwindReleased]))
  {
  }

  lemma StartWriteKeepsInv(s: State, w: Write)
    requires Inv(s) && Enabled(s, StartWrite(w))
    ensures Inv(Step(s, StartWrite(w)))
  {
    PoolChangeKeepsInv(s, s.pool - {w}, s.writing + {w}, s.serials);
    ArmingKeepsInv(s.(pool := s.pool - {w}, writing := s.writing + {w}, serials := s.serials), w);
  }

  lemma ArmingKeepsInv(s: State, w: Write)
    requires Inv(s)
    ensures Inv(s.(started := s.started + {w},
                   armed := if s.active.Some? && s.calls[s.active.value].workId == w.workId then s.armed + {s.active.value}
                            else s.armed))
  {
  }

  lemma AbandonKeepsInv(s: State, t: nat)
    requires Inv(s)
    ensures Inv(s.(waiting := s.waiting - {t}))
  {
  }

  lemma DispatcherChangeKeepsInv(s: State, d: Dispatcher)
    requires Inv(s) && (d.Captured? && d.lease.Some? ==> d.lease.value in s.armed)
    ensures Inv(s.(dispatcher := d))
  {
  }

  lemma DeliverKeepsInv(s: State, reply: Option<Reply>)
    requires Inv(s) && Enabled(s, Deliver(reply))
    ensures Inv(Step(s, Deliver(reply)))
  {
    DispatcherChangeKeepsInv(s, Idle);
    if reply.Some? && s.dispatcher.lease.Some? {
      ResponseKeepsInv(s.(dispatcher := Idle), s.dispatcher.lease.value, reply.value);
    }
  }

  lemma TakeActiveKeepsInv(s: State)
    requires Inv(s) && s.active.Some?
    ensures Inv(s.(active := None, closing := s.closing[s.active.value := Resolving]))
  {
  }

  lemma CloseKeepsInv(s: State, e: Event)
    requires Inv(s) && Enabled(s, e) && e.Close?
    ensures Inv(Step(s, e))
  {
    var l := e.lease;
    match s.closing[l]
    case Resolving =>
      ResponseKeepsInv(s, l, Closed);
      ClosingChangeKeepsInv(s.(responses := TrySet(s.responses, l, Closed)), l, ReleasingFence);
    case ReleasingFence =>
      FencesGrowKeepsInv(s, {l});
      ClosingChangeKeepsInv(s.(fences := s.fences + {l}), l, ReleasingPreempted);
    case ReleasingPreempted =>
      TakenOverIsReleasable(s, l);
      FencesGrowKeepsInv(s, TakenOver(s, l));
      ClosingChangeKeepsInv(s.(fences := s.fences + TakenOver(s, l)), l, Announcing);
    case Announcing =>
      ReleaseKeepsInv(s, l);
      ClosingEndKeepsInv(s.(released := s.released + {l}), l);
  }

  lemma StepKeepsInv(s: State, e: Event)
    requires Inv(s) && Enabled(s, e)
    ensures Inv(Step(s, e))
  {
    match e
    case Begin(call) =>
      NewCallKeepsInv(s, call);
      AcquireKeepsInv(s.(calls := s.calls[s.serials := call], serials := s.serials + 1), s.serials);
    case Retry(t) => AcquireKeepsInv(s, t);
    case QueueOwn(t, accepted) => QueueOwnKeepsInv(s, t, accepted);
    case AfterQueue(t) => AfterQueueKeepsInv(s, t);
    case Leave(t) => PhaseChangeKeepsInv(s, t, UnwindPreempted);
    case Unwind(t) =>
      if s.phase[t].UnwindPreempted? || s.phase[t].UnwindFence? {
        UnwindFencesKeepsInv(s, t);
      } else {
        UnwindLeaseKeepsInv(s, t);
      }
    case QueueForeign(_) => PoolChangeKeepsInv(s, Step(s, e).pool, s.writing, Step(s, e).serials);
    case StartWrite(w) => StartWriteKeepsInv(s, w);
    case EndWrite(w) => PoolChangeKeepsInv(s, s.pool, s.writing - {w}, s.serials);
    case DropWrite(w) => PoolChangeKeepsInv(s, s.pool - {w}, s.writing, s.serials);
    case Abandon(t) => AbandonKeepsInv(s, t);
    case Capture => DispatcherChangeKeepsInv(s, Step(s, e).dispatcher);
    case Deliver(reply) => DeliverKeepsInv(s, reply);
    case TakeActive => TakeActiveKeepsInv(s);
    case Close(_) => CloseKeepsInv(s, e);
  }

  // ---------------------------------------------------------------- runs

  ghost predicate IsRun(states: seq<State>, events: seq<Event>) {
    && |states| == |events| + 1
    && states[0] == INITIAL
    && (forall i :: 0 <= i < |events| ==> Enabled(states[i], events[i]) && states[i + 1] == Step(states[i], events[i]))
  }

  lemma {:induction false} RunsKeepInv(states: seq<State>, events: seq<Event>, i: nat)
    requires IsRun(states, events) && i < |states|
    ensures Inv(states[i])
  {
    if i > 0 {
      RunsKeepInv(states, events, i - 1);
      StepKeepsInv(states[i - 1], events[i - 1]);
    }
  }

  // A Safety lease is never preempted: it is lost only by its own transaction's unwinding or when the
  // whole session closes, and its response never reports preemption.
  lemma SafetyIsNeverPreempted(states: seq<State>, events: seq<Event>, i: nat, t: nat)
    requires IsRun(states, events) && i < |events|
    requires t in states[i].phase && t in states[i].calls && states[i].calls[t].safety
    ensures states[i].active == Some(t) && states[i + 1].active != Some(t) ==>
              events[i] == TakeActive || (events[i] == Unwind(t) && states[i].phase[t].UnwindLease?)
    ensures t in states[i].responses ==> states[i].responses[t] != Preempted
  {
    RunsKeepInv(states, events, i);
    SafetyLossStep(states[i], events[i], t);
  }

  lemma SafetyLossStep(s: State, e: Event, t: nat)
    requires t in s.calls && s.calls[t].safety && Enabled(s, e)
    ensures s.active == Some(t) && Step(s, e).active != Some(t) ==>
              e == TakeActive || (e == Unwind(t) && s.phase[t].UnwindLease?)
  {
  }

  // Each lease's response resolves at most once.
  lemma {:induction false} ResponsesAreFinal(states: seq<State>, events: seq<Event>, i: nat, j: nat, t: nat)
    requires IsRun(states, events) && i <= j < |states| && t in states[i].responses
    ensures t in states[j].responses && states[j].responses[t] == states[i].responses[t]
    decreases j - i
  {
    if i < j {
      StepKeepsResponses(states[i], events[i], t);
      ResponsesAreFinal(states, events, i + 1, j, t);
    }
  }

  lemma StepKeepsResponses(s: State, e: Event, t: nat)
    requires Enabled(s, e) && t in s.responses
    ensures t in Step(s, e).responses && Step(s, e).responses[t] == s.responses[t]
  {
    if e.Unwind? {
      UnwindingKeepsResponses(s, e.t);
    }
  }

  lemma UnwindingKeepsResponses(s: State, u: nat)
    requires Enabled(s, Unwind(u))
    ensures Step(s, Unwind(u)).responses == s.responses
  {
  }

  // A waiter is never stranded: once the lease it waits for is no longer active, its retry is enabled
  // or the step that sets the awaited task is the next one of the party that removed the lease.
  lemma WaitersAreWoken(states: seq<State>, events: seq<Event>, i: nat, t: nat)
    requires IsRun(states, events) && i < |states| && t in states[i].waiting
    requires states[i].active != Some(states[i].waiting[t])
    ensures var s, l := states[i], states[i].waiting[t];
            || Enabled(s, Retry(t)) || Enabled(s, Close(l))
            || (l in s.phase && s.phase[l].UnwindReleased? && Enabled(s, Unwind(l)))
  {
    RunsKeepInv(states, events, i);
  }

  // The fence of the active lease stands until its transaction unwinds, so the writer stays held for it;
  // and a finished transaction leaves neither its own fence nor one it took over behind.
  lemma FencesStandAndFall(states: seq<State>, events: seq<Event>, i: nat, t: nat)
    requires IsRun(states, events) && i < |states| && t in states[i].phase
    ensures states[i].active == Some(t) && !Unwinding(states[i].phase[t]) ==> t !in states[i].fences
    ensures states[i].phase[t].Finished? ==> t in states[i].fences && TakenOver(states[i], t) <= states[i].fences
  {
    RunsKeepInv(states, events, i);
  }

  // ---------------------------------------------------------------- whose write armed the lease

  predicate Uses(e: Event, workId: string) {
    (e.Begin? && e.call.workId == workId) || (e.QueueForeign? && e.workId == workId)
  }

  // No work ID is handed to the session twice.
  ghost predicate FreshIds(events: seq<Event>) {
    forall i, j, id :: 0 <= i < j < |events| && Uses(events[i], id) ==> !Uses(events[j], id)
  }

  ghost predicate WriteOf(s: State, w: Write) {
    && (w.owner.Some? ==> w.owner.value in s.calls && s.calls[w.owner.value].workId == w.workId)
    && (forall t :: t in s.calls && s.calls[t].workId == w.workId ==> w.owner == Some(t))
  }

  ghost predicate UsedBefore(events: seq<Event>, i: nat, workId: string)
    requires i <= |events|
  {
    exists k :: 0 <= k < i && Uses(events[k], workId)
  }

  // Every write belongs to the one call with its work ID, and all IDs around were used by an earlier event.
  ghost predicate OwnIds(s: State, events: seq<Event>, i: nat)
    requires i <= |events|
  {
    && (forall t :: t in s.calls ==> t < s.serials && UsedBefore(events, i, s.calls[t].workId))
    && (forall t, u :: t in s.calls && u in s.calls && s.calls[t].workId == s.calls[u].workId ==> t == u)
    && (forall w :: w in s.pool || w in s.started ==> UsedBefore(events, i, w.workId) && WriteOf(s, w))
  }

  lemma UsedLater(events: seq<Event>, i: nat)
    requires i < |events|
    ensures forall id :: UsedBefore(events, i + 1, id) <==> UsedBefore(events, i, id) || Uses(events[i], id)
  {
  }

  predicate MovesWrites(e: Event) {
    e.QueueOwn? || e.QueueForeign? || e.StartWrite? || e.DropWrite?
  }

  ghost predicate SameWrites(s: State, s': State) {
    s'.calls == s.calls && s'.serials == s.serials && s'.pool == s.pool && s'.started == s.started
  }

  lemma ReleasingMovesNoWrites(s: State, e: Event)
    requires Enabled(s, e) && (e.Unwind? || e.Close?)
    ensures SameWrites(s, Step(s, e))
  {
  }

  lemma OthersMoveNoWrites(s: State, e: Event)
    requires Enabled(s, e) && !e.Begin? && !MovesWrites(e) && !e.Unwind? && !e.Close?
    ensures SameWrites(s, Step(s, e))
  {
  }

  ghost predicate AddsAtMost(s: State, s': State, w: Write) {
    s'.calls == s.calls && s'.serials >= s.serials && s'.started == s.started && s'.pool <= s.pool + {w}
  }

  lemma QueueOwnAddsItsWrite(s: State, t: nat, accepted: bool)
    requires Enabled(s, QueueOwn(t, accepted))
    ensures AddsAtMost(s, Step(s, QueueOwn(t, accepted)), Write(s.calls[t].workId, Some(t), s.serials))
  {
  }

  lemma QueueForeignAddsItsWrite(s: State, id: string)
    ensures AddsAtMost(s, Step(s, QueueForeign(id)), Write(id, None, s.serials))
  {
  }

  lemma StartingMovesWrites(s: State, e: Event)
    requires Enabled(s, e) && (e.StartWrite? || e.DropWrite?)
    ensures var s' := Step(s, e);
            && s'.calls == s.calls && s'.serials == s.serials
            && s'.pool <= s.pool && s'.started <= s.started + s.pool
  {
  }

  lemma BeginKeepsWrites(s: State, call: Call)
    ensures var s' := Step(s, Begin(call));
            && s'.calls == s.calls[s.serials := call] && s'.serials == s.serials + 1
            && s'.pool == s.pool && s'.started == s.started
  {
  }

  lemma StepKeepsOwnIds(s: State, events: seq<Event>, i: nat)
    requires i < |events| && OwnIds(s, events, i) && Enabled(s, events[i])
    requires forall id :: Uses(events[i], id) ==> !UsedBefore(events, i, id)
    ensures OwnIds(Step(s, events[i]), events, i + 1)
  {
    var e := events[i];
    var s' := Step(s, e);
    UsedLater(events, i);
    if e.Begin? {
      BeginKeepsWrites(s, e.call);
      assert Uses(e, e.call.workId);
    } else if e.QueueOwn? {
      QueueOwnAddsItsWrite(s, e.t, e.accepted);
    } else if e.QueueForeign? {
      QueueForeignAddsItsWrite(s, e.workId);
      assert Uses(e, e.workId);
    } else if e.StartWrite? || e.DropWrite? {
      StartingMovesWrites(s, e);
    } else if e.Unwind? || e.Close? {
      ReleasingMovesNoWrites(s, e);
    } else {
      OthersMoveNoWrites(s, e);
    }
    forall w | w in s'.pool || w in s'.started ensures UsedBefore(events, i + 1, w.workId) && WriteOf(s', w) {
      assert w in s.pool || w in s.started ==> WriteOf(s, w);
    }
  }

  lemma {:induction false} RunsKeepOwnIds(states: seq<State>, events: seq<Event>, i: nat)
    requires IsRun(states, events) && FreshIds(events) && i < |states|
    ensures OwnIds(states[i], events, i)
  {
    if i > 0 {
      RunsKeepOwnIds(states, events, i - 1);
      StepKeepsOwnIds(states[i - 1], events, i - 1);
    }
  }

  // ---------------------------------------------------------------- replies without an own write

  // A write of the transaction itself has been started.
  ghost predicate OwnStarted(s: State, t: nat) {
    exists w :: w in s.started && w.owner == Some(t)
  }

  // The transaction took a device reply, although none of its own writes has started.
  ghost predicate AnsweredWithoutOwnWrite(s: State, t: nat) {
    t in s.responses && (s.responses[t].Result? || s.responses[t].DeviceError?) && !OwnStarted(s, t)
  }

  // Starting a write arms a lease, whatever its phase and the dispatcher's, exactly when the lease is
  // active and the write carries its work ID; the lease then has no write of its own exactly when the
  // started one is foreign and none of its own has started before.
  lemma StartArmsWithoutOwnWriteExactlyWhen(s: State, w: Write, t: nat)
    requires Enabled(s, StartWrite(w)) && s.active == Some(t)
    ensures var s' := Step(s, StartWrite(w));
      t in s'.armed && t !in s.armed && !OwnStarted(s', t)
      <==> w.workId == s.calls[t].workId && w.owner != Some(t) && t !in s.armed && !OwnStarted(s, t)
  {
    var s' := Step(s, StartWrite(w));
    assert w in s'.started;
    if OwnStarted(s, t) {
      var own :| own in s.started && own.owner == Some(t);
      assert own in s'.started;
    }
  }

  // The foreign write that does it: it starts under the work ID of the active lease, and no write of
  // the lease itself has started by then.
  ghost predicate ForeignStart(s: State, e: Event, t: nat)
    requires Enabled(s, e)
  {
    && e.StartWrite? && s.active == Some(t) && e.write.workId == s.calls[t].workId
    && !OwnStarted(Step(s, e), t)
  }

  lemma UnwindingArmsNothing(s: State, t: nat)
    requires Enabled(s, Unwind(t))
    ensures Step(s, Unwind(t)).started == s.started && Step(s, Unwind(t)).armed == s.armed
  {
  }

  lemma ClosingArmsNothing(s: State, l: nat)
    requires Enabled(s, Close(l))
    ensures Step(s, Close(l)).started == s.started && Step(s, Close(l)).armed == s.armed
  {
  }

  lemma ArmingIsByStart(s: State, e: Event, t: nat)
    requires Enabled(s, e)
    ensures s.started <= Step(s, e).started
    ensures t in Step(s, e).armed && t !in s.armed ==>
      e.StartWrite? && s.active == Some(t) && e.write.workId == s.calls[t].workId
  {
    match e
    case Unwind(t) => UnwindingArmsNothing(s, t);
    case Close(l) => ClosingArmsNothing(s, l);
    case _ =>
  }

  // An armed lease has started a write of its own, or a foreign write started under its ID.
  lemma {:induction false} ArmedByOwnOrForeign(states: seq<State>, events: seq<Event>, i: nat, t: nat)
    requires IsRun(states, events) && i < |states| && t in states[i].armed && !OwnStarted(states[i], t)
    ensures exists k :: 0 <= k < i && ForeignStart(states[k], events[k], t)
  {
    if i > 0 {
      ArmingIsByStart(states[i - 1], events[i - 1], t);
      if t in states[i - 1].armed {
        ArmedByOwnOrForeign(states, events, i - 1, t);
      } else {
        assert ForeignStart(states[i - 1], events[i - 1], t);
      }
    }
  }

  // An active lease is answered by the device or not at all; preemption and closing take it away first.
  ghost predicate ActiveIsOpen(s: State) {
    s.active.Some? && s.active.value in s.responses ==>
      s.responses[s.active.value].Result? || s.responses[s.active.value].DeviceError?
  }

  lemma AcquiringKeepsActiveOpen(s: State, t: nat, call: Call)
    requires Inv(s) && ActiveIsOpen(s) && t !in s.phase
    ensures ActiveIsOpen(Acquire(s, t, call))
  {
  }

  lemma StepKeepsActiveOpen(s: State, e: Event)
    requires Inv(s) && Enabled(s, e) && ActiveIsOpen(s)
    ensures ActiveIsOpen(Step(s, e))
  {
    match e
    case Begin(call) =>
      NewCallKeepsInv(s, call);
      AcquiringKeepsActiveOpen(s.(calls := s.calls[s.serials := call], serials := s.serials + 1), s.serials, call);
    case Retry(t) => AcquiringKeepsActiveOpen(s, t, s.calls[t]);
    case Unwind(t) => UnwindingKeepsActiveOpen(s, t);
    case Close(l) => ClosingKeepsActiveOpen(s, l);
    case _ => OthersKeepActiveOpen(s, e);
  }

  lemma UnwindingKeepsActiveOpen(s: State, t: nat)
    requires Enabled(s, Unwind(t)) && ActiveIsOpen(s)
    ensures ActiveIsOpen(Step(s, Unwind(t)))
  {
  }

  lemma ClosingKeepsActiveOpen(s: State, l: nat)
    requires Inv(s) && Enabled(s, Close(l)) && ActiveIsOpen(s)
    ensures ActiveIsOpen(Step(s, Close(l)))
  {
  }

  lemma OthersKeepActiveOpen(s: State, e: Event)
    requires Inv(s) && Enabled(s, e) && ActiveIsOpen(s) && !e.Begin? && !e.Retry? && !e.Unwind? && !e.Close?
    ensures ActiveIsOpen(Step(s, e))
  {
  }

  lemma {:induction false} RunsKeepActiveOpen(states: seq<State>, events: seq<Event>, i: nat)
    requires IsRun(states, events) && i < |states|
    ensures Inv(states[i]) && ActiveIsOpen(states[i])
  {
    RunsKeepInv(states, events, i);
    if i > 0 {
      RunsKeepActiveOpen(states, events, i - 1);
      StepKeepsActiveOpen(states[i - 1], events[i - 1]);
    }
  }

  // The dispatcher alone, taking chunks and delivering their replies.
  ghost predicate CanDispatch(s: State, more: seq<Event>)
    decreases |more|
  {
    more == [] || ((more[0].Capture? || more[0].Deliver?) && Enabled(s, more[0]) && CanDispatch(Step(s, more[0]), more[1..]))
  }

  ghost function Dispatched(s: State, more: seq<Event>): State
    requires CanDispatch(s, more)
    decreases |more|
  {
    if more == [] then s else Dispatched(Step(s, more[0]), more[1..])
  }

  // The dispatcher can still answer the transaction, or has answered it, without a write of its own.
  ghost predicate CanBeAnswered(s: State, t: nat) {
    exists more :: CanDispatch(s, more) && AnsweredWithoutOwnWrite(Dispatched(s, more), t)
  }

  lemma {:induction false} DispatchingArmsNothing(s: State, more: seq<Event>)
    requires Inv(s) && CanDispatch(s, more)
    ensures var s' := Dispatched(s, more);
      Inv(s') && s'.armed == s.armed && s'.started == s.started
    decreases |more|
  {
    if more != [] {
      StepKeepsInv(s, more[0]);
      DispatchingArmsNothing(Step(s, more[0]), more[1..]);
    }
  }

  lemma AnsweredMeansArmed(s: State, t: nat)
    requires Inv(s) && CanBeAnswered(s, t)
    ensures t in s.armed && !OwnStarted(s, t)
  {
    var more :| CanDispatch(s, more) && AnsweredWithoutOwnWrite(Dispatched(s, more), t);
    DispatchingArmsNothing(s, more);
  }

  lemma DispatchFirst(s: State, e: Event, rest: seq<Event>)
    requires (e.Capture? || e.Deliver?) && Enabled(s, e) && CanDispatch(Step(s, e), rest)
    ensures CanDispatch(s, [e] + rest) && Dispatched(s, [e] + rest) == Dispatched(Step(s, e), rest)
  {
    assert ([e] + rest)[0] == e && ([e] + rest)[1..] == rest;
  }

  // An active, armed lease is answered by the next chunk, whatever the dispatcher is at.
  lemma ArmedMeansAnswered(s: State, t: nat)
    requires Inv(s) && ActiveIsOpen(s) && s.active == Some(t) && t in s.armed && !OwnStarted(s, t)
    ensures CanBeAnswered(s, t)
  {
    if t in s.responses {
      assert CanDispatch(s, []) && Dispatched(s, []) == s;
    } else if s.dispatcher.Idle? {
      var more := CaptureAnswers(s, t);
    } else {
      var s1 := Step(s, Deliver(None));
      var more := CaptureAnswers(s1, t);
      DispatchFirst(s, Deliver(None), more);
    }
  }

  lemma CaptureAnswers(s: State, t: nat) returns (more: seq<Event>)
    requires s.dispatcher.Idle? && s.active == Some(t) && t in s.armed && t !in s.responses && !OwnStarted(s, t)
    ensures CanDispatch(s, more) && AnsweredWithoutOwnWrite(Dispatched(s, more), t)
  {
    var s1 := Step(s, Capture);
    var s2 := Step(s1, Deliver(Some(DeviceError)));
    assert CanDispatch(s2, []) && Dispatched(s2, []) == s2;
    DispatchFirst(s1, Deliver(Some(DeviceError)), []);
    DispatchFirst(s, Capture, [Deliver(Some(DeviceError))] + []);
    more := [Capture] + ([Deliver(Some(DeviceError))] + []);
  }

  lemma AnswerHasAForeignStart(states: seq<State>, events: seq<Event>, i: nat, t: nat)
    requires IsRun(states, events) && i < |states| && CanBeAnswered(states[i], t)
    ensures exists k :: 0 <= k < i && ForeignStart(states[k], events[k], t)
  {
    RunsKeepInv(states, events, i);
    AnsweredMeansArmed(states[i], t);
    ArmedByOwnOrForeign(states, events, i, t);
  }

  lemma ForeignStartGetsAnAnswer(states: seq<State>, events: seq<Event>, k: nat, t: nat)
    requires IsRun(states, events) && k < |events| && ForeignStart(states[k], events[k], t)
    ensures CanBeAnswered(states[k + 1], t)
  {
    RunsKeepActiveOpen(states, events, k + 1);
    ArmedMeansAnswered(states[k + 1], t);
  }

  // A lease can come to be answered without a write of its own if and only if a foreign write starts
  // under its work ID while it is active and before its own: over every run, in every phase.
  lemma ForeignReplyExactlyWhenForeignWriteStarts(states: seq<State>, events: seq<Event>, t: nat)
    requires IsRun(states, events)
    ensures (exists i :: 0 <= i < |states| && CanBeAnswered(states[i], t))
       <==> (exists k :: 0 <= k < |events| && ForeignStart(states[k], events[k], t))
  {
    if i: nat :| i < |states| && CanBeAnswered(states[i], t) {
      AnswerHasAForeignStart(states, events, i, t);
    }
    if k: nat :| k < |events| && ForeignStart(states[k], events[k], t) {
      ForeignStartGetsAnAnswer(states, events, k, t);
    }
  }

  // Seen from one state, in every phase and whatever the dispatcher is at: the next write to start can
  // get the active lease answered without a write of its own if and only if none of its own has
  // started and a foreign write is queued that carries its ID, or is any write if it is already armed.
  lemma ForeignReplyExactlyWhenIdIsQueued(s: State, t: nat)
    requires Inv(s) && ActiveIsOpen(s) && s.active == Some(t)
    ensures (exists w :: w in s.pool && CanBeAnswered(Step(s, StartWrite(w)), t))
       <==> !OwnStarted(s, t)
            && exists w :: w in s.pool && w.owner != Some(t) && (t in s.armed || w.workId == s.calls[t].workId)
  {
    forall w | w in s.pool
      ensures CanBeAnswered(Step(s, StartWrite(w)), t)
         <==> !OwnStarted(s, t) && w.owner != Some(t) && (t in s.armed || w.workId == s.calls[t].workId)
    {
      StartIsAnswerableExactlyWhen(s, w, t);
    }
  }

  lemma StartIsAnswerableExactlyWhen(s: State, w: Write, t: nat)
    requires Inv(s) && ActiveIsOpen(s) && s.active == Some(t) && w in s.pool
    ensures CanBeAnswered(Step(s, StartWrite(w)), t)
       <==> !OwnStarted(s, t) && w.owner != Some(t) && (t in s.armed || w.workId == s.calls[t].workId)
  {
    var s' := Step(s, StartWrite(w));
    StepKeepsInv(s, StartWrite(w));
    StepKeepsActiveOpen(s, StartWrite(w));
    StartedGrows(s, w, t);
    if CanBeAnswered(s', t) {
      AnsweredMeansArmed(s', t);
    } else if t in s'.armed && !OwnStarted(s', t) {
      ArmedMeansAnswered(s', t);
    }
  }

  lemma StartedGrows(s: State, w: Write, t: nat)
    requires Enabled(s, StartWrite(w))
    ensures OwnStarted(Step(s, StartWrite(w)), t) <==> OwnStarted(s, t) || w.owner == Some(t)
  {
    var s' := Step(s, StartWrite(w));
    assert w in s'.started;
    if OwnStarted(s, t) {
      var own :| own in s.started && own.owner == Some(t);
      assert own in s'.started;
    }
  }

  // No other write carries the work ID of the active lease.
  ghost predicate OnlyOwnIdQueued(s: State) {
    s.active.Some? && s.active.value in s.calls ==>
      forall w :: w in s.pool && w.workId == s.calls[s.active.value].workId ==> w.owner == s.active
  }

  // While no other queued write carries the work ID of the lease that is active, a lease takes a
  // reply only after its own write has started. Uses of other IDs, however often, do not matter.
  lemma RepliesFollowOwnWrite(states: seq<State>, events: seq<Event>, i: nat, t: nat)
    requires IsRun(states, events) && i < |states|
    requires forall k :: 0 <= k < i ==> OnlyOwnIdQueued(states[k])
    requires t in states[i].responses && (states[i].responses[t].Result? || states[i].responses[t].DeviceError?)
    ensures OwnStarted(states[i], t)
  {
    RunsKeepInv(states, events, i);
    forall k | 0 <= k < i ensures !ForeignStart(states[k], events[k], t) {
      OwnStartIsNotForeign(states[k], events[k], t);
    }
    if !OwnStarted(states[i], t) {
      ArmedByOwnOrForeign(states, events, i, t);
    }
  }

  lemma OwnStartIsNotForeign(s: State, e: Event, t: nat)
    requires Enabled(s, e) && OnlyOwnIdQueued(s)
    ensures !ForeignStart(s, e, t)
  {
    if e.StartWrite? {
      StartedGrows(s, e.write, t);
    }
  }

  // In particular callers that hand in no work ID twice are safe.
  lemma FreshIdsSuffice(states: seq<State>, events: seq<Event>, i: nat)
    requires IsRun(states, events) && FreshIds(events) && i < |states|
    ensures OnlyOwnIdQueued(states[i])
  {
    RunsKeepOwnIds(states, events, i);
    forall w | w in states[i].pool ensures WriteOf(states[i], w) {
    }
  }

  // Without that discipline it can fail: an unobserved write under the same work ID, started between the
  // transaction's acquisition and its own QueueWrite, lets the lease take a reply to the other write.
  lemma ReusedIdTakesAForeignReply() returns (states: seq<State>, events: seq<Event>)
    ensures IsRun(states, events)
    ensures var s := states[|states| - 1];
            && 1 in s.responses && s.responses[1] == Result("ok")
            && (forall w :: w in s.started ==> w.owner != Some(1))
  {
    var call, w := Call("x", false), Write("x", None, 0);
    events := [QueueForeign("x"), Begin(call), StartWrite(w), Capture, Deliver(Some(Result("ok")))];
    var s1 := INITIAL.(pool := {w}, serials := 1);
    var s2 := s1.(calls := map[1 := call], serials := 2, active := Some(1), phase := map[1 := Acquired]);
    var s3 := s2.(pool := {}, writing := {w}, started := {w}, armed := {1});
    var s4 := s3.(dispatcher := Captured(Some(1)));
    var s5 := s4.(dispatcher := Idle, responses := map[1 := Result("ok")]);
    assert s1 == Step(INITIAL, events[0]);
    assert s2 == Step(s1, events[1]);
    assert s3 == Step(s2, events[2]);
    assert s4 == Step(s3, events[3]);
    assert s5 == Step(s4, events[4]);
    states := [INITIAL, s1, s2, s3, s4, s5];
  }

  lemma OneMoreStep(states: seq<State>, events: seq<Event>, e: Event)
    requires IsRun(states, events) && Enabled(states[|states| - 1], e)
    ensures IsRun(states + [Step(states[|states| - 1], e)], events + [e])
  {
  }

  // The same happens past acquisition: the own write was queued and then superseded or expired, which
  // frees its work ID while the lease is still active, and a write under that ID starts.
  lemma LostWriteTakesAForeignReply() returns (states: seq<State>, events: seq<Event>)
    ensures IsRun(states, events)
    ensures var s := states[|states| - 1];
      0 in s.phase && s.phase[0] == Awaiting && AnsweredWithoutOwnWrite(s, 0)
  {
    states, events := LosesItsWrite();
    var other := Write("x", None, 2);
    var s4 := states[|states| - 1];
    var s5 := Step(s4, QueueForeign("x"));
    assert s5.pool == {other};
    OneMoreStep(states, events, QueueForeign("x"));
    states, events := states + [s5], events + [QueueForeign("x")];
    var s6 := Step(s5, StartWrite(other));
    assert s6.started == {other} && s6.armed == {0};
    OneMoreStep(states, events, StartWrite(other));
    states, events := states + [s6], events + [StartWrite(other)];
    var s7 := Step(s6, Capture);
    OneMoreStep(states, events, Capture);
    states, events := states + [s7], events + [Capture];
    OneMoreStep(states, events, Deliver(Some(Result("ok"))));
    states := states + [Step(s7, Deliver(Some(Result("ok"))))];
    events := events + [Deliver(Some(Result("ok")))];
  }

  lemma LosesItsWrite() returns (states: seq<State>, events: seq<Event>)
    ensures IsRun(states, events)
    ensures states[|states| - 1] == INITIAL.(
      calls := map[0 := Call("x", false)], serials := 2, active := Some(0), phase := map[0 := Awaiting])
  {
    var call, own := Call("x", false), Write("x", Some(0), 1);
    events := [Begin(call), QueueOwn(0, true), AfterQueue(0), DropWrite(own)];
    var s1 := INITIAL.(calls := map[0 := call], serials := 1, active := Some(0), phase := map[0 := Acquired]);
    var s2 := s1.(phase := map[0 := Queued(true)], pool := {own}, serials := 2);
    var s3 := s2.(phase := map[0 := Awaiting]);
    var s4 := s3.(pool := {});
    assert s1 == Step(INITIAL, events[0]);
    assert s2 == Step(s1, events[1]);
    assert s3 == Step(s2, events[2]);
    assert s4 == Step(s3, events[3]);
    states := [INITIAL, s1, s2, s3, s4];
  }
}
