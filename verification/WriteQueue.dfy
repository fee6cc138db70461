/**
The prioritized write queue of the serial scheduler: four FIFO lanes under one
lock, a depth counter, the set of live work IDs and the index of the weighted
fair schedule. The functions state what each locked region does to the queue;
class `SerialScheduler.SerialDuplexScheduler` performs the same regions in place.
*/
module WriteQueue {
  import opened Wrappers

  datatype Priority = Safety | Interactive | Telemetry | Background {
    // The numeric value of the priority; lower is more urgent.
    function Value(): nat {
      match this
      case Safety => 0
      case Interactive => 1
      case Telemetry => 2
      case Background => 3
    }
  }

  const FAIR_SCHEDULE: seq<Priority> :=
    [Interactive, Interactive, Interactive, Telemetry, Interactive, Telemetry, Interactive, Background]

  type Slot = i: nat | i < 8

  datatype Options = Options(capacity: int, reserve: int) {
    predicate Valid() {
      8 <= capacity <= 4096 && 1 <= reserve <= 64 && reserve < capacity
    }
  }

  // What a caller asks to have written; the payload itself plays no part in queueing.
  datatype Request = Request(workId: string, priority: Priority, maximumQueueDelay: int, fence: Option<nat>)

  // An accepted request. The ticket identifies the pending-write object and its completion cell.
  datatype Work = Work(ticket: nat, request: Request, enqueuedAt: int)

  datatype Lanes = Lanes(safety: seq<Work>, interactive: seq<Work>, telemetry: seq<Work>, background: seq<Work>) {
    function Of(p: Priority): seq<Work> {
      match p
      case Safety => safety
      case Interactive => interactive
      case Telemetry => telemetry
      case Background => background
    }

    function With(p: Priority, q: seq<Work>): Lanes {
      match p
      case Safety => this.(safety := q)
      case Interactive => this.(interactive := q)
      case Telemetry => this.(telemetry := q)
      case Background => this.(background := q)
    }

    function Total(): nat {
      |safety| + |interactive| + |telemetry| + |background|
    }

    function All(): seq<Work> {
      safety + interactive + telemetry + background
    }
  }

  const NO_LANES := Lanes([], [], [], [])

  datatype Admission =
    | Stopping
    | DuplicateId
    | ReserveHeld
    | Full
    | Accepted(work: Work, superseded: Option<Work>)

  datatype Queue = Queue(
    lanes: Lanes,
    ids: set<string>,
    depth: int,
    fairIndex: Slot,
    stopping: bool,
    accepted: nat,
    rejected: nat)

  const EMPTY := Queue(NO_LANES, {}, 0, 0, false, 0, 0)

  ghost predicate HoldsOnly(q: seq<Work>, p: Priority) {
    forall w :: w in q ==> w.request.priority == p
  }

  // The shape every reachable queue has: lanes hold their own priority, the counter
  // counts, and non-safety work leaves the reserved slots free.
  ghost predicate Valid(o: Options, s: Queue) {
    && o.Valid()
    && HoldsOnly(s.lanes.safety, Safety) && HoldsOnly(s.lanes.interactive, Interactive)
    && HoldsOnly(s.lanes.telemetry, Telemetry) && HoldsOnly(s.lanes.background, Background)
    && s.depth == s.lanes.Total() <= o.capacity
    && s.lanes.Total() - |s.lanes.safety| <= o.capacity - o.reserve
  }

  // ---------------------------------------------------------------- locked regions

  function RemoveFirst(s: Queue, p: Priority): (Queue, Option<Work>) {
    var lane := s.lanes.Of(p);
    if lane == [] then (s, None) else (s.(lanes := s.lanes.With(p, lane[1..])), Some(lane[0]))
  }

  // The lowest class below Safety that has work, if any.
  function LowestClass(lanes: Lanes): Priority {
    if lanes.background != [] then Background else if lanes.telemetry != [] then Telemetry else Interactive
  }

  function RemoveOldestLower(s: Queue): (Queue, Option<Work>) {
    var (s', w) := RemoveFirst(s, LowestClass(s.lanes));
    match w
    case None => (s, None)
    case Some(x) => (s'.(ids := s'.ids - {x.request.workId}), w)
  }

  function Append(s: Queue, r: Request, now: int): Queue {
    s.(lanes := s.lanes.With(r.priority, s.lanes.Of(r.priority) + [Work(s.accepted, r, now)]),
       ids := s.ids + {r.workId},
       accepted := s.accepted + 1)
  }

  function Admit(o: Options, s: Queue, r: Request, now: int): (Queue, Admission) {
    var refused := s.(rejected := s.rejected + 1);
    var work := Work(s.accepted, r, now);
    if s.stopping then (refused, Stopping)
    else if r.workId in s.ids then (refused, DuplicateId)
    else if r.priority != Safety && s.depth >= o.capacity - o.reserve then (refused, ReserveHeld)
    else if s.depth >= o.capacity then
      var (s', displaced) := RemoveOldestLower(s);
      if r.priority != Safety || displaced.None? then (refused, Full)
      else (Append(s', r, now), Accepted(work, displaced))
    else
      (Append(s.(depth := s.depth + 1), r, now), Accepted(work, None))
  }

  // The schedule walk of one take: at most `attempts` slots from `index`.
  function Walk(lanes: Lanes, index: Slot, attempts: nat): (Slot, Option<Priority>)
    decreases attempts
  {
    if attempts == 0 then (index, None)
    else
      var p := FAIR_SCHEDULE[index];
      var next := (index + 1) % 8;
      if lanes.Of(p) != [] then (next, Some(p)) else Walk(lanes, next, attempts - 1)
  }

  function Take(s: Queue, safetyOnly: bool): (Queue, Option<Work>) {
    if s.lanes.safety != [] then
      var (s', w) := RemoveFirst(s, Safety);
      (s'.(depth := s'.depth - 1), w)
    else if safetyOnly then (s, None)
    else
      var (index, found) := Walk(s.lanes, s.fairIndex, |FAIR_SCHEDULE|);
      match found
      case None => (s.(fairIndex := index), None)
      case Some(p) =>
        var (s', w) := RemoveFirst(s, p);
        (s'.(fairIndex := index, depth := s'.depth - 1), w)
  }

  function Forget(s: Queue, workId: string): Queue {
    s.(ids := s.ids - {workId})
  }

  function CancelAll(s: Queue): (Queue, seq<Work>) {
    (s.(lanes := NO_LANES, ids := {}, depth := 0), s.lanes.All())
  }

  // ---------------------------------------------------------------- the reserve

  // Admission keeps the shape, and a Safety request with a fresh ID is refused by a running
  // scheduler exactly when every slot already holds Safety work; any other fresh request is
  // accepted exactly while the reserve is untouched.
  lemma AdmitKeepsReserve(o: Options, s: Queue, r: Request, now: int)
    requires Valid(o, s)
    ensures Valid(o, Admit(o, s, r, now).0)
    ensures r.priority == Safety && !s.stopping && r.workId !in s.ids ==>
              (!Admit(o, s, r, now).1.Accepted? <==> |s.lanes.safety| == o.capacity)
    ensures r.priority != Safety && !s.stopping && r.workId !in s.ids ==>
              (Admit(o, s, r, now).1.Accepted? <==> s.lanes.Total() < o.capacity - o.reserve)
  {
  }

  // Why a request is refused, in the order of the checks: the scheduler is stopping; work under its
  // ID is live; it is not Safety work and the reserve begins; all slots hold Safety work.
  lemma RefusedExactlyWhen(o: Options, s: Queue, r: Request, now: int)
    requires Valid(o, s)
    ensures var (x, isNew) := (Admit(o, s, r, now).1, !s.stopping && r.workId !in s.ids);
      && (x == Stopping <==> s.stopping)
      && (x == DuplicateId <==> !s.stopping && r.workId in s.ids)
      && (x == ReserveHeld <==> isNew && r.priority != Safety && s.lanes.Total() >= o.capacity - o.reserve)
      && (x == Full <==> isNew && r.priority == Safety && |s.lanes.safety| == o.capacity)
    ensures var s' := Admit(o, s, r, now).0;
      if Admit(o, s, r, now).1.Accepted? then s'.accepted == s.accepted + 1 && s'.rejected == s.rejected
      else s'.accepted == s.accepted && s'.rejected == s.rejected + 1
  {
  }

  // The lanes after an admission: the new work joins the tail of its own class; only Safety work
  // arriving at a full queue displaces anything, and then the oldest of the lowest class with work.
  lemma AdmitLanes(o: Options, s: Queue, r: Request, now: int)
    requires Valid(o, s)
    ensures var (s', x) := Admit(o, s, r, now);
            match x
            case Accepted(work, None) =>
              && work == Work(s.accepted, r, now) && s.depth < o.capacity
              && s'.lanes == s.lanes.With(r.priority, s.lanes.Of(r.priority) + [work])
              && s'.ids == s.ids + {r.workId}
            case Accepted(work, Some(w)) =>
              var p := w.request.priority;
              && work == Work(s.accepted, r, now) && s.depth == o.capacity
              && r.priority == Safety && p != Safety
              && s.lanes.Of(p) != [] && w == s.lanes.Of(p)[0]
              && (forall q: Priority :: q.Value() > p.Value() ==> s.lanes.Of(q) == [])
              && s'.lanes == s.lanes.With(p, s.lanes.Of(p)[1..]).With(Safety, s.lanes.safety + [work])
              && s'.ids == s.ids - {w.request.workId} + {r.workId}
            case _ => s' == s.(rejected := s.rejected + 1)
  {
    var x := Admit(o, s, r, now).1;
    if x.Accepted? && x.superseded.Some? {
      assert x.superseded.value in s.lanes.Of(LowestClass(s.lanes));
    }
  }

  // ---------------------------------------------------------------- taking

  // The class whose turn it is at position `i` of the endlessly repeated schedule.
  function Turn(i: nat): Priority {
    FAIR_SCHEDULE[i % 8]
  }

  // The schedule walk stops at the first turn `k`, counting from `i`, whose class has work.
  lemma {:induction false} WalkFindsFirstOccupiedTurn(lanes: Lanes, i: nat, attempts: nat) returns (k: nat)
    ensures i <= k <= i + attempts
    ensures forall j :: i <= j < k ==> lanes.Of(Turn(j)) == []
    ensures k < i + attempts ==> lanes.Of(Turn(k)) != []
    ensures Walk(lanes, i % 8, attempts) ==
            if k < i + attempts then ((k + 1) % 8, Some(Turn(k))) else (k % 8, None)
    decreases attempts
  {
    if attempts == 0 || lanes.Of(Turn(i)) != [] {
      k := i;
    } else {
      assert (i % 8 + 1) % 8 == (i + 1) % 8;
      k := WalkFindsFirstOccupiedTurn(lanes, i + 1, attempts - 1);
    }
  }

  // No class whose turn comes from the i-th up to the k-th has work.
  ghost predicate NobodysTurn(lanes: Lanes, i: nat, k: nat) {
    forall j :: i <= j < k ==> lanes.Of(Turn(j)) == []
  }

  lemma EveryClassHasATurn(lanes: Lanes, index: Slot)
    requires NobodysTurn(lanes, index, index + 8)
    ensures lanes.interactive == [] && lanes.telemetry == [] && lanes.background == []
  {
    var interactive := if index == 0 then 0 else 8;
    var telemetry := if index <= 3 then 3 else 11;
    assert Turn(interactive) == Interactive && Turn(telemetry) == Telemetry && Turn(7) == Background;
  }

  lemma TurnsAreBelowSafety(i: nat)
    ensures Turn(i) == Interactive || Turn(i) == Telemetry || Turn(i) == Background
  {
    var k := i % 8;
    assert k == 0 || k == 1 || k == 2 || k == 3 || k == 4 || k == 5 || k == 6 || k == 7;
  }

  // The first turn with work, or that there is none in as many turns.
  lemma FirstTurn(lanes: Lanes, i: nat, slot: Slot, attempts: nat) returns (found: Option<Priority>)
    requires slot == i % 8
    ensures Walk(lanes, slot, attempts).1 == found
    ensures found.None? ==> NobodysTurn(lanes, i, i + attempts) && Walk(lanes, slot, attempts).0 == (i + attempts) % 8
    ensures found.Some? ==> found.value != Safety && lanes.Of(found.value) != []
  {
    var k := WalkFindsFirstOccupiedTurn(lanes, i, attempts);
    TurnsAreBelowSafety(k);
    found := if k < i + attempts then Some(Turn(k)) else None;
  }

  lemma RoundReturns(index: Slot)
    ensures (index + 8) % 8 == index && index % 8 == index
  {
  }

  // A whole round of the schedule finds nothing exactly when the three lanes are empty.
  lemma AWholeRoundFindsWork(lanes: Lanes, index: Slot)
    ensures Walk(lanes, index, |FAIR_SCHEDULE|).1.None? <==>
              lanes.interactive == [] && lanes.telemetry == [] && lanes.background == []
    ensures Walk(lanes, index, |FAIR_SCHEDULE|).1.None? ==> Walk(lanes, index, |FAIR_SCHEDULE|).0 == index
    ensures Walk(lanes, index, |FAIR_SCHEDULE|).1.Some? ==>
              var p := Walk(lanes, index, |FAIR_SCHEDULE|).1.value;
              p != Safety && lanes.Of(p) != []
  {
    RoundReturns(index);
    var found := FirstTurn(lanes, index, index, |FAIR_SCHEDULE|);
    if found.None? {
      EveryClassHasATurn(lanes, index);
    }
  }

  // A take yields nothing only when no eligible work is queued, and then changes nothing.
  // What it yields is the head of the class in turn; Safety work is preferred and leaves the
  // schedule where it was, and no other lane is touched.
  lemma TakeRemovesAHead(o: Options, s: Queue, safetyOnly: bool)
    requires Valid(o, s)
    ensures Take(s, safetyOnly).1.None? <==> (if safetyOnly then s.lanes.safety == [] else s.lanes.Total() == 0)
    ensures Take(s, safetyOnly).1.None? ==> Take(s, safetyOnly).0 == s
    ensures var (s', w) := Take(s, safetyOnly);
            w.Some? ==>
              var p := w.value.request.priority;
              && s.lanes.Of(p) != [] && w.value == s.lanes.Of(p)[0]
              && s' == s.(lanes := s.lanes.With(p, s.lanes.Of(p)[1..]), depth := s.depth - 1, fairIndex := s'.fairIndex)
              && (p == Safety <==> s.lanes.safety != [])
              && (p == Safety ==> s'.fairIndex == s.fairIndex)
              && (safetyOnly ==> p == Safety)
    ensures Valid(o, Take(s, safetyOnly).0)
  {
    AWholeRoundFindsWork(s.lanes, s.fairIndex);
    var w := Take(s, safetyOnly).1;
    if w.Some? {
      var p := if s.lanes.safety != [] then Safety else Walk(s.lanes, s.fairIndex, |FAIR_SCHEDULE|).1.value;
      assert w.value == s.lanes.Of(p)[0] && w.value in s.lanes.Of(p);
    }
  }

  // ---------------------------------------------------------------- runs and fairness

  // Anything that may happen to the queue while the scheduler runs.
  datatype Op =
    | Offer(request: Request, now: int)
    | TakeOp(safetyOnly: bool)
    | ForgetId(workId: string)
    | BeginStop
    | CancelOp

  function Apply(o: Options, s: Queue, op: Op): Queue {
    match op
    case Offer(r, now) => Admit(o, s, r, now).0
    case TakeOp(safetyOnly) => Take(s, safetyOnly).0
    case ForgetId(id) => Forget(s, id)
    case BeginStop => s.(stopping := true)
    case CancelOp => CancelAll(s).0
  }

  // The work an operation removes from the lane of `p`, and the work it adds there.
  function Removed(o: Options, s: Queue, op: Op, p: Priority): seq<Work> {
    match op
    case Offer(r, now) =>
      var x := Admit(o, s, r, now).1;
      if x.Accepted? && x.superseded.Some? && x.superseded.value.request.priority == p then [x.superseded.value] else []
    case TakeOp(safetyOnly) =>
      var w := Take(s, safetyOnly).1;
      if w.Some? && w.value.request.priority == p then [w.value] else []
    case CancelOp => s.lanes.Of(p)
    case _ => []
  }

  function Added(o: Options, s: Queue, op: Op, p: Priority): seq<Work> {
    if op.Offer? then
      var x := Admit(o, s, op.request, op.now).1;
      if x.Accepted? && x.work.request.priority == p then [x.work] else []
    else []
  }

  // Whether the operation is a take that yielded work below Safety.
  predicate IsNonSafetyTake(s: Queue, op: Op) {
    op.TakeOp? && var w := Take(s, op.safetyOnly).1; w.Some? && w.value.request.priority != Safety
  }

  lemma ApplyKeepsValid(o: Options, s: Queue, op: Op)
    requires Valid(o, s)
    ensures Valid(o, Apply(o, s, op))
  {
    match op
    case Offer(r, now) => AdmitKeepsReserve(o, s, r, now);
    case TakeOp(safetyOnly) => TakeRemovesAHead(o, s, safetyOnly);
    case _ =>
  }

  // One operation acts on each lane as on a FIFO queue.
  ghost predicate ActsAsFifo(o: Options, s: Queue, op: Op, p: Priority) {
    Removed(o, s, op, p) + Apply(o, s, op).lanes.Of(p) == s.lanes.Of(p) + Added(o, s, op, p)
  }

  lemma OfferIsFifo(o: Options, s: Queue, r: Request, now: int, p: Priority)
    requires Valid(o, s)
    ensures ActsAsFifo(o, s, Offer(r, now), p)
  {
    AdmitLanes(o, s, r, now);
  }

  lemma HeadThenRest(lanes: Lanes, after: Lanes, w: Option<Work>, p: Priority)
    requires w.None? ==> after == lanes
    requires w.Some? ==>
      var q := w.value.request.priority;
      lanes.Of(q) != [] && w.value == lanes.Of(q)[0] && after == lanes.With(q, lanes.Of(q)[1..])
    ensures (if w.Some? && w.value.request.priority == p then [w.value] else []) + after.Of(p) == lanes.Of(p)
  {
  }

  lemma TakeIsFifo(o: Options, s: Queue, safetyOnly: bool, p: Priority)
    requires Valid(o, s)
    ensures ActsAsFifo(o, s, TakeOp(safetyOnly), p)
  {
    TakeRemovesAHead(o, s, safetyOnly);
    HeadThenRest(s.lanes, Take(s, safetyOnly).0.lanes, Take(s, safetyOnly).1, p);
    assert s.lanes.Of(p) + [] == s.lanes.Of(p);
  }

  lemma ApplyIsFifo(o: Options, s: Queue, op: Op, p: Priority)
    requires Valid(o, s)
    ensures ActsAsFifo(o, s, op, p)
  {
    match op
    case Offer(r, now) => OfferIsFifo(o, s, r, now, p);
    case TakeOp(safetyOnly) => TakeIsFifo(o, s, safetyOnly, p);
    case _ =>
  }

  ghost function Run(o: Options, s: Queue, ops: seq<Op>): Queue
    decreases |ops|
  {
    if ops == [] then s else Run(o, Apply(o, s, ops[0]), ops[1..])
  }

  ghost function Departed(o: Options, s: Queue, ops: seq<Op>, p: Priority): seq<Work>
    decreases |ops|
  {
    if ops == [] then []
    else Removed(o, s, ops[0], p) + Departed(o, Apply(o, s, ops[0]), ops[1..], p)
  }

  ghost function Arrived(o: Options, s: Queue, ops: seq<Op>, p: Priority): seq<Work>
    decreases |ops|
  {
    if ops == [] then []
    else Added(o, s, ops[0], p) + Arrived(o, Apply(o, s, ops[0]), ops[1..], p)
  }

  ghost function NonSafetyTakes(o: Options, s: Queue, ops: seq<Op>): nat
    decreases |ops|
  {
    if ops == [] then 0
    else (if IsNonSafetyTake(s, ops[0]) then 1 else 0) + NonSafetyTakes(o, Apply(o, s, ops[0]), ops[1..])
  }

  lemma Chain<T>(out1: seq<T>, out2: seq<T>, last: seq<T>, mid: seq<T>, first: seq<T>, in1: seq<T>, in2: seq<T>)
    requires out1 + mid == first + in1 && out2 + last == mid + in2
    ensures (out1 + out2) + last == first + (in1 + in2)
  {
    calc {
      (out1 + out2) + last;
      out1 + (out2 + last);
      (out1 + mid) + in2;
      first + (in1 + in2);
    }
  }

  // Over any run each class leaves in the order it arrived, and nothing is lost or invented;
  // the shape holds in the end.
  lemma {:induction false} LanesAreFifo(o: Options, s: Queue, ops: seq<Op>, p: Priority)
    requires Valid(o, s)
    ensures Valid(o, Run(o, s, ops))
    ensures Departed(o, s, ops, p) + Run(o, s, ops).lanes.Of(p) == s.lanes.Of(p) + Arrived(o, s, ops, p)
    decreases |ops|
  {
    if ops != [] {
      ApplyKeepsValid(o, s, ops[0]);
      var s' := Apply(o, s, ops[0]);
      ApplyIsFifo(o, s, ops[0], p);
      LanesAreFifo(o, s', ops[1..], p);
      Chain(Removed(o, s, ops[0], p), Departed(o, s', ops[1..], p), Run(o, s', ops[1..]).lanes.Of(p),
            s'.lanes.Of(p), s.lanes.Of(p), Added(o, s, ops[0], p), Arrived(o, s', ops[1..], p));
    }
  }

  // The longest wait, in takes below Safety, between two turns of a class.
  function Gap(p: Priority): nat {
    match p
    case Safety => 0
    case Interactive => 2
    case Telemetry => 6
    case Background => 8
  }

  // Slots from `index` up to and including the next turn of the class.
  function SlotsUntil(index: Slot, p: Priority): nat {
    match p
    case Safety => 0
    case Interactive => if index == 3 || index == 5 || index == 7 then 2 else 1
    case Telemetry => if index <= 3 then 4 - index else if index <= 5 then 6 - index else 12 - index
    case Background => 8 - index
  }

  lemma SlotsUntilNextTurn(index: Slot, p: Priority)
    requires p != Safety
    ensures 1 <= SlotsUntil(index, p) <= Gap(p)
    ensures FAIR_SCHEDULE[index] != p ==> SlotsUntil((index + 1) % 8, p) == SlotsUntil(index, p) - 1
  {
  }

  // A take that skips a waiting class brings its turn at least one slot nearer.
  lemma {:induction false} WalkApproaches(lanes: Lanes, index: Slot, attempts: nat, p: Priority)
    requires p != Safety && lanes.Of(p) != []
    ensures var (next, found) := Walk(lanes, index, attempts);
            found.Some? && found.value != p ==> SlotsUntil(next, p) < SlotsUntil(index, p)
    decreases attempts
  {
    SlotsUntilNextTurn(index, p);
    if attempts > 0 && lanes.Of(FAIR_SCHEDULE[index]) == [] {
      WalkApproaches(lanes, (index + 1) % 8, attempts - 1, p);
    }
  }

  // The progress measure of the item with `ahead` items before it in the lane of `p`.
  function Remaining(s: Queue, p: Priority, ahead: nat): nat {
    ahead * Gap(p) + SlotsUntil(s.fairIndex, p)
  }

  // An item that a step leaves queued is no further from its turn, and nearer after a take below Safety.
  ghost predicate MakesProgress(o: Options, s: Queue, op: Op, p: Priority, ahead: nat)
    requires |Removed(o, s, op, p)| <= ahead
  {
    var s' := Apply(o, s, op);
    var ahead' := ahead - |Removed(o, s, op, p)|;
    && ahead' < |s'.lanes.Of(p)|
    && Remaining(s', p, ahead') + (if IsNonSafetyTake(s, op) then 1 else 0) <= Remaining(s, p, ahead)
  }

  lemma OneFewerAhead(p: Priority, ahead: nat)
    requires ahead > 0
    ensures (ahead - 1) * Gap(p) == ahead * Gap(p) - Gap(p)
  {
  }

  // A take that yields other work below Safety brings a waiting class nearer its turn.
  lemma TakingOthersApproaches(o: Options, s: Queue, p: Priority)
    requires Valid(o, s) && p != Safety && s.lanes.Of(p) != [] && s.lanes.safety == []
    ensures var (s', w) := Take(s, false);
            w.Some? && (w.value.request.priority != p ==> SlotsUntil(s'.fairIndex, p) < SlotsUntil(s.fairIndex, p))
  {
    AWholeRoundFindsWork(s.lanes, s.fairIndex);
    WalkApproaches(s.lanes, s.fairIndex, |FAIR_SCHEDULE|, p);
    var q := Walk(s.lanes, s.fairIndex, |FAIR_SCHEDULE|).1.value;
    assert s.lanes.Of(q)[0] in s.lanes.Of(q);
  }

  lemma TakeMakesProgress(o: Options, s: Queue, safetyOnly: bool, p: Priority, ahead: nat)
    requires Valid(o, s) && p != Safety && ahead < |s.lanes.Of(p)|
    requires |Removed(o, s, TakeOp(safetyOnly), p)| <= ahead
    ensures MakesProgress(o, s, TakeOp(safetyOnly), p, ahead)
  {
    TakeRemovesAHead(o, s, safetyOnly);
    var (s', w) := Take(s, safetyOnly);
    SlotsUntilNextTurn(s.fairIndex, p);
    SlotsUntilNextTurn(s'.fairIndex, p);
    if w.Some? && w.value.request.priority == p {
      OneFewerAhead(p, ahead);
    } else if w.Some? && w.value.request.priority != Safety {
      TakingOthersApproaches(o, s, p);
    }
  }

  lemma OfferMakesProgress(o: Options, s: Queue, r: Request, now: int, p: Priority, ahead: nat)
    requires Valid(o, s) && p != Safety && ahead < |s.lanes.Of(p)|
    requires |Removed(o, s, Offer(r, now), p)| <= ahead
    ensures MakesProgress(o, s, Offer(r, now), p, ahead)
  {
    OfferIsFifo(o, s, r, now, p);
    SlotsUntilNextTurn(s.fairIndex, p);
    if Removed(o, s, Offer(r, now), p) != [] {
      OneFewerAhead(p, ahead);
    }
  }

  lemma StepMakesProgress(o: Options, s: Queue, op: Op, p: Priority, ahead: nat)
    requires Valid(o, s) && p != Safety && ahead < |s.lanes.Of(p)| && |Removed(o, s, op, p)| <= ahead
    ensures MakesProgress(o, s, op, p, ahead)
  {
    match op
    case Offer(r, now) => OfferMakesProgress(o, s, r, now, p, ahead);
    case TakeOp(safetyOnly) => TakeMakesProgress(o, s, safetyOnly, p, ahead);
    case _ =>
  }

  lemma {:induction false} DepartsWithinMeasure(o: Options, s: Queue, ops: seq<Op>, p: Priority, ahead: nat)
    requires Valid(o, s) && p != Safety && ahead < |s.lanes.Of(p)|
    requires NonSafetyTakes(o, s, ops) >= Remaining(s, p, ahead)
    ensures |Departed(o, s, ops, p)| > ahead
    decreases |ops|
  {
    SlotsUntilNextTurn(s.fairIndex, p);
    if ops != [] {
      var gone := |Removed(o, s, ops[0], p)|;
      if gone <= ahead {
        ApplyKeepsValid(o, s, ops[0]);
        StepMakesProgress(o, s, ops[0], p, ahead);
        DepartsWithinMeasure(o, Apply(o, s, ops[0]), ops[1..], p, ahead - gone);
      }
    }
  }

  // Bounded waiting: whatever else arrives, an item with `ahead` items before it in its class has
  // left the queue once 2, 6 or 8 times (ahead + 1) items below Safety were taken.
  lemma {:induction false} BoundedWaiting(o: Options, s: Queue, ops: seq<Op>, p: Priority, ahead: nat)
    requires Valid(o, s) && p != Safety && ahead < |s.lanes.Of(p)|
    requires NonSafetyTakes(o, s, ops) >= Gap(p) * (ahead + 1)
    ensures |Departed(o, s, ops, p)| > ahead && Departed(o, s, ops, p)[ahead] == s.lanes.Of(p)[ahead]
  {
    SlotsUntilNextTurn(s.fairIndex, p);
    assert Gap(p) * (ahead + 1) == ahead * Gap(p) + Gap(p);
    DepartsWithinMeasure(o, s, ops, p, ahead);
    LanesAreFifo(o, s, ops, p);
    assert (Departed(o, s, ops, p) + Run(o, s, ops).lanes.Of(p))[ahead]
        == (s.lanes.Of(p) + Arrived(o, s, ops, p))[ahead];
  }
}
