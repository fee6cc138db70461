/**
The locked regions of `SerialDuplexScheduler`, updating the four linked queues, the
depth counter, the live work IDs and the schedule index in place. Each method is
proved to do exactly what the corresponding function of `WriteQueue` says.
*/
module SerialScheduler {
  import opened Wrappers
  import opened WriteQueue

  class SerialDuplexScheduler {
    const options: Options
    const queues: array<seq<Work>>
    var pendingWorkIds: set<string>
    var queueDepth: int
    var fairScheduleIndex: Slot
    var stopping: bool
    var acceptedWrites: nat
    var rejectedWrites: nat

    ghost function View(): Queue
      requires queues.Length == 4
      reads this, queues
    {
      Queue(Lanes(queues[0], queues[1], queues[2], queues[3]), pendingWorkIds, queueDepth,
            fairScheduleIndex, stopping, acceptedWrites, rejectedWrites)
    }

    ghost predicate Ok()
      reads this, queues
    {
      queues.Length == 4 && Valid(options, View())
    }

    constructor (options: Options)
      requires options.Valid()
      ensures Ok() && View() == EMPTY && fresh(queues) && this.options == options
    {
      this.options := options;
      queues := new seq<Work>[4](_ => []);
      pendingWorkIds, queueDepth, fairScheduleIndex := {}, 0, 0;
      stopping, acceptedWrites, rejectedWrites := false, 0, 0;
      new;
    }

    // The region of QueueWrite under the queue lock.
    method QueueWrite(request: Request, now: int) returns (admission: Admission)
      requires Ok()
      modifies this, queues
      ensures Ok()
      ensures (View(), admission) == Admit(options, old(View()), request, now)
    {
      AdmitKeepsReserve(options, View(), request, now);
      if stopping {
        rejectedWrites := rejectedWrites + 1;
        return Stopping;
      }
      if request.workId in pendingWorkIds {
        rejectedWrites := rejectedWrites + 1;
        return DuplicateId;
      }
      var nonSafetyLimit := options.capacity - options.reserve;
      if request.priority != Safety && queueDepth >= nonSafetyLimit {
        rejectedWrites := rejectedWrites + 1;
        return ReserveHeld;
      }
      var superseded: Option<Work> := None;
      if queueDepth >= options.capacity {
        if request.priority == Safety {
          superseded := RemoveOldestLowerPriority();
        }
        if superseded.None? {
          rejectedWrites := rejectedWrites + 1;
          return Full;
        }
      } else {
        queueDepth := queueDepth + 1;
      }
      pendingWorkIds := pendingWorkIds + {request.workId};
      var work := Work(acceptedWrites, request, now);
      var lane := request.priority.Value();
      queues[lane] := queues[lane] + [work];
      acceptedWrites := acceptedWrites + 1;
      return Accepted(work, superseded);
    }

    method RemoveFirstLocked(priority: Priority) returns (work: Option<Work>)
      requires queues.Length == 4
      modifies queues
      ensures (View(), work) == RemoveFirst(old(View()), priority)
    {
      var lane := priority.Value();
      if queues[lane] == [] {
        return None;
      }
      work := Some(queues[lane][0]);
      queues[lane] := queues[lane][1..];
    }

    // Walks Background, Telemetry, Interactive and removes the first head it finds.
    method RemoveOldestLowerPriority() returns (work: Option<Work>)
      requires queues.Length == 4
      modifies this`pendingWorkIds, queues
      ensures (View(), work) == RemoveOldestLower(old(View()))
    {
      var order := [Background, Telemetry, Interactive];
      for i := 0 to 3
        invariant View() == old(View())
        invariant forall j :: 0 <= j < i ==> queues[order[j].Value()] == []
      {
        var pending := RemoveFirstLocked(order[i]);
        if pending.Some? {
          pendingWorkIds := pendingWorkIds - {pending.value.request.workId};
          return pending;
        }
      }
      assert queues[order[0].Value()] == [] && queues[order[1].Value()] == [] && queues[order[2].Value()] == [];
      return None;
    }

    method TakeNextWrite(safetyOnly: bool) returns (work: Option<Work>)
      requires Ok()
      modifies this`queueDepth, this`fairScheduleIndex, queues
      ensures Ok()
      ensures (View(), work) == Take(old(View()), safetyOnly)
    {
      TakeRemovesAHead(options, View(), safetyOnly);
      work := RemoveFirstLocked(Safety);
      if work.None? && !safetyOnly {
        work := TakeFairShare();
      }
      if work.Some? {
        queueDepth := queueDepth - 1;
      }
    }

    // The schedule loop of TakeNextWrite: one round at most, stopping at the first head found.
    method TakeFairShare() returns (work: Option<Work>)
      requires queues.Length == 4
      modifies this`fairScheduleIndex, queues
      ensures var (index, found) := Walk(old(View()).lanes, old(fairScheduleIndex), |FAIR_SCHEDULE|);
              match found
              case None => work == None && View() == old(View()).(fairIndex := index)
              case Some(p) => (View().(fairIndex := old(fairScheduleIndex)), work) == RemoveFirst(old(View()), p)
                              && View().fairIndex == index
    {
      ghost var before := View();
      ghost var walk := Walk(before.lanes, before.fairIndex, |FAIR_SCHEDULE|);
      work := None;
      var attempt := 0;
      while attempt < |FAIR_SCHEDULE| && work.None?
        invariant attempt <= |FAIR_SCHEDULE|
        invariant work.None? ==>
            && View() == before.(fairIndex := fairScheduleIndex)
            && Walk(before.lanes, fairScheduleIndex, |FAIR_SCHEDULE| - attempt) == walk
        invariant work.Some? ==>
            && walk.1.Some? && fairScheduleIndex == walk.0
            && (View().(fairIndex := before.fairIndex), work) == RemoveFirst(before, walk.1.value)
        decreases |FAIR_SCHEDULE| - attempt
      {
        var priority := FAIR_SCHEDULE[fairScheduleIndex];
        fairScheduleIndex := (fairScheduleIndex + 1) % |FAIR_SCHEDULE|;
        work := RemoveFirstLocked(priority);
        attempt := attempt + 1;
      }
    }

    // The locked part of CompleteWrite.
    method ForgetWorkId(workId: string)
      requires Ok()
      modifies this`pendingWorkIds
      ensures Ok()
      ensures View() == Forget(old(View()), workId)
    {
      pendingWorkIds := pendingWorkIds - {workId};
    }

    // The locked part of CancelQueuedWrites.
    method CancelQueuedWrites() returns (pending: seq<Work>)
      requires Ok()
      modifies this`pendingWorkIds, this`queueDepth, queues
      ensures Ok()
      ensures (View(), pending) == CancelAll(old(View()))
    {
      pending := queues[0] + queues[1] + queues[2] + queues[3];
      for lane := 0 to 4
        invariant forall j :: 0 <= j < lane ==> queues[j] == []
        invariant unchanged(this)
      {
        queues[lane] := [];
      }
      pendingWorkIds := {};
      queueDepth := 0;
    }
  }
}
