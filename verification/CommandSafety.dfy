/**
The interlock view of the front end: a reducer over command results that arrive in any order
and more than once. A timestamp is its text with its parsed value in milliseconds, if it has one.
*/
module CommandSafety {
  import opened Wrappers
  import opened GatewayContracts

  datatype Stamp = Stamp(text: string, time: Option<int>)

  datatype Delivered = Delivered(result: CommandResult, stamp: Stamp)

  datatype View = View(latched: Option<Delivered>, confirmedStop: Option<Stamp>)

  const CLEAR: View := View(None, None)

  predicate IsConfirmedStop(r: Delivered) {
    r.result.kind == StopAndDisable && r.result.status == Completed
  }

  predicate IsSafetyLatched(r: Delivered) {
    r.result.status == Unconfirmed || r.result.status == Failed || r.result.status == TimedOut
    || r.result.code == SafetyInterlockLatched
  }

  // An uncertain result: it latches, and is not itself a confirmed stop.
  predicate IsUncertain(r: Delivered) {
    IsSafetyLatched(r) && !IsConfirmedStop(r)
  }

  function TimeOf(stamp: Option<Stamp>): Option<int> {
    if stamp.Some? then stamp.value.time else None
  }

  function LatchTime(v: View): Option<int> {
    if v.latched.Some? then v.latched.value.stamp.time else None
  }

  predicate Earlier(a: Option<int>, b: Option<int>) {
    a.Some? && b.Some? && a.value < b.value
  }

  function Reduce(current: View, r: Delivered): View {
    var time, stop := r.stamp.time, TimeOf(current.confirmedStop);
    if IsConfirmedStop(r) then
      if time.None? || Earlier(time, stop) then current
      else View(if Earlier(time, LatchTime(current)) then current.latched else None, Some(r.stamp))
    else if !IsSafetyLatched(r) then current
    else if time.Some? && stop.Some? && time.value <= stop.value then current
    else if current.latched.Some? && (time.None? || Earlier(time, LatchTime(current))) then current
    else current.(latched := Some(r))
  }

  function Fold(current: View, results: seq<Delivered>): View {
    if results == [] then current else Reduce(Fold(current, results[..|results| - 1]), results[|results| - 1])
  }

  // ---------------------------------------------------------------- reconciling a history

  function OfSession(history: seq<Delivered>, sessionId: string): seq<Delivered> {
    if history == [] then []
    else
      var front, last := OfSession(history[..|history| - 1], sessionId), history[|history| - 1];
      if last.result.sessionId == sessionId then front + [last] else front
  }

  method Reconcile(history: seq<Delivered>, sessionId: string, current: View) returns (next: View)
    ensures var start := if current.latched.Some? && current.latched.value.result.sessionId != sessionId then CLEAR else current;
      next == Fold(start, OfSession(history, sessionId))
  {
    next := current;
    if current.latched.Some? && current.latched.value.result.sessionId != sessionId {
      next := CLEAR;
    }
    ghost var start := next;
    for i := 0 to |history|
      invariant next == Fold(start, OfSession(history[..i], sessionId))
    {
      assert history[..i + 1][..i] == history[..i];
      if history[i].result.sessionId == sessionId {
        var kept := OfSession(history[..i], sessionId);
        assert (kept + [history[i]])[..|kept|] == kept;
        next := Reduce(next, history[i]);
      }
    }
    assert history[..|history|] == history;
  }

  // ---------------------------------------------------------------- what the fold remembers

  // A confirmed stop without a valid time is ignored; an uncertain result without one is not.
  predicate IsTimedStop(r: Delivered) {
    IsConfirmedStop(r) && r.stamp.time.Some?
  }

  predicate IsTimedUncertain(r: Delivered) {
    IsUncertain(r) && r.stamp.time.Some?
  }

  predicate IsUntimedUncertain(r: Delivered) {
    IsUncertain(r) && r.stamp.time.None?
  }

  predicate NoLater(r: Delivered, stamp: Stamp)
    requires r.stamp.time.Some?
  {
    stamp.time.Some? && r.stamp.time.value <= stamp.time.value
  }

  predicate After(r: Delivered, stop: Option<Stamp>)
    requires r.stamp.time.Some?
  {
    stop.Some? ==> !NoLater(r, stop.value)
  }

  // The stamp of a latest confirmed stop, if there is one.
  ghost predicate IsLatestStop(stop: Option<Stamp>, results: seq<Delivered>) {
    && (forall r :: r in results && IsTimedStop(r) ==> stop.Some? && NoLater(r, stop.value))
    && (stop.Some? ==> exists r :: r in results && IsTimedStop(r) && r.stamp == stop.value)
  }

  // A latest uncertain result, strictly after the stop.
  ghost predicate IsLatestUncertain(r: Delivered, stop: Option<Stamp>, results: seq<Delivered>) {
    && r in results && IsTimedUncertain(r) && After(r, stop)
    && forall x :: x in results && IsTimedUncertain(x) ==> NoLater(x, r.stamp)
  }

  ghost predicate NoneUncertain(stop: Option<Stamp>, results: seq<Delivered>) {
    forall x :: x in results && IsTimedUncertain(x) ==> !After(x, stop)
  }

  // What a view remembers of the results delivered so far: a latest stop, and a latest uncertain
  // result after it; only without such a one may a result without a time be latched, and it is
  // when there is no stop either.
  ghost predicate Summarises(v: View, results: seq<Delivered>) {
    && IsLatestStop(v.confirmedStop, results)
    && (if LatchTime(v).Some? then IsLatestUncertain(v.latched.value, v.confirmedStop, results)
        else NoneUncertain(v.confirmedStop, results))
    && (v.latched.Some? ==> v.latched.value in results && IsUncertain(v.latched.value))
    && (v == CLEAR ==> forall r :: r in results ==> !IsUntimedUncertain(r))
  }

  lemma ReduceSummarises(v: View, results: seq<Delivered>, r: Delivered)
    requires Summarises(v, results)
    ensures Summarises(Reduce(v, r), results + [r])
  {
    var all := results + [r];
    assert forall x :: x in all <==> x in results || x == r;
    if IsTimedStop(r) && Reduce(v, r) != v {
      assert r in all && Some(r.stamp) == Reduce(v, r).confirmedStop;
    } else if v.confirmedStop.Some? {
      var stop :| stop in results && IsTimedStop(stop) && stop.stamp == v.confirmedStop.value;
      assert stop in all;
    }
  }

  lemma {:induction false} FoldSummarises(results: seq<Delivered>)
    ensures Summarises(Fold(CLEAR, results), results)
  {
    if results != [] {
      var front, last := results[..|results| - 1], results[|results| - 1];
      assert results == front + [last];
      FoldSummarises(front);
      ReduceSummarises(Fold(CLEAR, front), front, last);
    }
  }

  // The view remembers a latest confirmed stop, and a latest uncertain result strictly after it.
  lemma FoldRemembersTheLatest(results: seq<Delivered>)
    ensures var v := Fold(CLEAR, results);
      && IsLatestStop(v.confirmedStop, results)
      && (LatchTime(v).Some? ==> IsLatestUncertain(v.latched.value, v.confirmedStop, results))
      && (LatchTime(v).None? <==> NoneUncertain(v.confirmedStop, results))
      && (v.latched.Some? ==> v.latched.value in results && IsUncertain(v.latched.value))
  {
    FoldSummarises(results);
  }

  // ---------------------------------------------------------------- order independence

  ghost predicate SameMembers(a: seq<Delivered>, b: seq<Delivered>) {
    forall r :: r in a <==> r in b
  }

  // The latest stops carry one stamp, and at most one uncertain result has the latest time after them.
  ghost predicate UniqueLatest(results: seq<Delivered>) {
    && (forall s, t :: IsLatestStop(s, results) && IsLatestStop(t, results) ==> s == t)
    && (forall stop, a, b ::
          IsLatestStop(stop, results) && IsLatestUncertain(a, stop, results) && IsLatestUncertain(b, stop, results) ==> a == b)
  }

  // Results without a time make no difference: there is none uncertain, or a timed one is latched
  // over it, or no stop can clear it and it is the only one.
  ghost predicate UntimedIsIdle(results: seq<Delivered>) {
    || (forall r :: r in results ==> !IsUntimedUncertain(r))
    || (exists stop, a :: IsLatestStop(stop, results) && IsLatestUncertain(a, stop, results))
    || ((forall r :: r in results ==> !IsTimedStop(r))
        && forall a, b :: a in results && b in results && IsUntimedUncertain(a) && IsUntimedUncertain(b) ==> a == b)
  }

  lemma SummariesAgree(v: View, w: View, a: seq<Delivered>, b: seq<Delivered>)
    requires SameMembers(a, b) && UniqueLatest(a) && UntimedIsIdle(a) && Summarises(v, a) && Summarises(w, b)
    ensures v == w
  {
    assert IsLatestStop(w.confirmedStop, a);
    assert v.confirmedStop == w.confirmedStop;
    if LatchTime(v).Some? || LatchTime(w).Some? {
      assert LatchTime(w).Some? ==> IsLatestUncertain(w.latched.value, w.confirmedStop, a);
    } else {
      assert NoneUncertain(v.confirmedStop, a);
    }
  }

  // Delivering a latest uncertain result once more latches exactly that one.
  lemma RepeatLatches(results: seq<Delivered>, stop: Option<Stamp>, a: Delivered)
    requires IsLatestStop(stop, results) && IsLatestUncertain(a, stop, results)
    ensures SameMembers(results + [a], results)
    ensures Fold(CLEAR, results + [a]) == View(Some(a), Fold(CLEAR, results).confirmedStop)
  {
    FoldSummarises(results);
    assert (results + [a])[..|results|] == results;
  }

  // Delivering a latest stop once more leaves its stamp, and at most a timed latch.
  lemma RepeatStops(results: seq<Delivered>, r: Delivered)
    requires r in results && IsTimedStop(r) && IsLatestStop(Some(r.stamp), results)
    ensures SameMembers(results + [r], results)
    ensures var v, w := Fold(CLEAR, results), Fold(CLEAR, results + [r]);
      w == View(if LatchTime(v).Some? then v.latched else None, Some(r.stamp))
  {
    FoldSummarises(results);
    assert (results + [r])[..|results|] == results;
  }

  lemma {:induction false} FoldInParts(v: View, a: seq<Delivered>, b: seq<Delivered>)
    ensures Fold(v, a + b) == Fold(Fold(v, a), b)
    decreases |b|
  {
    if b == [] {
      assert a + b == a;
    } else {
      FoldInParts(v, a, b[..|b| - 1]);
      assert (a + b)[..|a + b| - 1] == a + b[..|b| - 1];
    }
  }

  // Without a timed stop or uncertain result, a latched result without a time stays.
  lemma {:induction false} UntimedLatchStays(u: Delivered, results: seq<Delivered>)
    requires IsUntimedUncertain(u) && forall r :: r in results ==> !IsTimedStop(r) && !IsTimedUncertain(r)
    ensures Fold(View(Some(u), None), results) == View(Some(u), None)
  {
    if results != [] {
      UntimedLatchStays(u, results[..|results| - 1]);
      assert results[|results| - 1] in results;
    }
  }

  lemma FirstUntimedLatches(results: seq<Delivered>, u: Delivered)
    requires u in results && IsUntimedUncertain(u)
    requires forall r :: r in results ==> !IsTimedStop(r) && !IsTimedUncertain(r)
    ensures SameMembers([u] + results, results) && Fold(CLEAR, [u] + results) == View(Some(u), None)
  {
    FoldInParts(CLEAR, [u], results);
    assert [u][..0] == [];
    assert Fold(CLEAR, [u]) == Reduce(Fold(CLEAR, []), u);
    UntimedLatchStays(u, results);
  }

  // Two deliveries of the same results that end differently.
  ghost predicate Disagree(results: seq<Delivered>, a: seq<Delivered>, b: seq<Delivered>) {
    SameMembers(a, results) && SameMembers(b, results) && Fold(CLEAR, a) != Fold(CLEAR, b)
  }

  lemma TiedResultsDisagree(results: seq<Delivered>) returns (a: seq<Delivered>, b: seq<Delivered>)
    requires !UniqueLatest(results)
    ensures Disagree(results, a, b)
  {
    if s, t :| IsLatestStop(s, results) && IsLatestStop(t, results) && s != t {
      var p :| p in results && IsTimedStop(p) && Some(p.stamp) == s;
      var q :| q in results && IsTimedStop(q) && Some(q.stamp) == t;
      RepeatStops(results, p);
      RepeatStops(results, q);
      a, b := results + [p], results + [q];
    } else {
      var stop, p, q :| IsLatestStop(stop, results) && IsLatestUncertain(p, stop, results)
                        && IsLatestUncertain(q, stop, results) && p != q;
      RepeatLatches(results, stop, p);
      RepeatLatches(results, stop, q);
      a, b := results + [p], results + [q];
    }
  }

  lemma UntimedResultsDisagree(results: seq<Delivered>) returns (a: seq<Delivered>, b: seq<Delivered>)
    requires !UntimedIsIdle(results)
    ensures Disagree(results, a, b)
  {
    var v := Fold(CLEAR, results);
    FoldSummarises(results);
    assert LatchTime(v).None?;
    var u :| u in results && IsUntimedUncertain(u);
    if v.confirmedStop.Some? {
      var r :| r in results && IsTimedStop(r) && r.stamp == v.confirmedStop.value;
      RepeatStops(results, r);
      a, b := results + [r], results + [r] + [u];
      assert b[..|a|] == a && Fold(CLEAR, b) == Reduce(Fold(CLEAR, a), u);
    } else {
      assert forall r :: r in results ==> !IsTimedUncertain(r);
      var p, q :| p in results && q in results && IsUntimedUncertain(p) && IsUntimedUncertain(q) && p != q;
      FirstUntimedLatches(results, p);
      FirstUntimedLatches(results, q);
      a, b := [p] + results, [q] + results;
    }
  }

  // All orders and repetitions of a delivery lead to the same view exactly when its latest stops
  // and its latest uncertain results after them are unique, and results without a time are idle.
  lemma OrderIsIrrelevantExactlyWhenUnique(results: seq<Delivered>)
    ensures UniqueLatest(results) && UntimedIsIdle(results)
       <==> forall other :: SameMembers(other, results) ==> Fold(CLEAR, other) == Fold(CLEAR, results)
  {
    FoldSummarises(results);
    if !UniqueLatest(results) {
      var a, b := TiedResultsDisagree(results);
    } else if !UntimedIsIdle(results) {
      var a, b := UntimedResultsDisagree(results);
    } else {
      forall other | SameMembers(other, results) ensures Fold(CLEAR, other) == Fold(CLEAR, results) {
        FoldSummarises(other);
        SummariesAgree(Fold(CLEAR, results), Fold(CLEAR, other), results, other);
      }
    }
  }

  function Failure(commandId: string): Delivered {
    Delivered(CommandResult(commandId, "s", JointGroup, Failed, DeviceRejected, NoEvidence),
              Stamp("1970-01-01T00:00:01Z", Some(1000)))
  }

  // Two failures at the same instant: the one delivered last stays latched.
  lemma TiedFailuresDependOnOrder()
    ensures var a, b := Failure("a"), Failure("b");
      && SameMembers([a, b], [b, a]) && Fold(CLEAR, [a, b]) != Fold(CLEAR, [b, a])
      && !UniqueLatest([a, b])
  {
    var a, b := Failure("a"), Failure("b");
    assert [a, b][..1] == [a] && [b, a][..1] == [b] && [a][..0] == [] && [b][..0] == [];
    assert Fold(CLEAR, [a]) == View(Some(a), None) && Fold(CLEAR, [b]) == View(Some(b), None);
    assert IsLatestStop(None, [a, b]) && IsLatestUncertain(a, None, [a, b]) && IsLatestUncertain(b, None, [a, b]);
    assert a.result.commandId != b.result.commandId;
  }

  // ---------------------------------------------------------------- the latch is safe

  // Which results count, by their statuses and codes. A result latches a clear view exactly when
  // it is unconfirmed, failed, timed out or refused by the interlock, and not a completed stop;
  // exactly a completed stop-and-disable with a valid time is remembered as a confirmed stop.
  lemma WhatLatches(r: Delivered)
    ensures Reduce(CLEAR, r).latched == Some(r) <==>
      && (r.result.status == Unconfirmed || r.result.status == Failed || r.result.status == TimedOut
          || r.result.code == SafetyInterlockLatched)
      && !(r.result.kind == StopAndDisable && r.result.status == Completed)
    ensures Reduce(CLEAR, r).latched.None? || Reduce(CLEAR, r).latched == Some(r)
    ensures Reduce(CLEAR, r).confirmedStop == Some(r.stamp) <==>
      r.result.kind == StopAndDisable && r.result.status == Completed && r.stamp.time.Some?
    ensures Reduce(CLEAR, r).confirmedStop.None? || Reduce(CLEAR, r).confirmedStop == Some(r.stamp)
  {
  }

  // From any view: a later uncertain result replaces the latched one, an earlier one does not, and
  // one without a valid time only latches where nothing is.
  lemma WhatReplaces(v: View, r: Delivered)
    requires IsUncertain(r)
    ensures Reduce(v, r).confirmedStop == v.confirmedStop
    ensures Reduce(v, r).latched == Some(r)
       <==> || v.latched == Some(r)
            || (r.stamp.time.None? && v.latched.None?)
            || (r.stamp.time.Some?
                && (TimeOf(v.confirmedStop).Some? ==> r.stamp.time.value > TimeOf(v.confirmedStop).value)
                && (LatchTime(v).Some? ==> r.stamp.time.value >= LatchTime(v).value))
    ensures Reduce(v, r).latched == v.latched || Reduce(v, r).latched == Some(r)
  {
  }

  // Nothing but a confirmed stop, no older than the latched result, clears a latch; and an
  // uncertain result always latches unless a confirmed stop is at least as recent. This holds
  // for results without a valid timestamp too.
  lemma OnlyAStopClears(v: View, r: Delivered)
    ensures v.latched.Some? && Reduce(v, r).latched.None? <==>
      && v.latched.Some? && IsTimedStop(r)
      && !Earlier(r.stamp.time, TimeOf(v.confirmedStop)) && !Earlier(r.stamp.time, LatchTime(v))
    ensures IsUncertain(r) ==>
      (Reduce(v, r).latched.None? <==>
         v.latched.None? && r.stamp.time.Some? && v.confirmedStop.Some? && NoLater(r, v.confirmedStop.value))
  {
  }
}
