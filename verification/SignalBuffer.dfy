/**
The bounded ring buffer behind a telemetry signal, proved against the sequence of samples it
accepted, and what a snapshot of it means.
*/
module SignalBuffer {
  import opened Wrappers

  datatype Reading = NoValue | Finite(value: real) | NotFinite

  // A sample with its timestamp parsed to milliseconds, if it is a valid one.
  datatype Sample = Sample(timeMs: Option<int>, reading: Reading, validity: string)

  datatype PushResult = Pushed | Older | InvalidTimestamp | InvalidValue

  predicate IsStorable(s: Sample) {
    s.timeMs.Some? && s.reading != NotFinite
  }

  // ---------------------------------------------------------------- the specification

  // The samples of a run of pushes that the buffer takes in, given those it took before.
  function PushOutcome(accepted: seq<Sample>, s: Sample): PushResult {
    if s.timeMs.None? then InvalidTimestamp
    else if s.reading == NotFinite then InvalidValue
    else if accepted != [] && accepted[|accepted| - 1].timeMs.Some?
            && s.timeMs.value < accepted[|accepted| - 1].timeMs.value then Older
    else Pushed
  }

  function Accept(accepted: seq<Sample>, s: Sample): seq<Sample> {
    if PushOutcome(accepted, s) == Pushed then accepted + [s] else accepted
  }

  // What was accepted is storable and in order of time.
  ghost predicate InOrder(accepted: seq<Sample>) {
    && (forall i :: 0 <= i < |accepted| ==> IsStorable(accepted[i]))
    && (forall i, j :: 0 <= i <= j < |accepted| ==> accepted[i].timeMs.value <= accepted[j].timeMs.value)
  }

  predicate IsRecent(s: Sample, latest: int, maxAge: Option<nat>) {
    s.timeMs.Some? && (maxAge.Some? ==> s.timeMs.value >= latest - maxAge.value)
  }

  function Recent(samples: seq<Sample>, latest: int, maxAge: Option<nat>): seq<Sample> {
    if samples == [] then []
    else (if IsRecent(samples[0], latest, maxAge) then [samples[0]] else []) + Recent(samples[1..], latest, maxAge)
  }

  // The samples that are both among the last `maxSamples` accepted and no older than the latest
  // minus the maximal age.
  function Window(accepted: seq<Sample>, maxSamples: nat, maxAge: Option<nat>): seq<Sample>
    requires InOrder(accepted)
  {
    if accepted == [] then []
    else Recent(accepted[Surplus(|accepted|, maxSamples)..], accepted[|accepted| - 1].timeMs.value, maxAge)
  }

  function Surplus(n: nat, maxSamples: nat): (k: nat)
    ensures k <= n
  {
    if n > maxSamples then n - maxSamples else 0
  }

  // A suffix that starts where either bound starts is the window.
  ghost predicate StartsAtBound(accepted: seq<Sample>, n: nat, maxSamples: nat, maxAge: Option<nat>)
    requires InOrder(accepted) && n <= |accepted|
  {
    accepted != [] ==>
      var latest, k := accepted[|accepted| - 1].timeMs.value, |accepted| - n;
      && n <= maxSamples
      && (n > 0 ==> IsRecent(accepted[k], latest, maxAge))
      && (k > 0 ==> n == maxSamples || !IsRecent(accepted[k - 1], latest, maxAge))
  }

  lemma {:induction false} AllRecent(samples: seq<Sample>, latest: int, maxAge: Option<nat>)
    requires forall i :: 0 <= i < |samples| ==> IsRecent(samples[i], latest, maxAge)
    ensures Recent(samples, latest, maxAge) == samples
  {
    if samples != [] {
      AllRecent(samples[1..], latest, maxAge);
    }
  }

  lemma {:induction false} OldOnesGo(stale: seq<Sample>, rest: seq<Sample>, latest: int, maxAge: Option<nat>)
    requires forall i :: 0 <= i < |stale| ==> !IsRecent(stale[i], latest, maxAge)
    ensures Recent(stale + rest, latest, maxAge) == Recent(rest, latest, maxAge)
    decreases |stale|
  {
    if stale == [] {
      assert stale + rest == rest;
    } else {
      assert (stale + rest)[1..] == stale[1..] + rest;
      OldOnesGo(stale[1..], rest, latest, maxAge);
    }
  }

  lemma OlderAreOld(accepted: seq<Sample>, i: nat, j: nat, latest: int, maxAge: Option<nat>)
    requires InOrder(accepted) && i <= j < |accepted| && !IsRecent(accepted[j], latest, maxAge)
    ensures !IsRecent(accepted[i], latest, maxAge)
  {
  }

  lemma YoungerAreRecent(accepted: seq<Sample>, i: nat, j: nat, latest: int, maxAge: Option<nat>)
    requires InOrder(accepted) && i <= j < |accepted| && IsRecent(accepted[i], latest, maxAge)
    ensures IsRecent(accepted[j], latest, maxAge)
  {
  }

  // From any start before the first recent sample, the recent ones are the same suffix.
  lemma RecentSuffix(accepted: seq<Sample>, from: nat, k: nat, latest: int, maxAge: Option<nat>)
    requires InOrder(accepted) && from <= k < |accepted| && IsRecent(accepted[k], latest, maxAge)
    requires from == k || !IsRecent(accepted[k - 1], latest, maxAge)
    ensures Recent(accepted[from..], latest, maxAge) == accepted[k..]
  {
    var skipped, kept := accepted[from..k], accepted[k..];
    forall i | 0 <= i < |skipped| ensures !IsRecent(skipped[i], latest, maxAge) {
      OlderAreOld(accepted, from + i, k - 1, latest, maxAge);
    }
    forall i | 0 <= i < |kept| ensures IsRecent(kept[i], latest, maxAge) {
      YoungerAreRecent(accepted, k, k + i, latest, maxAge);
    }
    OldOnesGo(skipped, kept, latest, maxAge);
    AllRecent(kept, latest, maxAge);
    assert accepted[from..] == skipped + kept;
  }

  lemma SuffixIsTheWindow(accepted: seq<Sample>, n: nat, maxSamples: nat, maxAge: Option<nat>)
    requires InOrder(accepted) && n <= |accepted| && StartsAtBound(accepted, n, maxSamples, maxAge)
    requires accepted != [] ==> n > 0
    ensures accepted[|accepted| - n..] == Window(accepted, maxSamples, maxAge)
  {
    if accepted != [] {
      var latest := accepted[|accepted| - 1].timeMs.value;
      RecentSuffix(accepted, Surplus(|accepted|, maxSamples), |accepted| - n, latest, maxAge);
    }
  }

  // A window keeps the sample just accepted and, of any two accepted samples, the later one if it
  // keeps the earlier.
  lemma WindowIsASuffix(accepted: seq<Sample>, maxSamples: nat, maxAge: Option<nat>)
    requires InOrder(accepted) && maxSamples > 0
    ensures var w := Window(accepted, maxSamples, maxAge);
      && |w| <= |accepted| && |w| <= maxSamples && w == accepted[|accepted| - |w|..]
      && (accepted != [] ==> w != [] && w[|w| - 1] == accepted[|accepted| - 1])
      && StartsAtBound(accepted, |w|, maxSamples, maxAge)
  {
    if accepted != [] {
      var n := 1;
      while n < |accepted| && n < maxSamples
            && IsRecent(accepted[|accepted| - n - 1], accepted[|accepted| - 1].timeMs.value, maxAge)
        invariant 1 <= n <= |accepted| && n <= maxSamples
        invariant IsRecent(accepted[|accepted| - n], accepted[|accepted| - 1].timeMs.value, maxAge)
      {
        n := n + 1;
      }
      SuffixIsTheWindow(accepted, n, maxSamples, maxAge);
    }
  }

  // Sample by sample: one is kept if and only if it is among the last `maxSamples` and, with a
  // maximal age, no further behind the last one than that.
  lemma KeptExactlyWhen(accepted: seq<Sample>, maxSamples: nat, maxAge: Option<nat>, i: nat)
    requires InOrder(accepted) && maxSamples > 0 && i < |accepted|
    ensures i >= |accepted| - |Window(accepted, maxSamples, maxAge)| <==>
      && |accepted| - i <= maxSamples
      && (maxAge.Some? ==> accepted[|accepted| - 1].timeMs.value - accepted[i].timeMs.value <= maxAge.value)
  {
    WindowIsASuffix(accepted, maxSamples, maxAge);
    var k, latest := |accepted| - |Window(accepted, maxSamples, maxAge)|, accepted[|accepted| - 1].timeMs.value;
    if i >= k {
      YoungerAreRecent(accepted, k, i, latest, maxAge);
    } else if !IsRecent(accepted[k - 1], latest, maxAge) {
      OlderAreOld(accepted, i, k - 1, latest, maxAge);
    }
  }

  lemma AcceptKeepsOrder(accepted: seq<Sample>, s: Sample)
    requires InOrder(accepted)
    ensures InOrder(Accept(accepted, s))
  {
  }

  // What a run of pushes leaves accepted.
  function AcceptAll(pushes: seq<Sample>): seq<Sample> {
    if pushes == [] then [] else Accept(AcceptAll(pushes[..|pushes| - 1]), pushes[|pushes| - 1])
  }

  // A run of pushes accepts samples in order of time, and the last accepted sample is as late as
  // every storable sample of the run.
  lemma {:induction false} RunAcceptsInOrder(pushes: seq<Sample>)
    ensures var accepted := AcceptAll(pushes);
      && InOrder(accepted)
      && (forall i :: 0 <= i < |pushes| && IsStorable(pushes[i]) ==>
            accepted != [] && pushes[i].timeMs.value <= accepted[|accepted| - 1].timeMs.value)
  {
    if pushes != [] {
      var front, last := pushes[..|pushes| - 1], pushes[|pushes| - 1];
      RunAcceptsInOrder(front);
      AcceptKeepsOrder(AcceptAll(front), last);
    }
  }

  lemma {:induction false} AcceptedWerePushed(pushes: seq<Sample>)
    ensures forall s :: s in AcceptAll(pushes) ==> s in pushes
  {
    if pushes != [] {
      AcceptedWerePushed(pushes[..|pushes| - 1]);
    }
  }

  // After a run of pushes: a sample without a valid timestamp or with a value that is not finite is
  // refused as such; another is older exactly when one pushed before it, and not refused as such,
  // is later than it; and otherwise it goes in.
  lemma OutcomeExactlyWhen(pushes: seq<Sample>, s: Sample)
    ensures var outcome := PushOutcome(AcceptAll(pushes), s);
      var older := s.timeMs.Some? && exists p :: p in pushes && IsStorable(p) && p.timeMs.value > s.timeMs.value;
      && (outcome == InvalidTimestamp <==> s.timeMs == None)
      && (outcome == InvalidValue <==> s.timeMs != None && s.reading == NotFinite)
      && (outcome == Older <==> s.timeMs != None && s.reading != NotFinite && older)
      && (outcome == Pushed <==> s.timeMs != None && s.reading != NotFinite && !older)
  {
    RunAcceptsInOrder(pushes);
    AcceptedWerePushed(pushes);
    var accepted := AcceptAll(pushes);
    if accepted != [] {
      var last := accepted[|accepted| - 1];
      assert last in accepted && IsStorable(last);
    }
  }

  lemma {:induction false} RecentAreFiltered(samples: seq<Sample>, latest: int, maxAge: Option<nat>, s: Sample)
    ensures s in Recent(samples, latest, maxAge) <==>
      s in samples && s.timeMs.Some? && (maxAge.Some? ==> s.timeMs.value >= latest - maxAge.value)
  {
    if samples != [] {
      RecentAreFiltered(samples[1..], latest, maxAge, s);
      assert s in samples <==> s == samples[0] || s in samples[1..];
    }
  }

  method SamplesSince(samples: seq<Sample>, cutoff: int) returns (result: seq<Sample>)
    ensures result == Recent(samples, cutoff, Some(0))
  {
    result := [];
    for i := 0 to |samples|
      invariant result + Recent(samples[i..], cutoff, Some(0)) == Recent(samples, cutoff, Some(0))
    {
      assert samples[i..][1..] == samples[i + 1..];
      if samples[i].timeMs.Some? && samples[i].timeMs.value >= cutoff {
        result := result + [samples[i]];
      }
    }
  }

  // ---------------------------------------------------------------- the ring

  // The index k places behind `start` in a ring of n.
  function Slot(start: nat, k: nat, n: nat): (i: nat)
    requires start < n && k <= n
    ensures i < n
  {
    if start + k < n then start + k else start + k - n
  }

  lemma SlotWraps(start: nat, k: nat, n: nat)
    requires start < n && k <= n
    ensures (start + k) % n == Slot(start, k, n)
  {
  }

  lemma NextSlot(start: nat, k: nat, n: nat)
    requires start < n && k < n
    ensures Slot(Slot(start, 1, n), k, n) == Slot(start, k + 1, n)
  {
  }

  class BoundedSignalBuffer {
    const maxSamples: nat
    const maxAge: Option<nat>
    const samples: array<Option<Sample>>
    var start: nat
    var count: nat
    var latest: Option<int>
    ghost var accepted: seq<Sample>

    ghost predicate IsRing()
      reads this
    {
      && samples.Length == maxSamples && 0 < maxSamples && start < maxSamples && count <= maxSamples
      && InOrder(accepted) && count <= |accepted|
      && latest == if accepted == [] then None else accepted[|accepted| - 1].timeMs
    }

    // Slot k of the ring holds the k-th of the last `count` accepted samples.
    ghost predicate HoldsSuffix()
      reads this, samples
      requires IsRing()
    {
      forall k :: 0 <= k < count ==> samples[Slot(start, k, maxSamples)] == Some(accepted[|accepted| - count + k])
    }

    // What precedes the kept suffix is too old or beyond the capacity.
    ghost predicate LeftOut()
      reads this
      requires IsRing()
    {
      latest.Some? && |accepted| - count > 0 ==>
        count == maxSamples || !IsRecent(accepted[|accepted| - count - 1], latest.value, maxAge)
    }

    ghost predicate Valid()
      reads this, samples
    {
      && IsRing() && HoldsSuffix() && LeftOut()
      && (accepted != [] ==> count > 0 && IsRecent(accepted[|accepted| - count], latest.value, maxAge))
    }

    constructor (maxSamples: nat, maxAge: Option<nat>)
      requires maxSamples > 0 && (maxAge.Some? ==> maxAge.value > 0)
      ensures Valid() && accepted == [] && this.maxSamples == maxSamples && this.maxAge == maxAge && fresh(samples)
    {
      this.maxSamples, this.maxAge := maxSamples, maxAge;
      samples := new Option<Sample>[maxSamples](_ => None);
      start, count, latest, accepted := 0, 0, None, [];
    }

    method EvictOne()
      requires IsRing() && HoldsSuffix() && count > 0
      modifies this`start, this`count, samples
      ensures IsRing() && HoldsSuffix() && count == old(count) - 1
    {
      ghost var before, start0 := samples[..], start;
      samples[start] := None;
      SlotWraps(start, 1, maxSamples);
      start := (start + 1) % maxSamples;
      count := count - 1;
      forall k | 0 <= k < count
        ensures samples[Slot(start, k, maxSamples)] == Some(accepted[|accepted| - count + k])
      {
        NextSlot(start0, k, maxSamples);
        assert before[Slot(start0, k + 1, maxSamples)] == Some(accepted[|accepted| - (count + 1) + (k + 1)]);
      }
    }

    // Drops the oldest samples until one is not older than the cutoff; the newest stays.
    method EvictOlderThan(cutoff: Option<int>)
      requires IsRing() && HoldsSuffix() && LeftOut() && latest.Some? && count > 0
      requires cutoff == if maxAge.None? then None else Some(latest.value - maxAge.value)
      modifies this`start, this`count, samples
      ensures Valid()
    {
      var going := cutoff.Some?;
      while going && count > 0
        invariant IsRing() && HoldsSuffix() && LeftOut() && count > 0
        invariant going || IsRecent(accepted[|accepted| - count], latest.value, maxAge)
        decreases count, going
      {
        var oldest := samples[start];
        assert oldest == Some(accepted[|accepted| - count]) by { assert Slot(start, 0, maxSamples) == start; }
        if oldest.None? || oldest.value.timeMs.value >= cutoff.value {
          going := false;
        } else {
          EvictOne();
        }
      }
    }

    // Writes a sample behind the newest one, over the oldest when the ring is full.
    method Store(sample: Sample)
      requires Valid() && PushOutcome(accepted, sample) == Pushed
      modifies this, samples
      ensures IsRing() && HoldsSuffix() && LeftOut() && count > 0
      ensures accepted == old(accepted) + [sample] && latest == sample.timeMs
    {
      AcceptKeepsOrder(accepted, sample);
      if count < maxSamples {
        Append(sample);
      } else {
        Overwrite(sample);
      }
    }

    method Append(sample: Sample)
      requires IsRing() && HoldsSuffix() && count < maxSamples && InOrder(accepted + [sample])
      modifies this, samples
      ensures IsRing() && HoldsSuffix() && count == old(count) + 1
      ensures accepted == old(accepted) + [sample] && latest == sample.timeMs
    {
      SlotWraps(start, count, maxSamples);
      samples[(start + count) % maxSamples] := Some(sample);
      count := count + 1;
      accepted := accepted + [sample];
      latest := sample.timeMs;
    }

    method Overwrite(sample: Sample)
      requires IsRing() && HoldsSuffix() && count == maxSamples && InOrder(accepted + [sample])
      modifies this, samples
      ensures IsRing() && HoldsSuffix() && count == maxSamples
      ensures accepted == old(accepted) + [sample] && latest == sample.timeMs
    {
      ghost var start0, before, accepted0 := start, samples[..], accepted;
      samples[start] := Some(sample);
      SlotWraps(start, 1, maxSamples);
      start := (start + 1) % maxSamples;
      accepted := accepted + [sample];
      latest := sample.timeMs;
      forall k | 0 <= k < count
        ensures samples[Slot(start, k, maxSamples)] == Some(accepted[|accepted| - count + k])
      {
        NextSlot(start0, k, maxSamples);
        if k < count - 1 {
          assert before[Slot(start0, k + 1, maxSamples)] == Some(accepted0[|accepted0| - count + (k + 1)]);
        }
      }
    }

    method Push(sample: Sample) returns (result: PushResult)
      requires Valid()
      modifies this, samples
      ensures Valid()
      ensures result == PushOutcome(old(accepted), sample) && accepted == Accept(old(accepted), sample)
    {
      if sample.timeMs.None? {
        return InvalidTimestamp;
      }
      if sample.reading == NotFinite {
        return InvalidValue;
      }
      if latest.Some? && sample.timeMs.value < latest.value {
        return Older;
      }
      Store(sample);
      EvictOlderThan(if maxAge.None? then None else Some(sample.timeMs.value - maxAge.value));
      result := Pushed;
    }

    // The samples from the oldest to the newest.
    method ReadSamples() returns (result: seq<Sample>)
      requires IsRing() && HoldsSuffix()
      ensures result == accepted[|accepted| - count..]
    {
      result := [];
      ghost var k := |accepted| - count;
      for offset := 0 to count
        invariant result == accepted[k..k + offset]
      {
        SlotWraps(start, offset, maxSamples);
        var sample := samples[(start + offset) % maxSamples];
        assert sample == Some(accepted[k + offset]);
        if sample.Some? {
          result := result + [sample.value];
        }
      }
    }

    // A snapshot is the window of what was accepted.
    method Snapshot() returns (result: seq<Sample>)
      requires Valid()
      ensures result == Window(accepted, maxSamples, maxAge)
    {
      result := ReadSamples();
      SuffixIsTheWindow(accepted, count, maxSamples, maxAge);
    }

    method SnapshotSince(cutoff: int) returns (result: seq<Sample>)
      requires Valid()
      ensures result == Recent(Window(accepted, maxSamples, maxAge), cutoff, Some(0))
    {
      var all := Snapshot();
      result := SamplesSince(all, cutoff);
    }

    method Clear()
      requires Valid()
      modifies this, samples
      ensures Valid() && accepted == []
    {
      forall i | 0 <= i < samples.Length {
        samples[i] := None;
      }
      start, count, latest, accepted := 0, 0, None, [];
    }
  }
}
