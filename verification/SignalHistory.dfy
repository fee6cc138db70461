/**
The live signal history: three signals per joint, each in a bounded buffer of its own, fed by
the measured frames of one session.
*/
module SignalHistory {
  import opened Wrappers
  import opened SignalBuffer

  const MAX_WINDOW_SECONDS: nat := 120
  const MAX_CAPTURE_RATE_HZ: nat := 40
  const MAX_SAMPLES: nat := MAX_WINDOW_SECONDS * MAX_CAPTURE_RATE_HZ
  const MAX_AGE_MS: nat := MAX_WINDOW_SECONDS * 1000

  // The signals of a joint, in the order of their descriptors.
  datatype Signal = Actual | Target | Error

  datatype Frame = Frame(
    profileId: string, measured: bool, valid: bool, sequence: int, timeMs: Option<int>, positionsDeg: seq<Reading>)

  datatype Status = Accepted | InactiveSession | InvalidFrame | Duplicate | OutOfOrder

  datatype Series = Series(signal: nat, samples: seq<Sample>)

  function ReadingAt(readings: seq<Reading>, i: nat): Reading {
    if i < |readings| && readings[i] != NotFinite then readings[i] else NoValue
  }

  // The sample a frame contributes to a signal of a joint; an unknown target leaves a gap in its
  // signal and in the error.
  function SampleFor(signal: Signal, frame: Frame, targets: seq<Reading>, joint: nat): Sample {
    var actual, target := ReadingAt(frame.positionsDeg, joint), ReadingAt(targets, joint);
    var validity := if target == NoValue then "invalid" else "valid";
    match signal
    case Actual => Sample(frame.timeMs, actual, "valid")
    case Target => Sample(frame.timeMs, target, validity)
    case Error => Sample(
      frame.timeMs, if actual.Finite? && target.Finite? then Finite(target.value - actual.value) else NoValue, validity)
  }

  // What the signals of a joint tell: the measured position, the target where one is known, and
  // with it the difference; where none is, both leave a gap that is marked invalid.
  lemma SignalsTell(frame: Frame, targets: seq<Reading>, joint: nat)
    requires joint < |frame.positionsDeg| && frame.positionsDeg[joint].Finite?
    ensures var actual, target := SampleFor(Actual, frame, targets, joint), SampleFor(Target, frame, targets, joint);
      var error := SampleFor(Error, frame, targets, joint);
      && actual.timeMs == target.timeMs == error.timeMs == frame.timeMs
      && actual.reading == frame.positionsDeg[joint] && actual.validity == "valid"
      && if joint < |targets| && targets[joint].Finite? then
           && target.reading == targets[joint] && target.validity == "valid"
           && error.reading.Finite? && error.validity == "valid"
           && actual.reading.value + error.reading.value == target.reading.value
         else target.reading == error.reading == NoValue && target.validity == error.validity == "invalid"
  {
  }

  predicate IsValidFrame(frame: Frame, profileId: string, dof: nat) {
    && frame.profileId == profileId && frame.measured && frame.valid && frame.sequence >= 0 && frame.timeMs.Some?
    && |frame.positionsDeg| == dof && forall i :: 0 <= i < dof ==> frame.positionsDeg[i].Finite?
  }

  // ---------------------------------------------------------------- samples taken at the same times

  // The timestamps of accepted samples.
  ghost predicate TakenAt(samples: seq<Sample>, times: seq<int>) {
    && |samples| == |times|
    && forall i :: 0 <= i < |samples| ==> samples[i].timeMs == Some(times[i])
  }

  ghost predicate AllTakenAt(taken: seq<seq<Sample>>, times: seq<int>) {
    forall i :: 0 <= i < |taken| ==> TakenAt(taken[i], times)
  }

  // A sample no older than the last one is accepted, at its time.
  lemma AcceptTakes(samples: seq<Sample>, times: seq<int>, s: Sample)
    requires TakenAt(samples, times) && IsStorable(s)
    requires times != [] ==> s.timeMs.value >= times[|times| - 1]
    ensures TakenAt(Accept(samples, s), times + [s.timeMs.value]) && Accept(samples, s) == samples + [s]
  {
  }

  function TimesOf(samples: seq<Sample>): seq<Option<int>> {
    seq(|samples|, i requires 0 <= i < |samples| => samples[i].timeMs)
  }

  lemma {:induction false} RecentTimes(a: seq<Sample>, b: seq<Sample>, latest: int, maxAge: Option<nat>)
    requires TimesOf(a) == TimesOf(b)
    ensures TimesOf(Recent(a, latest, maxAge)) == TimesOf(Recent(b, latest, maxAge))
    decreases |a|
  {
    assert |a| == |TimesOf(a)| == |b|;
    if a != [] {
      assert TimesOf(a)[0] == TimesOf(b)[0];
      assert TimesOf(a[1..]) == TimesOf(a)[1..] == TimesOf(b)[1..] == TimesOf(b[1..]);
      RecentTimes(a[1..], b[1..], latest, maxAge);
      var x, y := Recent(a[1..], latest, maxAge), Recent(b[1..], latest, maxAge);
      assert TimesOf([a[0]] + x) == [a[0].timeMs] + TimesOf(x) && TimesOf([b[0]] + y) == [b[0].timeMs] + TimesOf(y);
      assert [] + x == x && [] + y == y;
    }
  }

  // Buffers that accepted samples at the same times hold samples at the same times.
  lemma WindowsShareTimes(a: seq<Sample>, b: seq<Sample>, times: seq<int>, maxSamples: nat, maxAge: Option<nat>)
    requires InOrder(a) && InOrder(b) && TakenAt(a, times) && TakenAt(b, times)
    ensures TimesOf(Window(a, maxSamples, maxAge)) == TimesOf(Window(b, maxSamples, maxAge))
  {
    if a != [] {
      var k := Surplus(|a|, maxSamples);
      assert TimesOf(a[k..]) == TimesOf(b[k..]);
      RecentTimes(a[k..], b[k..], times[|times| - 1], maxAge);
    }
  }

  // The i-th buffer is offered a sample.
  function Put(taken: seq<seq<Sample>>, i: nat, s: Sample): (more: seq<seq<Sample>>)
    ensures |more| == |taken|
  {
    if i < |taken| then taken[i := Accept(taken[i], s)] else taken
  }

  // What the buffers have taken once the first of them were offered the samples.
  ghost function Extended(taken: seq<seq<Sample>>, samples: seq<Sample>): (more: seq<seq<Sample>>)
    requires |samples| <= |taken|
    ensures |more| == |taken|
  {
    seq(|taken|, i requires 0 <= i < |taken| => if i < |samples| then Accept(taken[i], samples[i]) else taken[i])
  }

  lemma OneMore(taken: seq<seq<Sample>>, samples: seq<Sample>, s: Sample)
    requires |samples| < |taken|
    ensures Put(Extended(taken, samples), |samples|, s) == Extended(taken, samples + [s])
  {
  }

  lemma ThreeMore(taken: seq<seq<Sample>>, samples: seq<Sample>, a: Sample, b: Sample, c: Sample)
    requires |samples| + 3 <= |taken|
    ensures Put(Put(Put(Extended(taken, samples), |samples|, a), |samples| + 1, b), |samples| + 2, c)
         == Extended(taken, samples + [a] + [b] + [c])
  {
    OneMore(taken, samples, a);
    OneMore(taken, samples + [a], b);
    OneMore(taken, samples + [a] + [b], c);
  }

  // Samples of one time, no older than the last one, are all accepted.
  lemma FrameIsTaken(taken: seq<seq<Sample>>, times: seq<int>, samples: seq<Sample>, time: int)
    requires |samples| == |taken| && AllTakenAt(taken, times) && (times != [] ==> time >= times[|times| - 1])
    requires forall i :: 0 <= i < |samples| ==> IsStorable(samples[i]) && samples[i].timeMs == Some(time)
    ensures AllTakenAt(Extended(taken, samples), times + [time])
    ensures forall i :: 0 <= i < |taken| ==> Extended(taken, samples)[i] == taken[i] + [samples[i]]
  {
    forall i | 0 <= i < |taken|
      ensures TakenAt(Accept(taken[i], samples[i]), times + [time])
      ensures Accept(taken[i], samples[i]) == taken[i] + [samples[i]]
    {
      AcceptTakes(taken[i], times, samples[i]);
    }
  }

  function Since(samples: seq<Sample>, cutoff: Option<int>): seq<Sample> {
    if cutoff.None? then samples else Recent(samples, cutoff.value, Some(0))
  }

  // What a buffer holds of the samples it took.
  ghost function Held(samples: seq<Sample>): seq<Sample>
    requires InOrder(samples)
  {
    Window(samples, MAX_SAMPLES, Some(MAX_AGE_MS))
  }

  ghost predicate AllInOrder(taken: seq<seq<Sample>>) {
    forall i :: 0 <= i < |taken| ==> InOrder(taken[i])
  }

  // The series of the requested ones of the first n signals.
  ghost function SeriesOf(taken: seq<seq<Sample>>, requested: set<nat>, n: nat, cutoff: Option<int>): seq<Series>
    requires AllInOrder(taken) && n <= |taken|
    decreases n
  {
    if n == 0 then []
    else
      SeriesOf(taken, requested, n - 1, cutoff)
      + if n - 1 in requested then [Series(n - 1, Since(Held(taken[n - 1]), cutoff))] else []
  }

  // The series are those of the requested signals, each once and in order.
  lemma {:induction false} SeriesAreRequested(taken: seq<seq<Sample>>, requested: set<nat>, n: nat, cutoff: Option<int>)
    requires AllInOrder(taken) && n <= |taken|
    ensures var series := SeriesOf(taken, requested, n, cutoff);
      && (forall s :: s in series <==>
            s.signal < n && s.signal in requested && s.samples == Since(Held(taken[s.signal]), cutoff))
      && (forall j, k :: 0 <= j < k < |series| ==> series[j].signal < series[k].signal)
  {
    if n > 0 {
      SeriesAreRequested(taken, requested, n - 1, cutoff);
      var before := SeriesOf(taken, requested, n - 1, cutoff);
      assert forall k :: 0 <= k < |before| ==> before[k] in before;
    }
  }

  // Sample by sample, all series of a snapshot stand at the same times.
  lemma SeriesShareTimes(taken: seq<seq<Sample>>, times: seq<int>, requested: set<nat>, cutoff: Option<int>,
                         a: Series, b: Series)
    requires AllInOrder(taken) && AllTakenAt(taken, times)
    requires a in SeriesOf(taken, requested, |taken|, cutoff) && b in SeriesOf(taken, requested, |taken|, cutoff)
    ensures TimesOf(a.samples) == TimesOf(b.samples)
  {
    SeriesAreRequested(taken, requested, |taken|, cutoff);
    WindowsShareTimes(taken[a.signal], taken[b.signal], times, MAX_SAMPLES, Some(MAX_AGE_MS));
    if cutoff.Some? {
      RecentTimes(Held(taken[a.signal]), Held(taken[b.signal]), cutoff.value, Some(0));
    }
  }

  function Nothing(n: nat): seq<seq<Sample>> {
    seq(n, _ => [])
  }

  // ---------------------------------------------------------------- the history

  class LiveSignalHistory {
    const profileId: string
    const dof: nat
    const joints: seq<nat>                      // the protocol index of each joint
    const buffers: seq<BoundedSignalBuffer>     // three per joint, in the order of the signals
    var sessionId: Option<string>
    var sessionProfile: Option<string>
    var lastSequence: Option<int>
    var lastTimeMs: Option<int>
    var acceptedFrames: nat
    var rejectedFrames: nat
    var droppedFrames: nat
    ghost const rings: set<array<Option<Sample>>>
    ghost var taken: seq<seq<Sample>>           // what each buffer accepted since it was cleared
    ghost var firstSequence: int
    ghost var times: seq<int>

    // Each signal has a buffer of its own, with the bounds of the history.
    ghost predicate OwnsBuffers() {
      && |buffers| == 3 * |joints|
      && (forall i, j :: 0 <= i < j < |buffers| ==> buffers[i] != buffers[j] && buffers[i].samples != buffers[j].samples)
      && (forall i :: 0 <= i < |buffers| ==>
            buffers[i].samples in rings && buffers[i].maxSamples == MAX_SAMPLES && buffers[i].maxAge == Some(MAX_AGE_MS))
    }

    ghost predicate BuffersValid()
      reads this`taken, buffers, rings
    {
      && OwnsBuffers() && |taken| == |buffers|
      && forall i :: 0 <= i < |buffers| ==> buffers[i].Valid() && buffers[i].accepted == taken[i]
    }

    // Accepted frames and detected gaps cover the range from the first to the last sequence.
    ghost predicate CountsAgree()
      reads this
    {
      && acceptedFrames == |times|
      && (lastSequence.None? <==> acceptedFrames == 0) && (lastTimeMs.None? <==> acceptedFrames == 0)
      && (acceptedFrames == 0 ==> droppedFrames == 0)
      && (lastSequence.Some? ==> acceptedFrames + droppedFrames == lastSequence.value - firstSequence + 1)
      && (lastTimeMs.Some? ==> lastTimeMs.value == times[|times| - 1])
    }

    // Every buffer has accepted one sample per accepted frame, at the frame's time.
    ghost predicate BuffersAligned()
      reads this
    {
      AllTakenAt(taken, times)
    }

    ghost predicate Valid()
      reads this, buffers, rings
    {
      CountsAgree() && BuffersValid() && BuffersAligned()
    }

    // The samples of a frame for the first n joints, signal by signal.
    function FrameSamples(frame: Frame, targets: seq<Reading>, n: nat): (samples: seq<Sample>)
      requires n <= |joints|
      ensures |samples| == 3 * n
    {
      if n == 0 then []
      else
        FrameSamples(frame, targets, n - 1)
        + [SampleFor(Actual, frame, targets, joints[n - 1])] + [SampleFor(Target, frame, targets, joints[n - 1])]
        + [SampleFor(Error, frame, targets, joints[n - 1])]
    }

    // Signal by signal and joint by joint, each buffer gets the sample of its own signal.
    lemma {:induction false} SamplesOfJoint(frame: Frame, targets: seq<Reading>, n: nat, k: nat)
      requires k < n <= |joints|
      ensures var samples := FrameSamples(frame, targets, n);
        && samples[3 * k] == SampleFor(Actual, frame, targets, joints[k])
        && samples[3 * k + 1] == SampleFor(Target, frame, targets, joints[k])
        && samples[3 * k + 2] == SampleFor(Error, frame, targets, joints[k])
    {
      if k < n - 1 {
        SamplesOfJoint(frame, targets, n - 1, k);
      }
    }

    lemma {:induction false} SamplesAreTimed(frame: Frame, targets: seq<Reading>, n: nat)
      requires n <= |joints| && frame.timeMs.Some?
      ensures forall i :: 0 <= i < 3 * n ==>
        var s := FrameSamples(frame, targets, n)[i]; IsStorable(s) && s.timeMs == frame.timeMs
    {
      if n > 0 {
        SamplesAreTimed(frame, targets, n - 1);
      }
    }

    constructor (profileId: string, dof: nat, joints: seq<nat>)
      ensures Valid() && times == [] && sessionId == None && this.joints == joints
    {
      var made: seq<BoundedSignalBuffer> := [];
      ghost var owned: set<array<Option<Sample>>> := {};
      for n := 0 to 3 * |joints|
        invariant |made| == n
        invariant forall i, j :: 0 <= i < j < n ==> made[i] != made[j] && made[i].samples != made[j].samples
        invariant forall i :: 0 <= i < n ==>
          && made[i].samples in owned && made[i].Valid() && made[i].accepted == []
          && made[i].maxSamples == MAX_SAMPLES && made[i].maxAge == Some(MAX_AGE_MS)
      {
        var b := new BoundedSignalBuffer(MAX_SAMPLES, Some(MAX_AGE_MS));
        made, owned := made + [b], owned + {b.samples};
      }
      buffers, rings := made, owned;
      this.profileId, this.dof, this.joints := profileId, dof, joints;
      sessionId, sessionProfile, lastSequence, lastTimeMs := None, None, None, None;
      acceptedFrames, rejectedFrames, droppedFrames := 0, 0, 0;
      firstSequence, times, taken := 0, [], Nothing(|made|);
    }

    method PushSignal(i: nat, sample: Sample)
      requires BuffersValid() && i < |buffers|
      modifies this`taken, buffers[i], buffers[i].samples
      ensures BuffersValid() && taken == Put(old(taken), i, sample)
    {
      var result := buffers[i].Push(sample);
      taken := Put(taken, i, sample);
    }

    method ClearSignal(i: nat)
      requires BuffersValid() && i < |buffers|
      modifies this`taken, buffers[i], buffers[i].samples
      ensures BuffersValid() && taken == old(taken)[i := []]
    {
      buffers[i].Clear();
      taken := taken[i := []];
    }

    method ClearBuffers()
      requires BuffersValid()
      modifies this`taken, buffers, rings
      ensures BuffersValid() && taken == Nothing(|buffers|)
    {
      for n := 0 to |buffers|
        invariant BuffersValid() && forall i :: 0 <= i < n ==> taken[i] == []
      {
        ClearSignal(n);
      }
    }

    method ClearSamples()
      requires BuffersValid()
      modifies this, buffers, rings
      ensures Valid() && times == [] && rejectedFrames == 0 && taken == Nothing(|buffers|)
      ensures sessionId == old(sessionId) && sessionProfile == old(sessionProfile)
    {
      ClearBuffers();
      lastSequence, lastTimeMs := None, None;
      acceptedFrames, rejectedFrames, droppedFrames := 0, 0, 0;
      firstSequence, times := 0, [];
    }

    // A new session starts with an empty history; the same one goes on with its own.
    method BeginSession(session: Option<string>, profile: Option<string>) returns (changed: bool)
      requires Valid()
      modifies this, buffers, rings
      ensures Valid() && sessionId == session && sessionProfile == profile
      ensures changed <==> old(sessionId) != session || old(sessionProfile) != profile
      ensures if changed then times == [] && taken == Nothing(|buffers|)
              else times == old(times) && taken == old(taken)
    {
      if sessionId == session && sessionProfile == profile {
        return false;
      }
      sessionId, sessionProfile := session, profile;
      ClearSamples();
      changed := true;
    }

    function StatusOf(frame: Frame): Status
      reads this
    {
      if sessionId.None? || sessionId.value == "" || sessionProfile != Some(profileId) then InactiveSession
      else if !IsValidFrame(frame, profileId, dof) then InvalidFrame
      else if lastSequence.Some? && frame.sequence == lastSequence.value then Duplicate
      else if lastSequence.Some?
              && (frame.sequence < lastSequence.value || (lastTimeMs.Some? && frame.timeMs.value < lastTimeMs.value)) then OutOfOrder
      else Accepted
    }

    // Which frames are taken, and why the others are not: outside a session of the profile none is,
    // and within one those that are well formed and after the last one taken in sequence and not
    // before it in time.
    lemma StatusExactlyWhen(frame: Frame)
      requires Valid()
      ensures var active := sessionId.Some? && sessionId.value != "" && sessionProfile == Some(profileId);
        var formed :=
          && frame.profileId == profileId && frame.measured && frame.valid && frame.sequence >= 0 && frame.timeMs.Some?
          && |frame.positionsDeg| == dof && forall i :: 0 <= i < dof ==> frame.positionsDeg[i].Finite?;
        && (StatusOf(frame) == InactiveSession <==> !active)
        && (StatusOf(frame) == InvalidFrame <==> active && !formed)
        && (StatusOf(frame) == Duplicate <==> active && formed && times != [] && frame.sequence == lastSequence.value)
        && (StatusOf(frame) == Accepted <==>
              && active && formed
              && (times != [] ==> frame.sequence > lastSequence.value && frame.timeMs.value >= times[|times| - 1]))
    {
    }

    // The three signals of a joint take their samples of a frame.
    method PushJoint(k: nat, frame: Frame, targets: seq<Reading>, ghost before: seq<seq<Sample>>, ghost samples: seq<Sample>)
      requires BuffersValid() && k < |joints|
      requires |samples| == 3 * k && |before| == |buffers| && taken == Extended(before, samples)
      modifies this`taken, buffers, rings
      ensures BuffersValid()
      ensures taken == Extended(before, samples + [SampleFor(Actual, frame, targets, joints[k])]
                                        + [SampleFor(Target, frame, targets, joints[k])]
                                        + [SampleFor(Error, frame, targets, joints[k])])
    {
      var actual, target := SampleFor(Actual, frame, targets, joints[k]), SampleFor(Target, frame, targets, joints[k]);
      var error := SampleFor(Error, frame, targets, joints[k]);
      ThreeMore(before, samples, actual, target, error);
      PushSignal(3 * k, actual);
      PushSignal(3 * k + 1, target);
      PushSignal(3 * k + 2, error);
    }

    // The samples of a frame go to the three signals of every joint.
    method PushAll(frame: Frame, targets: seq<Reading>)
      requires BuffersValid()
      modifies this`taken, buffers, rings
      ensures BuffersValid() && taken == Extended(old(taken), FrameSamples(frame, targets, |joints|))
    {
      ghost var before := taken;
      assert Extended(before, []) == before;
      for k := 0 to |joints|
        invariant BuffersValid() && taken == Extended(before, FrameSamples(frame, targets, k))
      {
        PushJoint(k, frame, targets, before, FrameSamples(frame, targets, k));
      }
    }

    // A frame no older than the last one leaves one sample, at its time, in every buffer.
    method StoreFrame(frame: Frame, targets: seq<Reading>)
      requires BuffersValid() && BuffersAligned() && frame.timeMs.Some?
      requires times != [] ==> frame.timeMs.value >= times[|times| - 1]
      modifies this`taken, buffers, rings
      ensures BuffersValid() && AllTakenAt(taken, times + [frame.timeMs.value])
      ensures forall i :: 0 <= i < |buffers| ==> taken[i] == old(taken)[i] + [FrameSamples(frame, targets, |joints|)[i]]
    {
      SamplesAreTimed(frame, targets, |joints|);
      FrameIsTaken(taken, times, FrameSamples(frame, targets, |joints|), frame.timeMs.value);
      PushAll(frame, targets);
    }

    // Counts a frame; sequences left out since the last one count as dropped.
    method NoteFrame(frame: Frame) returns (detectedGap: nat)
      requires CountsAgree() && StatusOf(frame) == Accepted
      modifies `lastSequence, `lastTimeMs, `acceptedFrames, `droppedFrames, `firstSequence, `times
      ensures CountsAgree() && times == old(times) + [frame.timeMs.value] && lastSequence == Some(frame.sequence)
      ensures droppedFrames == old(droppedFrames) + detectedGap
    {
      detectedGap := 0;
      if lastSequence.Some? {
        detectedGap := frame.sequence - lastSequence.value - 1;
      } else {
        firstSequence := frame.sequence;
      }
      droppedFrames := droppedFrames + detectedGap;
      times := times + [frame.timeMs.value];
      lastSequence, lastTimeMs := Some(frame.sequence), frame.timeMs;
      acceptedFrames := acceptedFrames + 1;
    }

    method TakeFrame(frame: Frame, targets: seq<Reading>) returns (detectedGap: nat)
      requires Valid() && StatusOf(frame) == Accepted
      modifies this, buffers, rings
      ensures Valid() && times == old(times) + [frame.timeMs.value] && lastSequence == Some(frame.sequence)
      ensures droppedFrames == old(droppedFrames) + detectedGap && rejectedFrames == old(rejectedFrames)
      ensures forall i :: 0 <= i < |buffers| ==> taken[i] == old(taken)[i] + [FrameSamples(frame, targets, |joints|)[i]]
    {
      StoreFrame(frame, targets);
      detectedGap := NoteFrame(frame);
    }

    method Ingest(frame: Frame, targets: seq<Reading>) returns (status: Status, detectedGap: nat)
      requires Valid()
      modifies this, buffers, rings
      ensures Valid() && status == old(StatusOf(frame))
      ensures if status == Accepted then
                times == old(times) + [frame.timeMs.value] && lastSequence == Some(frame.sequence)
                && droppedFrames == old(droppedFrames) + detectedGap && rejectedFrames == old(rejectedFrames)
                && forall i :: 0 <= i < |buffers| ==> taken[i] == old(taken)[i] + [FrameSamples(frame, targets, |joints|)[i]]
              else
                times == old(times) && lastSequence == old(lastSequence) && detectedGap == 0
                && droppedFrames == old(droppedFrames) && rejectedFrames == old(rejectedFrames) + 1
                && taken == old(taken)
    {
      status, detectedGap := StatusOf(frame), 0;
      if status != Accepted {
        rejectedFrames := rejectedFrames + 1;
        return;
      }
      detectedGap := TakeFrame(frame, targets);
    }

    // ---------------------------------------------------------------- what it shows

    // All signals of a history hold samples at the same times.
    lemma SignalsShareTimes(i: nat, j: nat)
      requires Valid() && i < |buffers| && j < |buffers|
      ensures TimesOf(Held(buffers[i].accepted)) == TimesOf(Held(buffers[j].accepted))
    {
      WindowsShareTimes(taken[i], taken[j], times, MAX_SAMPLES, Some(MAX_AGE_MS));
    }

    // Where the shown samples of the last seconds start.
    function Cutoff(seconds: int): Option<int>
      reads this
    {
      var bounded := if seconds < 1 then 1 else if seconds > MAX_WINDOW_SECONDS then MAX_WINDOW_SECONDS else seconds;
      if lastTimeMs.None? then None else Some(lastTimeMs.value - bounded * 1000)
    }

    // Of the samples held, those of the requested last seconds are shown, at least of one and at
    // most of 120, counted back from the last frame.
    lemma ShownExactlyWhen(held: seq<Sample>, seconds: int, s: Sample)
      requires Valid() && s.timeMs.Some?
      ensures times == [] ==> Since(held, Cutoff(seconds)) == held
      ensures times != [] ==>
        var ago := times[|times| - 1] - s.timeMs.value;
        (s in Since(held, Cutoff(seconds)) <==>
           s in held && ago <= if seconds <= 1 then 1000 else if seconds >= 120 then 120000 else 1000 * seconds)
    {
      if times != [] {
        RecentAreFiltered(held, Cutoff(seconds).value, Some(0), s);
      }
    }

    // The series of the requested signals, in the order of the descriptors.
    method Snapshot(requested: set<nat>, seconds: int) returns (series: seq<Series>)
      requires Valid()
      ensures AllInOrder(taken) && series == SeriesOf(taken, requested, |taken|, Cutoff(seconds))
    {
      series := [];
      var cutoff := Cutoff(seconds);
      for i := 0 to |buffers|
        invariant series == SeriesOf(taken, requested, i, cutoff)
      {
        if i in requested {
          var samples;
          if cutoff.Some? {
            samples := buffers[i].SnapshotSince(cutoff.value);
          } else {
            samples := buffers[i].Snapshot();
          }
          series := series + [Series(i, samples)];
        }
      }
    }
  }
}
