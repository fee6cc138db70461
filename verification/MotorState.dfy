/**
Per-joint availability of one arm: applying a motor frame to a snapshot, expiring a snapshot,
and the meaning of the discovery masks from the firmware snapshot to the joint states.
*/
module MotorState {
  import opened Wrappers
  import opened Crc16
  import opened AsciiFrame
  import opened MotorFrame

  datatype Availability = NotObserved | Present | Stale | Missing | Conflict

  datatype Joint = Joint(jointId: string, protocolIndex: nat)

  datatype JointState = JointState(
    motorId: int, joint: Joint, availability: Availability, feedbackAgeMs: Option<real>, lastObservedAtMs: Option<int>)

  datatype Snapshot = Snapshot(
    bootId: Option<string>, armId: Option<string>, frameSeq: Option<nat>, receivedAtMs: Option<int>,
    committedAtMs: Option<int>, positionsDeg: seq<real>, joints: seq<JointState>,
    duplicateMotorIds: set<int>, unexpectedMotorIds: set<int>, degradedJointIds: seq<string>, ignoredFrames: nat)

  // The seven joints of an arm, each with a slot of its own among the positions of the profile.
  predicate IsGroup(group: seq<Joint>, slots: nat) {
    && |group| == JOINT_COUNT
    && (forall i :: 0 <= i < |group| ==> group[i].protocolIndex < slots)
    && (forall i, j :: 0 <= i < j < |group| ==> group[i].protocolIndex != group[j].protocolIndex)
  }

  // ---------------------------------------------------------------- applying a frame

  function SamplesOf(motors: seq<Sample>, motorId: int): seq<Sample> {
    if motors == [] then []
    else
      var front, last := SamplesOf(motors[..|motors| - 1], motorId), motors[|motors| - 1];
      if last.motorId == motorId then front + [last] else front
  }

  // The samples of one motor: reported twice, or under a conflicting identity.
  predicate IsDuplicate(samples: seq<Sample>) {
    |samples| > 1 || exists i :: 0 <= i < |samples| && samples[i].identityConflict
  }

  function MotorIds(motors: seq<Sample>): set<int> {
    set i | 0 <= i < |motors| :: motors[i].motorId
  }

  function Prior(joints: seq<JointState>, motorId: int): Option<JointState> {
    if joints == [] then None
    else if joints[0].motorId == motorId then Some(joints[0])
    else Prior(joints[1..], motorId)
  }

  function MinimumAge(samples: seq<Sample>): Option<real> {
    if samples == [] then None
    else
      var rest, age := MinimumAge(samples[1..]), samples[0].feedbackAgeMs;
      if age < 0.0 then rest else if rest.Some? && rest.value < age then rest else Some(age)
  }

  predicate IsUsable(s: Sample) {
    s.valid && s.feedbackAgeMs >= 0.0
  }

  // The next state of a joint from the samples of its motor and its prior state.
  function NextJointOf(joint: Joint, motorId: int, samples: seq<Sample>, prior: Option<JointState>, complete: bool,
                       committedAtMs: Option<int>): JointState
  {
    if IsDuplicate(samples) then
      JointState(motorId, joint, Conflict, MinimumAge(samples), if prior.Some? then prior.value.lastObservedAtMs else None)
    else if samples == [] then
      if complete then JointState(motorId, joint, Missing, None, None)
      else if prior.Some? then
        JointState(motorId, joint, prior.value.availability, prior.value.feedbackAgeMs, prior.value.lastObservedAtMs)
      else JointState(motorId, joint, NotObserved, None, None)
    else
      var s := samples[0];
      JointState(motorId, joint, if IsUsable(s) then Present else Stale,
                 if s.feedbackAgeMs >= 0.0 then Some(s.feedbackAgeMs) else None,
                 if IsUsable(s) then committedAtMs else None)
  }

  // The position a joint's slot takes from the samples of its motor, if it takes one.
  function MeasuredOf(samples: seq<Sample>): Option<real> {
    if IsDuplicate(samples) || samples == [] || !IsUsable(samples[0]) then None else Some(samples[0].positionDeg)
  }

  function NextJoint(joint: Joint, motorId: int, previous: Snapshot, frame: MotorFrame, committedAtMs: Option<int>): JointState {
    NextJointOf(joint, motorId, SamplesOf(frame.motors, motorId), Prior(previous.joints, motorId), frame.snapshotComplete,
                committedAtMs)
  }

  function Measured(frame: MotorFrame, motorId: int): Option<real> {
    MeasuredOf(SamplesOf(frame.motors, motorId))
  }

  function NextJoints(group: seq<Joint>, previous: Snapshot, frame: MotorFrame, committedAtMs: Option<int>, n: nat): seq<JointState>
    requires n <= |group|
  {
    if n == 0 then []
    else NextJoints(group, previous, frame, committedAtMs, n - 1)
         + [NextJoint(group[n - 1], n, previous, frame, committedAtMs)]
  }

  function NextPositions(group: seq<Joint>, positions: seq<real>, frame: MotorFrame, n: nat): (next: seq<real>)
    requires n <= |group| && forall i :: 0 <= i < |group| ==> group[i].protocolIndex < |positions|
    ensures |next| == |positions|
  {
    if n == 0 then positions
    else
      var before, measured := NextPositions(group, positions, frame, n - 1), Measured(frame, n);
      if measured.Some? then before[group[n - 1].protocolIndex := measured.value] else before
  }

  // The joints from the first one that is not present, where the chain's pose becomes uncertain.
  function Degraded(joints: seq<JointState>): seq<string> {
    if joints == [] then []
    else if joints[0].availability == Present then Degraded(joints[1..])
    else JointIds(joints)
  }

  function JointIds(joints: seq<JointState>): seq<string> {
    seq(|joints|, i requires 0 <= i < |joints| => joints[i].joint.jointId)
  }

  predicate IsOutdated(previous: Snapshot, frame: MotorFrame) {
    previous.bootId == Some(frame.bootId) && previous.frameSeq.Some? && frame.frameSeq <= previous.frameSeq.value
  }

  function Duplicates(frame: MotorFrame): set<int> {
    set id | id in MotorIds(frame.motors) && IsDuplicate(SamplesOf(frame.motors, id))
  }

  function Unexpected(frame: MotorFrame): set<int> {
    (set id | id in MotorIds(frame.motors) && !IsMotorId(id))
    + (set i | 0 <= i < |frame.unexpectedMotorIds| && !IsMotorId(frame.unexpectedMotorIds[i]) :: frame.unexpectedMotorIds[i])
  }

  function Apply(group: seq<Joint>, previous: Snapshot, frame: MotorFrame, committedAtMs: Option<int>): Snapshot
    requires IsGroup(group, |previous.positionsDeg|)
  {
    if IsOutdated(previous, frame) then previous.(ignoredFrames := previous.ignoredFrames + 1)
    else
      var joints := NextJoints(group, previous, frame, committedAtMs, |group|);
      Snapshot(Some(frame.bootId), Some(frame.armId), Some(frame.frameSeq), Some(frame.receivedAtMs), committedAtMs,
               NextPositions(group, previous.positionsDeg, frame, |group|), joints,
               Duplicates(frame), Unexpected(frame), Degraded(joints), previous.ignoredFrames)
  }

  // The samples of a frame, grouped by motor in a map.
  method GroupSamples(motors: seq<Sample>) returns (byId: map<int, seq<Sample>>)
    ensures forall id :: SamplesOf(motors, id) == if id in byId then byId[id] else []
    ensures byId.Keys == MotorIds(motors)
  {
    byId := map[];
    for k := 0 to |motors|
      invariant forall id :: SamplesOf(motors[..k], id) == if id in byId then byId[id] else []
      invariant byId.Keys == MotorIds(motors[..k])
    {
      var s := motors[k];
      assert motors[..k + 1][..k] == motors[..k];
      assert motors[..k] + [s] == motors[..k + 1];
      MoreMotorIds(motors[..k], s);
      var samples := if s.motorId in byId then byId[s.motorId] else [];
      byId := byId[s.motorId := samples + [s]];
    }
    assert motors[..|motors|] == motors;
  }

  lemma MoreMotorIds(motors: seq<Sample>, s: Sample)
    ensures MotorIds(motors + [s]) == MotorIds(motors) + {s.motorId}
  {
    var more := motors + [s];
    assert more[|motors|] == s;
    forall id | id in MotorIds(motors) ensures id in MotorIds(more) {
      var i :| 0 <= i < |motors| && motors[i].motorId == id;
      assert more[i].motorId == id;
    }
  }

  // The search for the first joint that is not present.
  method DegradedFrom(joints: seq<JointState>) returns (ids: seq<string>)
    ensures ids == Degraded(joints)
  {
    var first := 0;
    assert joints[0..] == joints;
    while first < |joints| && joints[first].availability == Present
      invariant 0 <= first <= |joints| && Degraded(joints) == Degraded(joints[first..])
    {
      assert joints[first..][1..] == joints[first + 1..];
      first := first + 1;
    }
    ids := if first == |joints| then [] else JointIds(joints[first..]);
  }

  // The branches of one joint: its next state, and the position it was measured at, if it was.
  method ApplyJoint(joint: Joint, motorId: int, samples: seq<Sample>, duplicate: bool, prior: Option<JointState>,
                    complete: bool, committedAtMs: Option<int>)
    returns (next: JointState, measured: Option<real>)
    requires duplicate <==> IsDuplicate(samples)
    ensures next == NextJointOf(joint, motorId, samples, prior, complete, committedAtMs) && measured == MeasuredOf(samples)
  {
    measured := None;
    if duplicate {
      var observed := if prior.Some? then prior.value.lastObservedAtMs else None;
      next := JointState(motorId, joint, Conflict, MinimumAge(samples), observed);
    } else if samples == [] {
      if complete || prior.None? {
        next := JointState(motorId, joint, if complete then Missing else NotObserved, None, None);
      } else {
        next := prior.value.(motorId := motorId, joint := joint);
      }
    } else {
      var sample := samples[0];
      var valid := sample.valid && sample.feedbackAgeMs >= 0.0;
      if valid {
        measured := Some(sample.positionDeg);
      }
      var age := if sample.feedbackAgeMs >= 0.0 then Some(sample.feedbackAgeMs) else None;
      next := JointState(motorId, joint, if valid then Present else Stale, age, if valid then committedAtMs else None);
    }
  }

  // The map holds the samples of every motor of the frame.
  ghost predicate Groups(byId: map<int, seq<Sample>>, motors: seq<Sample>) {
    byId.Keys == MotorIds(motors) && forall id :: SamplesOf(motors, id) == if id in byId then byId[id] else []
  }

  method DuplicateIds(byId: map<int, seq<Sample>>, ghost frame: MotorFrame) returns (ids: set<int>)
    requires Groups(byId, frame.motors)
    ensures ids == Duplicates(frame) && forall id :: id in ids <==> IsDuplicate(SamplesOf(frame.motors, id))
  {
    ids := set id | id in byId && IsDuplicate(byId[id]);
  }

  method UnexpectedIds(byId: map<int, seq<Sample>>, frame: MotorFrame) returns (ids: set<int>)
    requires Groups(byId, frame.motors)
    ensures ids == Unexpected(frame)
  {
    var reported := frame.unexpectedMotorIds;
    ids := (set id | id in byId && !IsMotorId(id)) + (set i | 0 <= i < |reported| && !IsMotorId(reported[i]) :: reported[i]);
  }

  method ApplyJoints(group: seq<Joint>, previous: Snapshot, frame: MotorFrame, committedAtMs: Option<int>,
                     byId: map<int, seq<Sample>>, duplicates: set<int>)
    returns (joints: seq<JointState>, positions: seq<real>)
    requires IsGroup(group, |previous.positionsDeg|) && Groups(byId, frame.motors)
    requires forall id :: id in duplicates <==> IsDuplicate(SamplesOf(frame.motors, id))
    ensures joints == NextJoints(group, previous, frame, committedAtMs, |group|)
    ensures positions == NextPositions(group, previous.positionsDeg, frame, |group|)
  {
    positions, joints := previous.positionsDeg, [];
    for index := 0 to |group|
      invariant joints == NextJoints(group, previous, frame, committedAtMs, index)
      invariant positions == NextPositions(group, previous.positionsDeg, frame, index)
    {
      var joint, motorId := group[index], index + 1;
      var samples := if motorId in byId then byId[motorId] else [];
      var prior := Prior(previous.joints, motorId);
      var state, measured :=
        ApplyJoint(joint, motorId, samples, motorId in duplicates, prior, frame.snapshotComplete, committedAtMs);
      if measured.Some? {
        positions := positions[joint.protocolIndex := measured.value];
      }
      joints := joints + [state];
    }
  }

  method ApplyFrame(group: seq<Joint>, previous: Snapshot, frame: MotorFrame, committedAtMs: Option<int>)
    returns (next: Snapshot)
    requires IsGroup(group, |previous.positionsDeg|)
    ensures next == Apply(group, previous, frame, committedAtMs)
  {
    if IsOutdated(previous, frame) {
      return previous.(ignoredFrames := previous.ignoredFrames + 1);
    }
    var byId := GroupSamples(frame.motors);
    var duplicates := DuplicateIds(byId, frame);
    var unexpected := UnexpectedIds(byId, frame);
    var joints, positions := ApplyJoints(group, previous, frame, committedAtMs, byId, duplicates);
    var degraded := DegradedFrom(joints);
    next := Snapshot(Some(frame.bootId), Some(frame.armId), Some(frame.frameSeq), Some(frame.receivedAtMs), committedAtMs,
                     positions, joints, duplicates, unexpected, degraded, previous.ignoredFrames);
  }

  // ---------------------------------------------------------------- reading the result

  lemma {:induction false} NextJointsAt(group: seq<Joint>, previous: Snapshot, frame: MotorFrame, at: Option<int>, n: nat)
    requires n <= |group|
    ensures var joints := NextJoints(group, previous, frame, at, n);
      |joints| == n && forall i :: 0 <= i < n ==> joints[i] == NextJoint(group[i], i + 1, previous, frame, at)
  {
    if n > 0 {
      NextJointsAt(group, previous, frame, at, n - 1);
    }
  }

  ghost predicate IsWritten(group: seq<Joint>, frame: MotorFrame, n: nat, k: nat)
    requires n <= |group|
  {
    exists i :: 0 <= i < n && Measured(frame, i + 1).Some? && group[i].protocolIndex == k
  }

  // Each measured joint writes its own slot; every other slot keeps its position.
  lemma {:induction false} NextPositionsAt(group: seq<Joint>, positions: seq<real>, frame: MotorFrame, n: nat)
    requires IsGroup(group, |positions|) && n <= |group|
    ensures var next := NextPositions(group, positions, frame, n);
      && (forall i :: 0 <= i < n && Measured(frame, i + 1).Some? ==>
            next[group[i].protocolIndex] == Measured(frame, i + 1).value)
      && (forall k :: 0 <= k < |positions| && !IsWritten(group, frame, n, k) ==> next[k] == positions[k])
  {
    if n > 0 {
      NextPositionsAt(group, positions, frame, n - 1);
      assert Measured(frame, (n - 1) + 1) == Measured(frame, n);
      assert forall k :: !IsWritten(group, frame, n, k) ==> !IsWritten(group, frame, n - 1, k);
    }
  }

  // The degraded joints are the chain's suffix from the first joint that is not present.
  lemma {:induction false} DegradedIsASuffix(joints: seq<JointState>) returns (first: nat)
    ensures first <= |joints| && Degraded(joints) == JointIds(joints[first..])
    ensures (forall i :: 0 <= i < first ==> joints[i].availability == Present)
    ensures first < |joints| ==> joints[first].availability != Present
  {
    if joints == [] || joints[0].availability != Present {
      first := 0;
      assert joints[0..] == joints;
    } else {
      var rest := DegradedIsASuffix(joints[1..]);
      first := rest + 1;
      assert joints[1..][rest..] == joints[first..];
    }
  }

  // ---------------------------------------------------------------- the meaning of the masks

  lemma SamplesOfGrow(before: seq<Sample>, more: seq<Sample>, id: int)
    requires |more| <= 1
    ensures SamplesOf(before + more, id)
         == if more != [] && more[0].motorId == id then SamplesOf(before, id) + more else SamplesOf(before, id)
  {
    if more == [] {
      assert before + more == before;
    } else {
      assert (before + more)[..|before|] == before && more == [more[0]];
    }
  }

  lemma {:induction false} EmittedSamplesOf(m: Masks, positions: seq<real>, ages: Option<seq<real>>, n: nat, i: nat)
    requires n <= |positions| && (ages.Some? ==> n <= |ages.value|)
    ensures SamplesOf(SamplesBefore(m, positions, ages, n), i + 1)
         == if i < n then EmittedAt(m, positions, ages, i) else []
  {
    if n > 0 {
      EmittedSamplesOf(m, positions, ages, n - 1, i);
      SamplesOfGrow(SamplesBefore(m, positions, ages, n - 1), EmittedAt(m, positions, ages, n - 1), i + 1);
    }
  }

  function MaskAvailability(m: Masks, i: nat): Availability {
    if Bit(m.conflict, i) then Conflict
    else if Bit(m.valid, i) then Present
    else if Bit(m.present, i) then Stale
    else Missing
  }

  lemma SampleDecides(m: Masks, positions: seq<real>, ages: Option<seq<real>>, joint: Joint, prior: Option<JointState>,
                      at: Option<int>, i: nat)
    requires |positions| == JOINT_COUNT && i < JOINT_COUNT && (Bit(m.valid, i) ==> Bit(m.present, i))
    requires ages.Some? ==> |ages.value| == JOINT_COUNT && ages.value[i] >= 0.0
    ensures var samples := if Emits(m, i) then [SampleAt(m, positions, ages, i)] else [];
      && NextJointOf(joint, i + 1, samples, prior, true, at).availability == MaskAvailability(m, i)
      && MeasuredOf(samples) == if MaskAvailability(m, i) == Present then Some(positions[i]) else None
  {
  }

  lemma MaskDecides(read: Reader, source: Frame, origin: Origin, joint: Joint, previous: Snapshot, at: Option<int>, i: nat)
    requires Project(read, source, origin).Projected? && i < JOINT_COUNT
    ensures var frame, m := Project(read, source, origin).frame, ReadMasks(source.fields).value;
      && NextJoint(joint, i + 1, previous, frame, at).availability == MaskAvailability(m, i)
      && Measured(frame, i + 1)
         == if MaskAvailability(m, i) == Present
            then Some(SevenDecimals(read, Lookup(source.fields, "q_deg")).value[i]) else None
  {
    var positions := SevenDecimals(read, Lookup(source.fields, "q_deg")).value;
    var m, ages := ReadMasks(source.fields).value, ReadAges(read, source.fields);
    EmittedSamplesOf(m, positions, ages, JOINT_COUNT, i);
    assert Bit(m.valid, i) ==> Bit(m.present, i);
    SampleDecides(m, positions, ages, joint, Prior(previous.joints, i + 1), at, i);
  }

  // The slot belongs to a joint the masks make present.
  ghost predicate IsPresentSlot(group: seq<Joint>, m: Masks, k: nat) {
    exists i :: 0 <= i < |group| && MaskAvailability(m, i) == Present && group[i].protocolIndex == k
  }

  // From the numbers of the masks to the joints: a projected snapshot, applied as a fresh frame, makes
  // each joint conflicting, present, stale or missing as its bits dictate, moves exactly the
  // present joints to their q_deg, and degrades exactly the chain from the first joint not present.
  lemma MasksDecideJoints(read: Reader, source: Frame, origin: Origin, group: seq<Joint>, previous: Snapshot, at: Option<int>)
    returns (first: nat)
    requires Project(read, source, origin).Projected? && IsGroup(group, |previous.positionsDeg|)
    requires !IsOutdated(previous, Project(read, source, origin).frame)
    ensures var m := ReadMasks(source.fields).value;
      var q := SevenDecimals(read, Lookup(source.fields, "q_deg")).value;
      var next := Apply(group, previous, Project(read, source, origin).frame, at);
      && |next.joints| == JOINT_COUNT
      && (forall i :: 0 <= i < JOINT_COUNT ==> next.joints[i].availability == MaskAvailability(m, i))
      && (forall i :: 0 <= i < JOINT_COUNT && MaskAvailability(m, i) == Present ==>
            next.positionsDeg[group[i].protocolIndex] == q[i])
      && (forall k :: 0 <= k < |previous.positionsDeg| && !IsPresentSlot(group, m, k) ==>
            next.positionsDeg[k] == previous.positionsDeg[k])
      && first <= JOINT_COUNT && next.degradedJointIds == JointIds(next.joints[first..])
      && (forall i :: 0 <= i < first ==> MaskAvailability(m, i) == Present)
      && (first < JOINT_COUNT ==> MaskAvailability(m, first) != Present)
  {
    var frame, m := Project(read, source, origin).frame, ReadMasks(source.fields).value;
    var next := Apply(group, previous, frame, at);
    NextJointsAt(group, previous, frame, at, |group|);
    NextPositionsAt(group, previous.positionsDeg, frame, |group|);
    forall i | 0 <= i < JOINT_COUNT
      ensures next.joints[i].availability == MaskAvailability(m, i)
      ensures Measured(frame, i + 1).Some? <==> MaskAvailability(m, i) == Present
      ensures MaskAvailability(m, i) == Present ==>
        Measured(frame, i + 1) == Some(SevenDecimals(read, Lookup(source.fields, "q_deg")).value[i])
    {
      MaskDecides(read, source, origin, group[i], previous, at, i);
    }
    forall k | 0 <= k < |previous.positionsDeg| && !IsPresentSlot(group, m, k)
      ensures !IsWritten(group, frame, |group|, k)
    {
    }
    first := DegradedIsASuffix(next.joints);
  }

  // The age of a conflicting joint: the least among its samples that is no negative one.
  lemma {:induction false} MinimumAgeIsLeast(samples: seq<Sample>)
    ensures MinimumAge(samples).None? <==> forall i :: 0 <= i < |samples| ==> samples[i].feedbackAgeMs < 0.0
    ensures MinimumAge(samples).Some? ==>
      && MinimumAge(samples).value >= 0.0
      && (exists i :: 0 <= i < |samples| && samples[i].feedbackAgeMs == MinimumAge(samples).value)
      && (forall i :: 0 <= i < |samples| && samples[i].feedbackAgeMs >= 0.0 ==>
            MinimumAge(samples).value <= samples[i].feedbackAgeMs)
  {
    if samples != [] {
      MinimumAgeIsLeast(samples[1..]);
      assert samples == [samples[0]] + samples[1..];
    }
  }

  // A motor named twice or in an identity conflict makes its joint conflicting; a motor not named
  // makes it missing, or leaves it as it was when the snapshot is partial; a valid sample of an age
  // makes it present, any other single one stale.
  lemma SamplesMeanJoint(joint: Joint, id: int, previous: Snapshot, frame: MotorFrame, at: Option<int>)
    ensures var (samples, prior, next) :=
              (SamplesOf(frame.motors, id), Prior(previous.joints, id), NextJoint(joint, id, previous, frame, at));
      && next.motorId == id && next.joint == joint
      && (next.availability == Conflict && samples != [] <==>
            |samples| >= 2 || (|samples| == 1 && samples[0].identityConflict))
      && (samples == [] && frame.snapshotComplete ==> next.availability == Missing && next.lastObservedAtMs == None)
      && (samples == [] && !frame.snapshotComplete && prior.Some? ==>
            next == JointState(id, joint, prior.value.availability, prior.value.feedbackAgeMs, prior.value.lastObservedAtMs))
      && (samples == [] && !frame.snapshotComplete && prior.None? ==> next == JointState(id, joint, NotObserved, None, None))
      && (|samples| == 1 && !samples[0].identityConflict ==>
            var s := samples[0];
            next == JointState(id, joint, if s.valid && s.feedbackAgeMs >= 0.0 then Present else Stale,
                               if s.feedbackAgeMs >= 0.0 then Some(s.feedbackAgeMs) else None,
                               if s.valid && s.feedbackAgeMs >= 0.0 then at else None))
  {
  }

  // ---------------------------------------------------------------- expiry

  function AgeAt(j: JointState, committedAtMs: int, nowMs: int): real {
    var elapsed := nowMs - if j.lastObservedAtMs.Some? then j.lastObservedAtMs.value else committedAtMs;
    (if j.feedbackAgeMs.Some? then j.feedbackAgeMs.value else 0.0) + (if elapsed > 0 then elapsed as real else 0.0)
  }

  predicate Expires(j: JointState, committedAtMs: int, nowMs: int, staleAfterMs: real) {
    j.availability == Present && AgeAt(j, committedAtMs, nowMs) >= staleAfterMs
  }

  function ExpireJoint(j: JointState, committedAtMs: int, nowMs: int, staleAfterMs: real): JointState {
    if Expires(j, committedAtMs, nowMs, staleAfterMs) then
      j.(availability := Stale, feedbackAgeMs := Some(AgeAt(j, committedAtMs, nowMs)))
    else j
  }

  function ExpireJoints(joints: seq<JointState>, committedAtMs: int, nowMs: int, staleAfterMs: real): seq<JointState> {
    seq(|joints|, i requires 0 <= i < |joints| => ExpireJoint(joints[i], committedAtMs, nowMs, staleAfterMs))
  }

  function Expire(s: Snapshot, nowMs: int, staleAfterMs: real): Snapshot {
    if s.committedAtMs.None? then s
    else
      var joints := ExpireJoints(s.joints, s.committedAtMs.value, nowMs, staleAfterMs);
      if joints == s.joints then s else s.(joints := joints, degradedJointIds := Degraded(joints))
  }

  method ExpireSnapshot(s: Snapshot, nowMs: int, staleAfterMs: real) returns (next: Snapshot)
    ensures next == Expire(s, nowMs, staleAfterMs)
  {
    if s.committedAtMs.None? {
      return s;
    }
    var changed := false;
    var joints: seq<JointState> := [];
    for i := 0 to |s.joints|
      invariant joints == ExpireJoints(s.joints[..i], s.committedAtMs.value, nowMs, staleAfterMs)
      invariant changed <==> joints != s.joints[..i]
    {
      var j := s.joints[i];
      if Expires(j, s.committedAtMs.value, nowMs, staleAfterMs) {
        changed := true;
        assert ExpireJoint(j, s.committedAtMs.value, nowMs, staleAfterMs) != j;
      }
      joints := joints + [ExpireJoint(j, s.committedAtMs.value, nowMs, staleAfterMs)];
      assert joints[..i] == ExpireJoints(s.joints[..i], s.committedAtMs.value, nowMs, staleAfterMs);
      assert s.joints[..i + 1][..i] == s.joints[..i];
    }
    assert s.joints[..|s.joints|] == s.joints;
    next := s;
    if changed {
      var degraded := DegradedFrom(joints);
      next := s.(joints := joints, degradedJointIds := degraded);
    }
  }

  lemma ExpireJointTwice(j: JointState, committedAtMs: int, t1: int, t2: int, staleAfterMs: real)
    requires t1 <= t2
    ensures ExpireJoint(ExpireJoint(j, committedAtMs, t1, staleAfterMs), committedAtMs, t2, staleAfterMs).availability
         == ExpireJoint(j, committedAtMs, t2, staleAfterMs).availability
  {
  }

  // Expiring at two moments gives every joint the availability of expiring once at the later.
  lemma ExpireTwiceIsExpireOnce(s: Snapshot, t1: int, t2: int, staleAfterMs: real)
    requires t1 <= t2
    ensures var twice, once := Expire(Expire(s, t1, staleAfterMs), t2, staleAfterMs), Expire(s, t2, staleAfterMs);
      && |twice.joints| == |once.joints| == |s.joints|
      && (forall i :: 0 <= i < |s.joints| ==> twice.joints[i].availability == once.joints[i].availability)
      && (s.degradedJointIds == Degraded(s.joints) ==> twice.degradedJointIds == once.degradedJointIds)
      && twice.positionsDeg == s.positionsDeg
  {
    if s.committedAtMs.Some? {
      var c := s.committedAtMs.value;
      var a := ExpireJoints(s.joints, c, t1, staleAfterMs);
      forall i | 0 <= i < |s.joints|
        ensures ExpireJoints(a, c, t2, staleAfterMs)[i].availability == ExpireJoints(s.joints, c, t2, staleAfterMs)[i].availability
      {
        ExpireJointTwice(s.joints[i], c, t1, t2, staleAfterMs);
      }
      DegradedDependsOnAvailability(ExpireJoints(a, c, t2, staleAfterMs), ExpireJoints(s.joints, c, t2, staleAfterMs));
    }
  }

  lemma {:induction false} DegradedDependsOnAvailability(a: seq<JointState>, b: seq<JointState>)
    requires |a| == |b|
    requires forall i :: 0 <= i < |a| ==> a[i].availability == b[i].availability && a[i].joint == b[i].joint
    ensures Degraded(a) == Degraded(b)
    decreases |a|
  {
    if a != [] {
      DegradedDependsOnAvailability(a[1..], b[1..]);
    }
  }

  // What expiry does to a joint, by the time since it was last seen, or since the commit: a present
  // joint whose age has reached the limit is stale, with that age; every other joint is as before.
  lemma ExpiredExactlyWhenOld(s: Snapshot, nowMs: int, staleAfterMs: real, i: nat)
    requires i < |s.joints|
    ensures |Expire(s, nowMs, staleAfterMs).joints| == |s.joints|
    ensures var j, k := s.joints[i], Expire(s, nowMs, staleAfterMs).joints[i];
      if s.committedAtMs.None? || j.availability != Present then k == j
      else
        var seen := if j.lastObservedAtMs.Some? then j.lastObservedAtMs.value else s.committedAtMs.value;
        var shown := if j.feedbackAgeMs.Some? then j.feedbackAgeMs.value else 0.0;
        var age := if nowMs > seen then shown + (nowMs - seen) as real else shown;
        if age < staleAfterMs then k == j else k == j.(availability := Stale, feedbackAgeMs := Some(age))
    ensures s.degradedJointIds == Degraded(s.joints) ==>
      Expire(s, nowMs, staleAfterMs).degradedJointIds == Degraded(Expire(s, nowMs, staleAfterMs).joints)
  {
  }
}
