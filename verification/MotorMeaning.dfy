/** From the texts of a firmware snapshot to the states of the joints of an arm. */
module MotorMeaning {
  import opened Wrappers
  import opened DecimalText
  import opened Crc16
  import opened AsciiFrame
  import opened MotorFrame
  import opened MotorText
  import opened MotorState

  // The texts a snapshot carries; the ages may be absent.
  datatype Texts = Texts(present: string, valid: string, conflict: string, positions: string, ages: Option<string>)

  predicate Carries(source: Frame, t: Texts) {
    && Lookup(source.fields, "present_mask") == Some(t.present)
    && Lookup(source.fields, "valid_mask") == Some(t.valid)
    && Lookup(source.fields, "conflict_mask") == Some(t.conflict)
    && Lookup(source.fields, "q_deg") == Some(t.positions)
    && Lookup(source.fields, "age_ms") == t.ages
  }

  // What the digits of the three masks say of joint i.
  function AvailabilityIn(t: Texts, i: nat): Availability {
    if MaskBit(t.conflict, i) then Conflict
    else if MaskBit(t.valid, i) then Present
    else if MaskBit(t.present, i) then Stale
    else Missing
  }

  lemma MasksAreRead(read: Reader, source: Frame, origin: Origin, t: Texts)
    requires Project(read, source, origin).Projected? && Carries(source, t)
    ensures var m := ReadMasks(source.fields).value;
      && ParseMask(Some(t.present)) == Some(m.present) && ParseMask(Some(t.valid)) == Some(m.valid)
      && ParseMask(Some(t.conflict)) == Some(m.conflict)
  {
  }

  lemma DigitsDecide(read: Reader, source: Frame, origin: Origin, t: Texts, i: nat)
    requires Project(read, source, origin).Projected? && Carries(source, t) && i < 7
    ensures MaskAvailability(ReadMasks(source.fields).value, i) == AvailabilityIn(t, i)
    ensures Emits(ReadMasks(source.fields).value, i) <==> AvailabilityIn(t, i) != Missing
  {
    MasksAreRead(read, source, origin, t);
    MaskHasItsDigits(t.present, i);
    MaskHasItsDigits(t.valid, i);
    MaskHasItsDigits(t.conflict, i);
    assert Bit(ReadMasks(source.fields).value.valid, i) ==> Bit(ReadMasks(source.fields).value.present, i);
  }

  // The snapshot is no later than what the arm shows of the same boot.
  predicate ComesLate(previous: Snapshot, origin: Origin) {
    previous.bootId == Some(origin.bootId) && previous.frameSeq.Some? && origin.gatewaySequence <= previous.frameSeq.value
  }

  // A slot of the profile that belongs to a joint the masks make present.
  ghost predicate IsMeasuredSlot(group: seq<Joint>, t: Texts, k: nat) {
    exists i :: 0 <= i < |group| && AvailabilityIn(t, i) == Present && group[i].protocolIndex == k
  }

  // From the firmware's texts to the joints. A projected snapshot, applied unless it comes late,
  // makes each joint conflicting, present, stale or missing as the digits of its masks dictate;
  // exactly the present joints move, each to the number its own token of q_deg denotes; and the
  // chain is degraded exactly from the first joint that is not present.
  lemma MasksMeanAvailability(
      read: Reader, source: Frame, origin: Origin, group: seq<Joint>, previous: Snapshot, at: Option<int>,
      t: Texts, tokens: seq<string>)
    returns (first: nat)
    requires Project(read, source, origin).Projected? && IsGroup(group, |previous.positionsDeg|) && !ComesLate(previous, origin)
    requires Carries(source, t) && IsListOf(t.positions, tokens)
    ensures var next := Apply(group, previous, Project(read, source, origin).frame, at);
      && |next.joints| == 7 == |tokens|
      && (forall i :: 0 <= i < 7 ==> next.joints[i].availability == AvailabilityIn(t, i))
      && (forall i :: 0 <= i < 7 && AvailabilityIn(t, i) == Present ==>
            read(tokens[i]) == Some(next.positionsDeg[group[i].protocolIndex]))
      && (forall k :: 0 <= k < |previous.positionsDeg| && !IsMeasuredSlot(group, t, k) ==>
            next.positionsDeg[k] == previous.positionsDeg[k])
      && first <= 7 && next.degradedJointIds == JointIds(next.joints[first..])
      && (forall i :: 0 <= i < first ==> AvailabilityIn(t, i) == Present)
      && (first < 7 ==> AvailabilityIn(t, first) != Present)
  {
    SevenDecimalsAreRead(read, t.positions, tokens);
    AllDigitsDecide(read, source, origin, t, group);
    first := MasksDecideJoints(read, source, origin, group, previous, at);
  }

  lemma AllDigitsDecide(read: Reader, source: Frame, origin: Origin, t: Texts, group: seq<Joint>)
    requires Project(read, source, origin).Projected? && Carries(source, t) && |group| == JOINT_COUNT
    ensures forall i :: 0 <= i < 7 ==> MaskAvailability(ReadMasks(source.fields).value, i) == AvailabilityIn(t, i)
    ensures forall k: nat :: IsPresentSlot(group, ReadMasks(source.fields).value, k) ==> IsMeasuredSlot(group, t, k)
  {
    forall i | 0 <= i < 7 ensures MaskAvailability(ReadMasks(source.fields).value, i) == AvailabilityIn(t, i) {
      DigitsDecide(read, source, origin, t, i);
    }
    forall k: nat | IsPresentSlot(group, ReadMasks(source.fields).value, k) ensures IsMeasuredSlot(group, t, k) {
      var i :| 0 <= i < |group| && MaskAvailability(ReadMasks(source.fields).value, i) == Present && group[i].protocolIndex == k;
      assert AvailabilityIn(t, i) == Present;
    }
  }

  // A late snapshot changes nothing but the count of ignored frames.
  lemma LateFramesAreCounted(
    read: Reader, source: Frame, origin: Origin, group: seq<Joint>, previous: Snapshot, at: Option<int>)
    requires Project(read, source, origin).Projected? && IsGroup(group, |previous.positionsDeg|) && ComesLate(previous, origin)
    ensures Apply(group, previous, Project(read, source, origin).frame, at)
         == previous.(ignoredFrames := previous.ignoredFrames + 1)
  {
  }

  // ---------------------------------------------------------------- ages and identity

  // The age of joint i as reported: its token of age_ms, or 0 for a present joint and the largest
  // age for any other when the snapshot carries no ages.
  function AgeIn(read: Reader, t: Texts, tokens: seq<string>, i: nat): Option<real> {
    if t.ages.Some? then if i < |tokens| then read(tokens[i]) else None
    else Some(if AvailabilityIn(t, i) == Present then 0.0 else 65535.0)
  }

  lemma AgesAreRead(read: Reader, source: Frame, origin: Origin, t: Texts, tokens: seq<string>)
    requires Project(read, source, origin).Projected? && Carries(source, t)
    requires t.ages.Some? ==> IsListOf(t.ages.value, tokens)
    ensures t.ages.Some? <==> ReadAges(read, source.fields).Some?
    ensures t.ages.Some? ==> |tokens| == 7 && forall i :: 0 <= i < 7 ==>
      read(tokens[i]) == Some(ReadAges(read, source.fields).value[i]) && 0.0 <= ReadAges(read, source.fields).value[i] <= 65535.0
  {
    if t.ages.Some? {
      AcceptedAgesAreRead(read, source, origin);
      SevenAgesAreRead(read, t.ages.value, tokens);
    }
  }

  lemma AcceptedAgesAreRead(read: Reader, source: Frame, origin: Origin)
    requires Project(read, source, origin).Projected? && Lookup(source.fields, "age_ms").Some?
    ensures SevenAges(read, Lookup(source.fields, "age_ms")).Some?
  {
  }

  lemma SevenAgesAreRead(read: Reader, text: string, tokens: seq<string>)
    requires SevenAges(read, Some(text)).Some? && IsListOf(text, tokens)
    ensures |tokens| == 7
    ensures forall i :: 0 <= i < 7 ==>
      read(tokens[i]) == Some(SevenAges(read, Some(text)).value[i]) && 0.0 <= SevenAges(read, Some(text)).value[i] <= 65535.0
  {
    SevenDecimalsAreRead(read, text, tokens);
  }

  lemma JointSamples(read: Reader, source: Frame, origin: Origin, i: nat)
    requires Project(read, source, origin).Projected? && i < 7
    ensures SamplesOf(Project(read, source, origin).frame.motors, i + 1)
         == EmittedAt(ReadMasks(source.fields).value, SevenDecimals(read, Lookup(source.fields, "q_deg")).value,
                      ReadAges(read, source.fields), i)
  {
    EmittedSamplesOf(ReadMasks(source.fields).value, SevenDecimals(read, Lookup(source.fields, "q_deg")).value,
                     ReadAges(read, source.fields), JOINT_COUNT, i);
  }

  lemma SampleTells(m: Masks, positions: seq<real>, ages: Option<seq<real>>, joint: Joint, prior: Option<JointState>,
                    at: Option<int>, i: nat)
    requires i < 7 == |positions| && (Bit(m.valid, i) ==> Bit(m.present, i) && !Bit(m.conflict, i))
    requires ages.Some? ==> |ages.value| == 7 && ages.value[i] >= 0.0
    ensures var samples, availability := EmittedAt(m, positions, ages, i), MaskAvailability(m, i);
      var next := NextJointOf(joint, i + 1, samples, prior, true, at);
      var age := if ages.Some? then ages.value[i] else if availability == Present then 0.0 else 65535.0;
      && next.motorId == i + 1 && next.joint == joint
      && next.feedbackAgeMs == (if availability == Missing then None else Some(age))
      && next.lastObservedAtMs
         == (if availability == Present then at
             else if availability == Conflict && prior.Some? then prior.value.lastObservedAtMs else None)
  {
    var samples := EmittedAt(m, positions, ages, i);
    if samples != [] {
      assert samples[1..] == [];
      assert MinimumAge(samples) == Some(samples[0].feedbackAgeMs);
    }
  }

  lemma BitsAgree(read: Reader, source: Frame, origin: Origin, i: nat)
    requires Project(read, source, origin).Projected? && i < 7
    ensures var m := ReadMasks(source.fields).value; Bit(m.valid, i) ==> Bit(m.present, i) && !Bit(m.conflict, i)
  {
  }

  // What the joint reports besides its availability: a measured or conflicting joint its age, a
  // present joint also the time of the commit; a conflict keeps the time the joint was last seen.
  lemma AgesAreTold(
      read: Reader, source: Frame, origin: Origin, joint: Joint, previous: Snapshot, at: Option<int>,
      t: Texts, tokens: seq<string>, i: nat)
    requires Project(read, source, origin).Projected? && Carries(source, t) && i < 7
    requires t.ages.Some? ==> IsListOf(t.ages.value, tokens)
    ensures var next := NextJoint(joint, i + 1, previous, Project(read, source, origin).frame, at);
      && next.motorId == i + 1 && next.joint == joint
      && next.feedbackAgeMs == (if AvailabilityIn(t, i) == Missing then None else AgeIn(read, t, tokens, i))
      && next.lastObservedAtMs
         == match AvailabilityIn(t, i)
            case Present => at
            case Conflict => (var prior := Prior(previous.joints, i + 1);
                              if prior.Some? then prior.value.lastObservedAtMs else None)
            case _ => None
  {
    DigitsDecide(read, source, origin, t, i);
    AgesAreRead(read, source, origin, t, tokens);
    BitsAgree(read, source, origin, i);
    JointSamples(read, source, origin, i);
    SampleTells(ReadMasks(source.fields).value, SevenDecimals(read, Lookup(source.fields, "q_deg")).value,
                ReadAges(read, source.fields), joint, Prior(previous.joints, i + 1), at, i);
    assert Project(read, source, origin).frame.snapshotComplete;
  }

  // The rest of the snapshot: whose it is, and when it came.
  lemma SnapshotIsIdentified(
    read: Reader, source: Frame, origin: Origin, group: seq<Joint>, previous: Snapshot, at: Option<int>)
    requires Project(read, source, origin).Projected? && IsGroup(group, |previous.positionsDeg|) && !ComesLate(previous, origin)
    ensures var next := Apply(group, previous, Project(read, source, origin).frame, at);
      && next.bootId == Some(origin.bootId) && next.armId == Some(origin.armId)
      && next.frameSeq == Some(origin.gatewaySequence) && next.receivedAtMs == Some(origin.receivedAtMs)
      && next.committedAtMs == at && next.ignoredFrames == previous.ignoredFrames
  {
  }

  // It lists exactly the motors in conflict,
  lemma ConflictsAreListed(
    read: Reader, source: Frame, origin: Origin, group: seq<Joint>, previous: Snapshot, at: Option<int>, t: Texts, id: int)
    requires Project(read, source, origin).Projected? && IsGroup(group, |previous.positionsDeg|) && !ComesLate(previous, origin)
    requires Carries(source, t)
    ensures id in Apply(group, previous, Project(read, source, origin).frame, at).duplicateMotorIds
       <==> 1 <= id <= 7 && AvailabilityIn(t, id - 1) == Conflict
  {
    DuplicateExactlyWhen(read, source, origin, t, id);
  }

  // and exactly the foreign motors its text names.
  lemma ForeignMotorsAreListed(
      read: Reader, source: Frame, origin: Origin, group: seq<Joint>, previous: Snapshot, at: Option<int>,
      ids: string, tokens: seq<string>, id: int)
    requires Project(read, source, origin).Projected? && IsGroup(group, |previous.positionsDeg|) && !ComesLate(previous, origin)
    requires Lookup(source.fields, "unexpected_ids") == Some(ids) && IsListOf(ids, tokens)
    ensures id in Apply(group, previous, Project(read, source, origin).frame, at).unexpectedMotorIds
       <==> ids != "none" && exists k :: 0 <= k < |tokens| && AreDigits(tokens[k]) && ToNat(tokens[k]) == id
  {
    ForeignOnly(read, source, origin);
    IdsOfTokens(ids, tokens, id);
    ProjectedIds(read, source, origin, ids);
  }

  lemma ProjectedIds(read: Reader, source: Frame, origin: Origin, ids: string)
    requires Project(read, source, origin).Projected? && Lookup(source.fields, "unexpected_ids") == Some(ids)
    ensures ParseUnexpectedIds(Some(ids)) == Some(Project(read, source, origin).frame.unexpectedMotorIds)
  {
  }

  lemma IdsOfTokens(ids: string, tokens: seq<string>, id: int)
    requires IsListOf(ids, tokens)
    ensures ParseUnexpectedIds(Some(ids)).Some? ==>
      var parsed := ParseUnexpectedIds(Some(ids)).value;
      (exists k :: 0 <= k < |parsed| && parsed[k] == id)
      <==> ids != "none" && exists k :: 0 <= k < |tokens| && AreDigits(tokens[k]) && ToNat(tokens[k]) == id
  {
    UnexpectedIdsAreRead(ids, tokens);
    if ids != "none" && ParseUnexpectedIds(Some(ids)).Some? {
      assert forall k :: 0 <= k < |tokens| ==> IsForeignId(tokens[k]);
    }
  }

  lemma SamplesAreOfJoints(read: Reader, source: Frame, origin: Origin)
    requires Project(read, source, origin).Projected?
    ensures forall id :: id in MotorIds(Project(read, source, origin).frame.motors) ==> 1 <= id <= 7
  {
    SamplesAreTheEmitted(ReadMasks(source.fields).value, SevenDecimals(read, Lookup(source.fields, "q_deg")).value,
                         ReadAges(read, source.fields), JOINT_COUNT);
    var motors := Project(read, source, origin).frame.motors;
    forall id | id in MotorIds(motors) ensures 1 <= id <= 7 {
      var k :| 0 <= k < |motors| && motors[k].motorId == id;
      assert motors[k] in motors;
    }
  }

  lemma ForeignOnly(read: Reader, source: Frame, origin: Origin)
    requires Project(read, source, origin).Projected?
    ensures var frame := Project(read, source, origin).frame;
      forall id :: id in Unexpected(frame) <==>
        exists k :: 0 <= k < |frame.unexpectedMotorIds| && frame.unexpectedMotorIds[k] == id
  {
    SamplesAreOfJoints(read, source, origin);
    ProjectedIdsAreFine(read, source, origin);
  }

  lemma DuplicateExactlyWhen(read: Reader, source: Frame, origin: Origin, t: Texts, id: int)
    requires Project(read, source, origin).Projected? && Carries(source, t)
    ensures id in Duplicates(Project(read, source, origin).frame) <==> 1 <= id <= 7 && AvailabilityIn(t, id - 1) == Conflict
  {
    if 1 <= id <= 7 {
      DuplicateIsConflict(read, source, origin, t, id);
    } else {
      SamplesAreOfJoints(read, source, origin);
    }
  }

  lemma DuplicateIsConflict(read: Reader, source: Frame, origin: Origin, t: Texts, id: int)
    requires Project(read, source, origin).Projected? && Carries(source, t) && 1 <= id <= 7
    ensures id in Duplicates(Project(read, source, origin).frame) <==> AvailabilityIn(t, id - 1) == Conflict
  {
    var m, ages := ReadMasks(source.fields).value, ReadAges(read, source.fields);
    var positions := SevenDecimals(read, Lookup(source.fields, "q_deg")).value;
    DigitsDecide(read, source, origin, t, id - 1);
    BitsAgree(read, source, origin, id - 1);
    JointSamples(read, source, origin, id - 1);
    SamplesMeanIds(Project(read, source, origin).frame.motors, id);
    EmittedIsDuplicate(m, positions, ages, id - 1);
    DuplicateMeans(Project(read, source, origin).frame, id);
  }

  lemma EmittedIsDuplicate(m: Masks, positions: seq<real>, ages: Option<seq<real>>, i: nat)
    requires i < |positions| && (ages.Some? ==> i < |ages.value|)
    ensures IsDuplicate(EmittedAt(m, positions, ages, i)) <==> MaskAvailability(m, i) == Conflict
  {
  }

  lemma DuplicateMeans(frame: MotorFrame, id: int)
    requires SamplesOf(frame.motors, id) != [] <==> id in MotorIds(frame.motors)
    ensures id in Duplicates(frame) <==> IsDuplicate(SamplesOf(frame.motors, id))
  {
  }

  lemma {:induction false} SamplesMeanIds(motors: seq<Sample>, id: int)
    ensures SamplesOf(motors, id) != [] <==> id in MotorIds(motors)
  {
    if motors != [] {
      var front, last := motors[..|motors| - 1], motors[|motors| - 1];
      SamplesMeanIds(front, id);
      MoreMotorIds(front, last);
      assert front + [last] == motors;
    }
  }

  // ---------------------------------------------------------------- which snapshots are projected

  predicate IsArm(group: string) {
    group == "left-arm" || group == "right-arm"
  }

  // Telemetry of the joint state, or the response to a query of the joint positions.
  predicate IsJointSnapshot(source: Frame, origin: Origin) {
    if source.kind == Tel then source.subject == "JOINT_STATE" else source.kind == Rsp && origin.sourceOperation == "GET_JPOS"
  }

  predicate HasTime(source: Frame) {
    var text := Lookup(source.fields, "t_us");
    text.Some? && 1 <= |text.value| <= 20 && AreDigits(text.value) && ToNat(text.value) <= 18446744073709551615
  }

  ghost predicate HasPositions(read: Reader, source: Frame) {
    var text := Lookup(source.fields, "q_deg");
    text.Some? && exists tokens :: IsListOf(text.value, tokens) && |tokens| == 7
                                   && forall i :: 0 <= i < 7 ==> IsDecimalText(tokens[i]) && read(tokens[i]).Some?
  }

  predicate HasMask(source: Frame, key: string) {
    var text := Lookup(source.fields, key);
    text.Some? && IsMaskText(text.value) && !MaskBit(text.value, 7)
  }

  predicate HasMasks(source: Frame) {
    HasMask(source, "present_mask") && HasMask(source, "valid_mask") && HasMask(source, "conflict_mask")
  }

  // A valid joint is present and in no conflict.
  predicate MasksAgree(source: Frame)
    requires HasMasks(source)
  {
    forall i :: 0 <= i < 8 && MaskBit(Lookup(source.fields, "valid_mask").value, i) ==>
      MaskBit(Lookup(source.fields, "present_mask").value, i) && !MaskBit(Lookup(source.fields, "conflict_mask").value, i)
  }

  ghost predicate HasForeignIds(source: Frame) {
    var text := Lookup(source.fields, "unexpected_ids");
    text.Some? && (text.value == "none"
                   || exists tokens :: IsListOf(text.value, tokens) && |tokens| <= 32 && AreForeignIds(tokens, -1))
  }

  ghost predicate HasAgesIfAny(read: Reader, source: Frame) {
    var text := Lookup(source.fields, "age_ms");
    text.Some? ==> exists tokens :: IsListOf(text.value, tokens) && |tokens| == 7
                                    && forall i :: 0 <= i < 7 ==> IsDecimalText(tokens[i]) && IsAge(read(tokens[i]))
  }

  predicate IsAge(value: Option<real>) {
    value.Some? && 0.0 <= value.value <= 65535.0
  }

  lemma PositionsAre(read: Reader, source: Frame)
    ensures HasPositions(read, source) <==> SevenDecimals(read, Lookup(source.fields, "q_deg")).Some?
  {
    var text := Lookup(source.fields, "q_deg");
    if text.Some? {
      SplitIsTheList(text.value);
      forall tokens | IsListOf(text.value, tokens)
        ensures SevenDecimals(read, text).Some?
           <==> |tokens| == 7 && forall i :: 0 <= i < 7 ==> IsDecimalText(tokens[i]) && read(tokens[i]).Some?
      {
        SevenDecimalsAreRead(read, text.value, tokens);
      }
    }
  }

  lemma AgesAre(read: Reader, source: Frame)
    ensures HasAgesIfAny(read, source) <==> (Lookup(source.fields, "age_ms").Some? ==> ReadAges(read, source.fields).Some?)
  {
    var text := Lookup(source.fields, "age_ms");
    if text.Some? {
      SplitIsTheList(text.value);
      forall tokens | IsListOf(text.value, tokens)
        ensures SevenAges(read, text).Some?
           <==> |tokens| == 7 && forall i :: 0 <= i < 7 ==> IsDecimalText(tokens[i]) && IsAge(read(tokens[i]))
      {
        SevenDecimalsAreRead(read, text.value, tokens);
      }
    }
  }

  lemma ForeignIdsAre(source: Frame)
    ensures HasForeignIds(source) <==> ParseUnexpectedIds(Lookup(source.fields, "unexpected_ids")).Some?
  {
    var text := Lookup(source.fields, "unexpected_ids");
    if text.Some? {
      SplitIsTheList(text.value);
      forall tokens | text.value != "none" && IsListOf(text.value, tokens)
        ensures ParseUnexpectedIds(text).Some? <==> |tokens| <= 32 && AreForeignIds(tokens, -1)
      {
        UnexpectedIdsAreRead(text.value, tokens);
      }
    }
  }

  lemma MasksAre(source: Frame)
    ensures HasMasks(source) <==> ReadMasks(source.fields).Some?
    ensures HasMasks(source) ==>
      var m := ReadMasks(source.fields).value; MasksAgree(source) <==> Consistent(m.present, m.valid, m.conflict)
  {
    var p, v, c := Lookup(source.fields, "present_mask"), Lookup(source.fields, "valid_mask"), Lookup(source.fields, "conflict_mask");
    if p.Some? && v.Some? && c.Some? {
      MaskAcceptedExactlyWhen(p.value);
      MaskAcceptedExactlyWhen(v.value);
      MaskAcceptedExactlyWhen(c.value);
      if HasMasks(source) {
        forall i: nat | i < 8
          ensures Bit(ParseMask(p).value, i) <==> MaskBit(p.value, i)
          ensures Bit(ParseMask(v).value, i) <==> MaskBit(v.value, i)
          ensures Bit(ParseMask(c).value, i) <==> MaskBit(c.value, i)
        {
          MaskHasItsDigits(p.value, i);
          MaskHasItsDigits(v.value, i);
          MaskHasItsDigits(c.value, i);
        }
      }
    }
  }

  lemma TimeIs(source: Frame)
    ensures HasTime(source) <==> IsTime(Lookup(source.fields, "t_us"))
  {
  }

  lemma FaultIs(read: Reader, source: Frame, origin: Origin)
    ensures ProjectionFault(read, source, origin) ==
      if !IsArm(origin.jointGroupId) then Some(JointGroupInvalid)
      else if !IsJointSnapshot(source, origin) then Some(FrameKindNotJointSnapshot)
      else if !HasTime(source) then Some(TimeInvalid)
      else if !HasPositions(read, source) then Some(PositionsInvalid)
      else if !HasMasks(source) then Some(MaskInvalid)
      else if !MasksAgree(source) then Some(MaskInconsistent)
      else if !HasForeignIds(source) then Some(UnexpectedIdsInvalid)
      else if !HasAgesIfAny(read, source) then Some(AgesInvalid)
      else None
  {
    TimeIs(source);
    PositionsAre(read, source);
    MasksAre(source);
    ForeignIdsAre(source);
    AgesAre(read, source);
  }

  // Which snapshots are projected, and what the first failing check of any other is called.
  lemma ProjectsExactlyWhen(read: Reader, source: Frame, origin: Origin)
    ensures var r := Project(read, source, origin);
      if !IsArm(origin.jointGroupId) then r == NotProjected(JointGroupInvalid)
      else if !IsJointSnapshot(source, origin) then r == NotProjected(FrameKindNotJointSnapshot)
      else if !HasTime(source) then r == NotProjected(TimeInvalid)
      else if !HasPositions(read, source) then r == NotProjected(PositionsInvalid)
      else if !HasMasks(source) then r == NotProjected(MaskInvalid)
      else if !MasksAgree(source) then r == NotProjected(MaskInconsistent)
      else if !HasForeignIds(source) then r == NotProjected(UnexpectedIdsInvalid)
      else if !HasAgesIfAny(read, source) then r == NotProjected(AgesInvalid)
      else r.Projected?
  {
    FaultIs(read, source, origin);
  }
}
