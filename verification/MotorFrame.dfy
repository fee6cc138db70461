/**
The motor frame projector: one joint snapshot of the firmware, read through its discovery
masks, becomes motor samples. Reading a decimal numeral as a number is a parameter.
*/
module MotorFrame {
  import opened Wrappers
  import opened DecimalText
  import opened Crc16
  import opened AsciiFrame

  const JOINT_COUNT: nat := 7

  datatype Sample = Sample(motorId: int, positionDeg: real, feedbackAgeMs: real, valid: bool, identityConflict: bool)

  datatype MotorFrame = MotorFrame(
    jointGroupId: string, controllerId: string, armId: string, bootId: string, frameSeq: nat, receivedAtMs: int,
    snapshotComplete: bool, motors: seq<Sample>, unexpectedMotorIds: seq<int>)

  datatype ProjectionError =
    | JointGroupInvalid | FrameKindNotJointSnapshot | TimeInvalid | PositionsInvalid
    | MaskInvalid | MaskInconsistent | UnexpectedIdsInvalid | AgesInvalid

  datatype Projection = Projected(frame: MotorFrame) | NotProjected(error: ProjectionError)

  // Who sent a snapshot, under which gateway sequence and time.
  datatype Origin = Origin(
    sourceOperation: string, jointGroupId: string, controllerId: string, armId: string, bootId: string,
    gatewaySequence: nat, receivedAtMs: int)

  type Reader = string -> Option<real>

  // ---------------------------------------------------------------- reading the fields

  function Lookup(fields: seq<Field>, key: string): Option<string> {
    if fields == [] then None
    else if fields[0].0 == key then Some(fields[0].1)
    else Lookup(fields[1..], key)
  }

  function HexNumber(s: string): nat
    requires forall i :: 0 <= i < |s| ==> IsHexDigit(s[i])
  {
    if s == "" then 0 else 16 * HexNumber(s[..|s| - 1]) + HexValue(s[|s| - 1])
  }

  // A mask of joint bits, written as 0x and one or two upper-case hexadecimal digits.
  function ParseMask(text: Option<string>): Option<nat> {
    if text.None? then None
    else
      var t := text.value;
      if |t| < 3 || |t| > 4 || t[..2] != "0x" || exists i :: 2 <= i < |t| && !IsHexDigit(t[i]) then None
      else if HexNumber(t[2..]) >= 128 then None
      else Some(HexNumber(t[2..]))
  }

  function Bit(mask: nat, i: nat): bool {
    mask / Pow2(i) % 2 == 1
  }

  // A valid joint is present and in no identity conflict.
  predicate Consistent(present: nat, valid: nat, conflict: nat) {
    forall i :: 0 <= i < 8 && Bit(valid, i) ==> Bit(present, i) && !Bit(conflict, i)
  }

  // The token behind its sign, if it has one.
  function Unsigned(token: string): string {
    if token != "" && (token[0] == '-' || token[0] == '+') then token[1..] else token
  }

  // Digits with at most one point among them.
  predicate IsPointedDigits(digits: string) {
    && (exists i :: 0 <= i < |digits| && IsDigit(digits[i]))
    && (forall i :: 0 <= i < |digits| ==> IsDigit(digits[i]) || digits[i] == '.')
    && (forall i, j :: 0 <= i < j < |digits| ==> digits[i] != '.' || digits[j] != '.')
  }

  predicate IsDecimalText(token: string) {
    IsPointedDigits(Unsigned(token))
  }

  function ReadDecimal(read: Reader, token: string): Option<real> {
    if IsDecimalText(token) then read(token) else None
  }

  function ReadAll(read: Reader, tokens: seq<string>): Option<seq<real>> {
    if tokens == [] then Some([])
    else
      var first, rest := ReadDecimal(read, tokens[0]), ReadAll(read, tokens[1..]);
      if first.None? || rest.None? then None else Some([first.value] + rest.value)
  }

  function Prepend<T>(front: seq<T>, rest: Option<seq<T>>): (all: Option<seq<T>>)
    ensures front == [] ==> all == rest
    ensures rest == Some([]) ==> all == Some(front)
  {
    if rest.None? then None
    else
      assert front == [] ==> front + rest.value == rest.value;
      assert rest.value == [] ==> front + rest.value == front;
      Some(front + rest.value)
  }

  function SevenDecimals(read: Reader, text: Option<string>): (values: Option<seq<real>>)
    ensures values.Some? ==> |values.value| == JOINT_COUNT
  {
    if text.None? then None
    else
      var tokens := Split(text.value, ',');
      ReadAllLength(read, tokens);
      if |tokens| != JOINT_COUNT then None else ReadAll(read, tokens)
  }

  lemma ReadAllLength(read: Reader, tokens: seq<string>)
    ensures ReadAll(read, tokens).Some? ==> |ReadAll(read, tokens).value| == |tokens|
  {
  }

  function SevenAges(read: Reader, text: Option<string>): (values: Option<seq<real>>)
    ensures values.Some? ==>
      |values.value| == JOINT_COUNT && forall i :: 0 <= i < JOINT_COUNT ==> 0.0 <= values.value[i] <= 65535.0
  {
    var values := SevenDecimals(read, text);
    if values.Some? && forall i :: 0 <= i < JOINT_COUNT ==> 0.0 <= values.value[i] <= 65535.0 then values else None
  }

  predicate IsMotorId(id: int) {
    1 <= id <= JOINT_COUNT
  }

  function ParseIds(tokens: seq<string>, previous: int): Option<seq<int>>
    decreases |tokens|
  {
    if tokens == [] then Some([])
    else if tokens[0] == "" || !AllDigits(tokens[0]) then None
    else
      var id := ToNat(tokens[0]);
      if id > 255 || IsMotorId(id) || id <= previous then None
      else
        var rest := ParseIds(tokens[1..], id);
        if rest.None? then None else Some([id] + rest.value)
  }

  function ParseUnexpectedIds(text: Option<string>): Option<seq<int>> {
    if text.None? then None
    else if text.value == "none" then Some([])
    else
      var tokens := Split(text.value, ',');
      if |tokens| > 32 then None else ParseIds(tokens, -1)
  }

  lemma {:induction false} ParsedIdsAscend(tokens: seq<string>, previous: int)
    requires ParseIds(tokens, previous).Some?
    ensures var ids := ParseIds(tokens, previous).value;
      && |ids| == |tokens|
      && (forall i :: 0 <= i < |ids| ==> previous < ids[i] && 0 <= ids[i] <= 255 && !IsMotorId(ids[i]))
      && (forall i, j :: 0 <= i < j < |ids| ==> ids[i] < ids[j])
    decreases |tokens|
  {
    if tokens != [] {
      ParsedIdsAscend(tokens[1..], ToNat(tokens[0]));
    }
  }

  // ---------------------------------------------------------------- the samples

  datatype Masks = Masks(present: nat, valid: nat, conflict: nat)

  predicate Emits(m: Masks, i: nat) {
    Bit(m.present, i) || Bit(m.conflict, i)
  }

  function SampleAt(m: Masks, positions: seq<real>, ages: Option<seq<real>>, i: nat): Sample
    requires i < |positions| && (ages.Some? ==> i < |ages.value|)
  {
    var conflict := Bit(m.conflict, i);
    var valid := Bit(m.valid, i) && !conflict;
    Sample(i + 1, positions[i], if ages.Some? then ages.value[i] else if valid then 0.0 else 65535.0, valid, conflict)
  }

  // The sample of joint n, if its bits emit one.
  function EmittedAt(m: Masks, positions: seq<real>, ages: Option<seq<real>>, n: nat): (samples: seq<Sample>)
    requires n < |positions| && (ages.Some? ==> n < |ages.value|)
    ensures |samples| <= 1 && (samples != [] ==> samples[0].motorId == n + 1)
  {
    if Emits(m, n) then [SampleAt(m, positions, ages, n)] else []
  }

  // The samples of the joints before joint n, in joint order.
  function SamplesBefore(m: Masks, positions: seq<real>, ages: Option<seq<real>>, n: nat): seq<Sample>
    requires n <= |positions| && (ages.Some? ==> n <= |ages.value|)
  {
    if n == 0 then []
    else
      SamplesBefore(m, positions, ages, n - 1) + EmittedAt(m, positions, ages, n - 1)
  }

  method CollectSamples(m: Masks, positions: seq<real>, ages: Option<seq<real>>) returns (motors: seq<Sample>)
    requires |positions| == JOINT_COUNT && (ages.Some? ==> |ages.value| == JOINT_COUNT)
    ensures motors == SamplesBefore(m, positions, ages, JOINT_COUNT)
  {
    motors := [];
    var bit := 1;
    var joints := |positions|;
    for index := 0 to joints
      invariant motors == SamplesBefore(m, positions, ages, index) && bit == Pow2(index)
    {
      if m.present / bit % 2 == 0 && m.conflict / bit % 2 == 0 {
        bit := 2 * bit;
        continue;
      }
      var conflict := m.conflict / bit % 2 != 0;
      var valid := m.valid / bit % 2 != 0 && !conflict;
      var feedbackAgeMs := if ages.Some? then ages.value[index] else if valid then 0.0 else 65535.0;
      motors := motors + [Sample(index + 1, positions[index], feedbackAgeMs, valid, conflict)];
      bit := 2 * bit;
    }
  }

  // ---------------------------------------------------------------- the projection

  function ReadMasks(fields: seq<Field>): Option<Masks> {
    var p := ParseMask(Lookup(fields, "present_mask"));
    var v := ParseMask(Lookup(fields, "valid_mask"));
    var c := ParseMask(Lookup(fields, "conflict_mask"));
    if p.None? || v.None? || c.None? then None else Some(Masks(p.value, v.value, c.value))
  }

  function ReadAges(read: Reader, fields: seq<Field>): Option<seq<real>> {
    SevenAges(read, Lookup(fields, "age_ms"))
  }

  predicate IsTime(text: Option<string>) {
    text.Some? && 0 < |text.value| <= 20 && AllDigits(text.value) && ToNat(text.value) < 0x1_0000_0000_0000_0000
  }

  function ProjectionFault(read: Reader, source: Frame, origin: Origin): Option<ProjectionError> {
    var fields := source.fields;
    if origin.jointGroupId != "left-arm" && origin.jointGroupId != "right-arm" then Some(JointGroupInvalid)
    else if !(if source.kind == Tel then source.subject == "JOINT_STATE"
              else source.kind == Rsp && origin.sourceOperation == "GET_JPOS") then Some(FrameKindNotJointSnapshot)
    else if !IsTime(Lookup(fields, "t_us")) then Some(TimeInvalid)
    else if SevenDecimals(read, Lookup(fields, "q_deg")).None? then Some(PositionsInvalid)
    else if ReadMasks(fields).None? then Some(MaskInvalid)
    else if !Consistent(ReadMasks(fields).value.present, ReadMasks(fields).value.valid, ReadMasks(fields).value.conflict) then
      Some(MaskInconsistent)
    else if ParseUnexpectedIds(Lookup(fields, "unexpected_ids")).None? then Some(UnexpectedIdsInvalid)
    else if Lookup(fields, "age_ms").Some? && ReadAges(read, fields).None? then Some(AgesInvalid)
    else None
  }

  function Project(read: Reader, source: Frame, origin: Origin): Projection {
    var fault := ProjectionFault(read, source, origin);
    if fault.Some? then NotProjected(fault.value)
    else
      var positions := SevenDecimals(read, Lookup(source.fields, "q_deg")).value;
      Projected(MotorFrame(
        origin.jointGroupId, origin.controllerId, origin.armId, origin.bootId, origin.gatewaySequence, origin.receivedAtMs,
        true, SamplesBefore(ReadMasks(source.fields).value, positions, ReadAges(read, source.fields), JOINT_COUNT),
        ParseUnexpectedIds(Lookup(source.fields, "unexpected_ids")).value))
  }

  lemma ReadOneMore(read: Reader, tokens: seq<string>, index: nat, front: seq<real>)
    requires index < |tokens|
    ensures Prepend(front, ReadAll(read, tokens[index..]))
         == (var value := ReadDecimal(read, tokens[index]);
             if value.None? then None else Prepend(front + [value.value], ReadAll(read, tokens[index + 1..])))
  {
    var rest := ReadAll(read, tokens[index + 1..]);
    assert tokens[index..][1..] == tokens[index + 1..];
    if ReadDecimal(read, tokens[index]).Some? && rest.Some? {
      var value := ReadDecimal(read, tokens[index]).value;
      assert front + ([value] + rest.value) == front + [value] + rest.value;
    }
  }

  lemma ParseOneMore(tokens: seq<string>, k: nat, previous: int, front: seq<int>)
    requires k < |tokens| && tokens[k] != "" && AllDigits(tokens[k])
    ensures var id := ToNat(tokens[k]);
      Prepend(front, ParseIds(tokens[k..], previous))
      == if id > 255 || IsMotorId(id) || id <= previous then None
         else Prepend(front + [id], ParseIds(tokens[k + 1..], id))
  {
    var id := ToNat(tokens[k]);
    var rest := ParseIds(tokens[k + 1..], id);
    assert tokens[k..][1..] == tokens[k + 1..];
    if rest.Some? {
      assert front + ([id] + rest.value) == front + [id] + rest.value;
    }
  }

  method TryParseSevenDecimals(read: Reader, text: Option<string>) returns (values: Option<seq<real>>)
    ensures values == SevenDecimals(read, text)
  {
    if text.None? {
      return None;
    }
    var tokens := Split(text.value, ',');
    if |tokens| != JOINT_COUNT {
      return None;
    }
    var parsed: seq<real> := [];
    assert tokens[0..] == tokens;
    for index := 0 to |tokens|
      invariant |parsed| == index
      invariant ReadAll(read, tokens) == Prepend(parsed, ReadAll(read, tokens[index..]))
    {
      ReadOneMore(read, tokens, index, parsed);
      var value := ReadDecimal(read, tokens[index]);
      if value.None? {
        return None;
      }
      parsed := parsed + [value.value];
    }
    values := Some(parsed);
  }

  method TryParseSevenUnsignedDecimals(read: Reader, text: Option<string>) returns (values: Option<seq<real>>)
    ensures values == SevenAges(read, text)
  {
    if text.None? {
      return None;
    }
    var tokens := Split(text.value, ',');
    if |tokens| != JOINT_COUNT {
      return None;
    }
    ReadAllLength(read, tokens);
    var parsed: seq<real> := [];
    assert tokens[0..] == tokens;
    for index := 0 to |tokens|
      invariant |parsed| == index
      invariant ReadAll(read, tokens) == Prepend(parsed, ReadAll(read, tokens[index..]))
      invariant forall i :: 0 <= i < index ==> 0.0 <= parsed[i] <= 65535.0
    {
      ReadOneMore(read, tokens, index, parsed);
      var value := ReadDecimal(read, tokens[index]);
      assert ReadAll(read, tokens).Some? ==> ReadAll(read, tokens).value[index] == value.value;
      if value.None? || value.value < 0.0 || value.value > 65535.0 {
        return None;
      }
      parsed := parsed + [value.value];
    }
    values := Some(parsed);
  }

  method TryParseUnexpectedIds(text: Option<string>) returns (ids: Option<seq<int>>)
    ensures ids == ParseUnexpectedIds(text)
  {
    if text.None? {
      return None;
    }
    if text.value == "none" {
      return Some([]);
    }
    var tokens := Split(text.value, ',');
    if |tokens| > 32 {
      return None;
    }
    var parsed: seq<int> := [];
    assert tokens[0..] == tokens;
    var previous: int := -1;
    for k := 0 to |tokens|
      invariant ParseIds(tokens, -1) == Prepend(parsed, ParseIds(tokens[k..], previous))
    {
      var token := tokens[k];
      if token == "" || !AllDigits(token) {
        return None;
      }
      ParseOneMore(tokens, k, previous, parsed);
      var value := ToNat(token);
      if value > 255 || IsMotorId(value) || value <= previous {
        return None;
      }
      parsed := parsed + [value];
      previous := value;
    }
    ids := Some(parsed);
  }

  // The checks of the fields in their order, each refusing by its own code.
  method ProjectJointSnapshot(read: Reader, source: Frame, origin: Origin) returns (result: Projection)
    ensures result == Project(read, source, origin)
  {
    if origin.jointGroupId != "left-arm" && origin.jointGroupId != "right-arm" {
      return NotProjected(JointGroupInvalid);
    }
    var supported := if source.kind == Tel then source.subject == "JOINT_STATE"
                     else source.kind == Rsp && origin.sourceOperation == "GET_JPOS";
    if !supported {
      return NotProjected(FrameKindNotJointSnapshot);
    }
    if !IsTime(Lookup(source.fields, "t_us")) {
      return NotProjected(TimeInvalid);
    }
    var positions := TryParseSevenDecimals(read, Lookup(source.fields, "q_deg"));
    if positions.None? {
      return NotProjected(PositionsInvalid);
    }
    var present := ParseMask(Lookup(source.fields, "present_mask"));
    var valid := ParseMask(Lookup(source.fields, "valid_mask"));
    var conflict := ParseMask(Lookup(source.fields, "conflict_mask"));
    if present.None? || valid.None? || conflict.None? {
      return NotProjected(MaskInvalid);
    }
    if !Consistent(present.value, valid.value, conflict.value) {
      return NotProjected(MaskInconsistent);
    }
    var unexpectedMotorIds := TryParseUnexpectedIds(Lookup(source.fields, "unexpected_ids"));
    if unexpectedMotorIds.None? {
      return NotProjected(UnexpectedIdsInvalid);
    }
    var ages: Option<seq<real>> := None;
    if Lookup(source.fields, "age_ms").Some? {
      ages := TryParseSevenUnsignedDecimals(read, Lookup(source.fields, "age_ms"));
      if ages.None? {
        return NotProjected(AgesInvalid);
      }
    }
    var motors := CollectSamples(Masks(present.value, valid.value, conflict.value), positions.value, ages);
    result := Projected(MotorFrame(
      origin.jointGroupId, origin.controllerId, origin.armId, origin.bootId, origin.gatewaySequence, origin.receivedAtMs,
      true, motors, unexpectedMotorIds.value));
  }

  // ---------------------------------------------------------------- what a projected frame holds

  lemma {:induction false} SamplesAreTheEmitted(m: Masks, positions: seq<real>, ages: Option<seq<real>>, n: nat)
    requires n <= |positions| && (ages.Some? ==> n <= |ages.value|)
    ensures |SamplesBefore(m, positions, ages, n)| <= n
    ensures forall s :: s in SamplesBefore(m, positions, ages, n) <==>
      exists i :: 0 <= i < n && Emits(m, i) && s == SampleAt(m, positions, ages, i)
  {
    if n > 0 {
      SamplesAreTheEmitted(m, positions, ages, n - 1);
    }
  }

  // ---------------------------------------------------------------- acceptance by the twin

  predicate IsIdentityToken(s: string) {
    1 <= |s| <= 64
    && forall i :: 0 <= i < |s| ==> IsLower(s[i]) || IsUpper(s[i]) || IsDigit(s[i]) || s[i] == '.' || s[i] == '_' || s[i] == '-'
  }

  // The shape check of the twin coordinator.
  predicate IsSupported(f: MotorFrame) {
    && (f.jointGroupId == "left-arm" || f.jointGroupId == "right-arm")
    && IsIdentityToken(f.controllerId) && IsIdentityToken(f.armId) && IsIdentityToken(f.bootId)
    && f.frameSeq <= 0xFFFF_FFFF
    && |f.motors| <= 32
    && (forall i :: 0 <= i < |f.motors| ==>
          0 <= f.motors[i].motorId <= 255 && 0.0 <= f.motors[i].feedbackAgeMs <= 65535.0)
    && |f.unexpectedMotorIds| <= 32
    && (forall i, j :: 0 <= i < j < |f.unexpectedMotorIds| ==> f.unexpectedMotorIds[i] != f.unexpectedMotorIds[j])
    && (forall i :: 0 <= i < |f.unexpectedMotorIds| ==>
          0 <= f.unexpectedMotorIds[i] <= 255 && !IsMotorId(f.unexpectedMotorIds[i]))
  }

  // What an accepted HELLO guarantees of an identity: two tokens, and a boot ID that is a run of
  // digits of a 32-bit number, of any length because of leading zeros.
  predicate IsHelloIdentity(origin: Origin) {
    && IsIdentityToken(origin.controllerId) && IsIdentityToken(origin.armId)
    && origin.bootId != "" && AllDigits(origin.bootId) && ToNat(origin.bootId) <= UINT32_MAX
  }

  lemma ProjectedIdsAreFine(read: Reader, source: Frame, origin: Origin)
    requires Project(read, source, origin).Projected?
    ensures var ids := Project(read, source, origin).frame.unexpectedMotorIds;
      && |ids| <= 32
      && (forall i :: 0 <= i < |ids| ==> 0 <= ids[i] <= 255 && !IsMotorId(ids[i]))
      && (forall i, j :: 0 <= i < j < |ids| ==> ids[i] < ids[j])
  {
    var text := Lookup(source.fields, "unexpected_ids");
    if text.value != "none" {
      ParsedIdsAscend(Split(text.value, ','), -1);
    }
  }

  // Every frame projected under an accepted identity passes the twin's shape check, except for a
  // boot ID of more than 64 digits.
  lemma ProjectedFrameIsSupportedExactlyWhen(read: Reader, source: Frame, origin: Origin)
    requires Project(read, source, origin).Projected? && IsHelloIdentity(origin) && origin.gatewaySequence <= 0xFFFF_FFFF
    ensures IsSupported(Project(read, source, origin).frame) <==> |origin.bootId| <= 64
  {
    var f := Project(read, source, origin).frame;
    ProjectedIdsAreFine(read, source, origin);
    var positions := SevenDecimals(read, Lookup(source.fields, "q_deg")).value;
    var m, ages := ReadMasks(source.fields).value, ReadAges(read, source.fields);
    SamplesAreTheEmitted(m, positions, ages, JOINT_COUNT);
    forall i | 0 <= i < |f.motors|
      ensures 0 <= f.motors[i].motorId <= 255 && 0.0 <= f.motors[i].feedbackAgeMs <= 65535.0
    {
      assert f.motors[i] in f.motors;
    }
  }

  // The text of n zeros, separated by commas.
  function Zeros(n: nat): string {
    if n <= 1 then "0" else "0," + Zeros(n - 1)
  }

  lemma {:induction false} ZerosSplit(n: nat)
    requires n > 0
    ensures Split(Zeros(n), ',') == seq(n, _ => "0")
  {
    if n > 1 {
      var s := Zeros(n);
      ZerosSplit(n - 1);
      assert s[0] == '0' && s[1..][0] == ',' && s[..1] == "0" && s[2..] == Zeros(n - 1);
      assert IndexOf(s[1..], ',') == 0;
      assert ["0"] + seq(n - 1, _ => "0") == seq(n, _ => "0");
    } else {
      assert Zeros(n) == "0" && ',' !in "0";
    }
  }

  lemma {:induction false} ZerosRead(read: Reader, n: nat)
    requires ReadDecimal(read, "0") == Some(0.0)
    ensures ReadAll(read, seq(n, _ => "0")).Some?
  {
    if n > 0 {
      ZerosRead(read, n - 1);
      assert seq(n, _ => "0")[1..] == seq(n - 1, _ => "0");
    }
  }

  lemma ZeroPositions(read: Reader)
    requires read("0") == Some(0.0)
    ensures SevenDecimals(read, Some(Zeros(JOINT_COUNT))).Some?
  {
    assert IsDecimalText("0") by { assert IsDigit("0"[0]); }
    ZerosSplit(JOINT_COUNT);
    ZerosRead(read, JOINT_COUNT);
  }

  lemma EmptyMask()
    ensures ParseMask(Some("0x00")) == Some(0)
  {
    assert "0x00"[2..] == "00" && "00"[..1] == "0" && "0"[..0] == "" && "0x00"[..2] == "0x";
    assert HexNumber("0") == 16 * HexNumber("") + HexValue('0');
  }

  lemma ZeroTime()
    ensures IsTime(Some("0"))
  {
    assert "0"[..0] == "";
  }

  // A snapshot of an arm on which nothing is discovered.
  function EmptyFields(): seq<Field> {
    [("t_us", "0"), ("q_deg", Zeros(JOINT_COUNT)), ("present_mask", "0x00"), ("valid_mask", "0x00"),
     ("conflict_mask", "0x00"), ("unexpected_ids", "none")]
  }

  lemma {:induction false} FieldAt(fields: seq<Field>, i: nat)
    requires i < |fields| && forall k :: 0 <= k < i ==> fields[k].0 != fields[i].0
    ensures Lookup(fields, fields[i].0) == Some(fields[i].1)
  {
    if i > 0 {
      FieldAt(fields[1..], i - 1);
    }
  }

  lemma {:induction false} FieldAbsent(fields: seq<Field>, key: string)
    requires forall k :: 0 <= k < |fields| ==> fields[k].0 != key
    ensures Lookup(fields, key).None?
  {
    if fields != [] {
      FieldAbsent(fields[1..], key);
    }
  }

  lemma EmptyFieldsLookup(fields: seq<Field>)
    requires fields == EmptyFields()
    ensures Lookup(fields, "t_us") == Some("0") && Lookup(fields, "q_deg") == Some(Zeros(JOINT_COUNT))
    ensures Lookup(fields, "present_mask") == Lookup(fields, "valid_mask") == Lookup(fields, "conflict_mask") == Some("0x00")
    ensures Lookup(fields, "unexpected_ids") == Some("none") && Lookup(fields, "age_ms").None?
  {
    FieldAt(fields, 0);
    FieldAt(fields, 1);
    FieldAt(fields, 2);
    FieldAt(fields, 3);
    FieldAt(fields, 4);
    FieldAt(fields, 5);
    FieldAbsent(fields, "age_ms");
  }

  lemma EmptySnapshotProjects(read: Reader, source: Frame, origin: Origin)
    requires read("0") == Some(0.0)
    requires source.kind == Tel && source.subject == "JOINT_STATE" && source.fields == EmptyFields()
    requires origin.jointGroupId == "left-arm"
    ensures Project(read, source, origin).Projected?
  {
    EmptyFieldsLookup(source.fields);
    ZeroTime();
    ZeroPositions(read);
    EmptyMask();
  }

  lemma LongIdentity(origin: Origin)
    requires IsIdentityToken(origin.controllerId) && IsIdentityToken(origin.armId) && origin.bootId == seq(65, _ => '0')
    ensures IsHelloIdentity(origin)
  {
    LeadingZeros(65, "");
    assert seq(65, _ => '0') + "" == origin.bootId;
  }

  // A boot ID of 65 zeros: a HELLO is accepted with it, a snapshot of an empty arm is projected,
  // and the twin rejects the frame.
  lemma LongBootIdIsRejected(read: Reader, source: Frame) returns (origin: Origin)
    requires read("0") == Some(0.0)
    requires source.kind == Tel && source.subject == "JOINT_STATE" && source.fields == EmptyFields()
    ensures origin.bootId == seq(65, _ => '0') && IsHelloIdentity(origin)
    ensures Project(read, source, origin).Projected? && !IsSupported(Project(read, source, origin).frame)
  {
    origin := Origin("GET_JPOS", "left-arm", "c", "a", seq(65, _ => '0'), 0, 0);
    LongIdentity(origin);
    EmptySnapshotProjects(read, source, origin);
    ProjectedFrameIsSupportedExactlyWhen(read, source, origin);
  }
}
