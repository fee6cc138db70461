/**
Frames of the Aethor ASCII protocol: the request formatter and the parser, in the
TypeScript and the C# dialect. A text is a sequence of UTF-16 code units.
*/
module AsciiFrame {
  import opened Wrappers
  import opened DecimalText
  import opened Crc16
  import opened LineDecoder

  const UINT32_MAX: nat := 4294967295

  datatype Kind = Req | Ack | Rsp | Err | Done | Evt | Tel

  datatype Code = Empty | TooLong | Multiline | NonAsciiText | BadFrame | BadCrc | UnknownOperation | SequenceOutOfRange

  type Field = (string, string)

  datatype Frame = Frame(
    kind: Kind, sequence: nat, subject: string, fields: seq<Field>, body: string, raw: string, crc16: Word)

  datatype Parsed = Valid(frame: Frame) | Invalid(code: Code)

  datatype FormatError = RequestIdOutOfRange | UnsupportedOperation | InvalidField | DuplicateField | FrameTooLong

  datatype Formatted = Formatted(line: string) | Refused(error: FormatError)

  // The two implementations; they name a malformed sequence token differently.
  datatype Dialect = TypeScript | CSharp

  const REQUEST_OPERATIONS: set<string> :=
    {"HELLO", "GET_INFO", "GET_CONFIG", "GET_STATE", "GET_JPOS", "GET_MOTORS", "GET_DIAG", "HEARTBEAT",
     "SET_STREAM", "ALIGN_REFERENCE", "ENABLE", "STOP", "DISABLE", "CLEAR_FAULT", "MOVE_JOINTS"}

  // ---------------------------------------------------------------- characters and tokens

  predicate Printable(s: string) {
    forall i :: 0 <= i < |s| ==> ' ' <= s[i] <= '~'
  }

  predicate IsLower(c: char) {
    'a' <= c <= 'z'
  }

  predicate IsUpper(c: char) {
    'A' <= c <= 'Z'
  }

  predicate IsFieldKey(s: string) {
    s != "" && IsLower(s[0]) && forall i :: 0 <= i < |s| ==> IsLower(s[i]) || IsDigit(s[i]) || s[i] == '_'
  }

  predicate IsUpperToken(s: string) {
    s != "" && IsUpper(s[0]) && forall i :: 0 <= i < |s| ==> IsUpper(s[i]) || IsDigit(s[i]) || s[i] == '_'
  }

  // Without the separators of the grammar.
  predicate IsPlain(s: string) {
    ' ' !in s && '*' !in s && '=' !in s
  }

  predicate IsFieldValue(s: string) {
    s != "" && Printable(s) && IsPlain(s)
  }

  function IndexOf(s: string, c: char): (i: int)
    ensures i == -1 <==> c !in s
    ensures i != -1 ==> 0 <= i < |s| && s[i] == c && c !in s[..i]
  {
    if s == "" then -1
    else if s[0] == c then 0
    else
      var i := IndexOf(s[1..], c);
      if i == -1 then -1
      else
        assert s[..i + 1] == [s[0]] + s[1..][..i];
        i + 1
  }

  function Split(s: string, separator: char): (tokens: seq<string>)
    ensures tokens != []
    decreases |s|
  {
    var i := IndexOf(s, separator);
    if i == -1 then [s] else [s[..i]] + Split(s[i + 1..], separator)
  }

  function Join(tokens: seq<string>): string
    requires tokens != []
  {
    if |tokens| == 1 then tokens[0] else tokens[0] + " " + Join(tokens[1..])
  }

  ghost predicate SpaceFree(tokens: seq<string>) {
    forall i :: 0 <= i < |tokens| ==> ' ' !in tokens[i]
  }

  // ---------------------------------------------------------------- the CRC text

  function HexDigit(bits: seq<bool>): char
    requires |bits| == 4
  {
    var d := NumberOf(bits);
    NumberHasTheBits(bits);
    assert Pow2(4) == 16;
    if d < 10 then ('0' as int + d) as char else ('A' as int + d - 10) as char
  }

  predicate IsHexDigit(c: char) {
    IsDigit(c) || 'A' <= c <= 'F'
  }

  function HexValue(c: char): nat
    requires IsHexDigit(c)
  {
    if IsDigit(c) then c as int - '0' as int else c as int - 'A' as int + 10
  }

  function HexBits(c: char): (bits: seq<bool>)
    requires IsHexDigit(c)
    ensures |bits| == 4
  {
    BitsOfNumber(HexValue(c), 4)
  }

  function CrcText(crc: Word): string {
    [HexDigit(crc[..4]), HexDigit(crc[4..8]), HexDigit(crc[8..12]), HexDigit(crc[12..])]
  }

  predicate IsCrcText(s: string) {
    |s| == 4 && IsHexDigit(s[0]) && IsHexDigit(s[1]) && IsHexDigit(s[2]) && IsHexDigit(s[3])
  }

  function CrcOfText(s: string): Word
    requires IsCrcText(s)
  {
    HexBits(s[0]) + HexBits(s[1]) + HexBits(s[2]) + HexBits(s[3])
  }

  function BodyCrc(body: string): Word
    requires Printable(body)
  {
    Crc(Bytes(body))
  }

  // A body in its envelope.
  function Sealed(body: string): string
    requires Printable(body)
  {
    body + " *" + CrcText(BodyCrc(body))
  }

  // ---------------------------------------------------------------- formatting

  function FieldText(f: Field): string {
    f.0 + "=" + f.1
  }

  function FieldTexts(fields: seq<Field>): seq<string> {
    seq(|fields|, i requires 0 <= i < |fields| => FieldText(fields[i]))
  }

  predicate HasKey(fields: seq<Field>, key: string) {
    exists i :: 0 <= i < |fields| && fields[i].0 == key
  }

  // The first fault of a list of fields, in the order the formatter meets them.
  function FieldFault(fields: seq<Field>, n: nat): Option<FormatError>
    requires n <= |fields|
    decreases |fields| - n
  {
    if n == |fields| then None
    else if !IsFieldKey(fields[n].0) || !IsFieldValue(fields[n].1) then Some(InvalidField)
    else if HasKey(fields[..n], fields[n].0) then Some(DuplicateField)
    else FieldFault(fields, n + 1)
  }

  function RequestBody(id: nat, operation: string, fields: seq<Field>): string {
    Join(["REQ", OfNat(id), operation] + FieldTexts(fields))
  }

  function Format(id: int, operation: string, fields: seq<Field>): Formatted {
    if id < 1 || id > UINT32_MAX then Refused(RequestIdOutOfRange)
    else if operation !in REQUEST_OPERATIONS then Refused(UnsupportedOperation)
    else
      var fault := FieldFault(fields, 0);
      if fault.Some? then Refused(fault.value)
      else
        var body := RequestBody(id, operation, fields);
        BodyIsPrintable(id, operation, fields);
        if |Sealed(body)| > MAXIMUM_LINE_BYTES then Refused(FrameTooLong) else Formatted(Sealed(body))
  }

  lemma {:induction false} NoFaultMeansGood(fields: seq<Field>, n: nat)
    requires n <= |fields|
    ensures FieldFault(fields, n).None? <==>
      forall i :: n <= i < |fields| ==>
        IsFieldKey(fields[i].0) && IsFieldValue(fields[i].1) && !HasKey(fields[..i], fields[i].0)
    decreases |fields| - n
  {
    if n < |fields| {
      NoFaultMeansGood(fields, n + 1);
    }
  }

  lemma {:induction false} JoinIsPrintable(tokens: seq<string>)
    requires tokens != [] && forall i :: 0 <= i < |tokens| ==> Printable(tokens[i])
    ensures Printable(Join(tokens))
  {
    if |tokens| > 1 {
      JoinIsPrintable(tokens[1..]);
    }
  }

  lemma BodyIsPrintable(id: nat, operation: string, fields: seq<Field>)
    requires operation in REQUEST_OPERATIONS && FieldFault(fields, 0).None?
    ensures Printable(RequestBody(id, operation, fields))
  {
    NoFaultMeansGood(fields, 0);
    OperationsAreUpperTokens(operation);
    JoinIsPrintable(["REQ", OfNat(id), operation] + FieldTexts(fields));
  }

  lemma UpperTokensArePlain(s: string)
    requires IsUpperToken(s)
    ensures Printable(s) && IsPlain(s)
  {
  }

  lemma OperationsAreUpperTokens(operation: string)
    requires operation in REQUEST_OPERATIONS
    ensures IsUpperToken(operation) && Printable(operation) && IsPlain(operation)
  {
    UpperTokenNames();
    MoreUpperTokenNames();
    UpperTokensArePlain(operation);
  }

  lemma UpperTokenNames()
    ensures IsUpperToken("HELLO") && IsUpperToken("GET_INFO") && IsUpperToken("GET_CONFIG")
    ensures IsUpperToken("GET_STATE") && IsUpperToken("GET_JPOS") && IsUpperToken("GET_MOTORS")
  {
  }

  lemma MoreUpperTokenNames()
    ensures IsUpperToken("GET_DIAG") && IsUpperToken("HEARTBEAT") && IsUpperToken("SET_STREAM")
    ensures IsUpperToken("ALIGN_REFERENCE") && IsUpperToken("ENABLE") && IsUpperToken("STOP")
    ensures IsUpperToken("DISABLE") && IsUpperToken("CLEAR_FAULT") && IsUpperToken("MOVE_JOINTS")
  {
  }

  // ---------------------------------------------------------------- parsing

  function ParseKind(token: string): Option<Kind> {
    if token == "REQ" then Some(Req)
    else if token == "ACK" then Some(Ack)
    else if token == "RSP" then Some(Rsp)
    else if token == "ERR" then Some(Err)
    else if token == "DONE" then Some(Done)
    else if token == "EVT" then Some(Evt)
    else if token == "TEL" then Some(Tel)
    else None
  }

  predicate IsValidSubject(kind: Kind, subject: string) {
    match kind
    case Ack => subject == "accepted"
    case Rsp => subject == "ok"
    case _ => IsUpperToken(subject)
  }

  predicate RequiresNonZeroSequence(kind: Kind) {
    kind == Req || kind == Ack || kind == Rsp || kind == Done
  }

  predicate IsSequenceToken(token: string) {
    1 <= |token| <= 10 && AllDigits(token)
  }

  function SequenceFault(d: Dialect, kind: Kind, token: string): Option<Code> {
    if !IsSequenceToken(token) then Some(if d == TypeScript then BadFrame else SequenceOutOfRange)
    else if ToNat(token) > UINT32_MAX || (RequiresNonZeroSequence(kind) && ToNat(token) == 0) then Some(SequenceOutOfRange)
    else None
  }

  function ParseField(token: string): Option<Field> {
    var separator := IndexOf(token, '=');
    if separator <= 0 || separator == |token| - 1 || '=' in token[separator + 1..] then None
    else
      var key, value := token[..separator], token[separator + 1..];
      if !IsFieldKey(key) || !IsPlain(value) then None else Some((key, value))
  }

  function ParseFields(tokens: seq<string>, fields: seq<Field>): Option<seq<Field>>
    decreases |tokens|
  {
    if tokens == [] then Some(fields)
    else
      var f := ParseField(tokens[0]);
      if f.None? || HasKey(fields, f.value.0) then None
      else ParseFields(tokens[1..], fields + [f.value])
  }

  function ParseTokens(d: Dialect, tokens: seq<string>, body: string, raw: string, crc: Word): Parsed {
    if |tokens| < 3 || "" in tokens then Invalid(BadFrame)
    else
      var kind := ParseKind(tokens[0]);
      if kind.None? then Invalid(BadFrame)
      else
        var fault := SequenceFault(d, kind.value, tokens[1]);
        if fault.Some? then Invalid(fault.value)
        else if !IsValidSubject(kind.value, tokens[2]) then Invalid(BadFrame)
        else if kind.value == Req && tokens[2] !in REQUEST_OPERATIONS then Invalid(UnknownOperation)
        else
          var fields := ParseFields(tokens[3..], []);
          if fields.None? then Invalid(BadFrame)
          else Valid(Frame(kind.value, ToNat(tokens[1]), tokens[2], fields.value, body, raw, crc))
  }

  // The envelope: the body, a blank, an asterisk and four hexadecimal digits.
  function FramingFault(input: string): Option<Code> {
    if input == "" then Some(Empty)
    else if '\r' in input || '\n' in input then Some(Multiline)
    else if |input| > MAXIMUM_LINE_BYTES then Some(TooLong)
    else if !Printable(input) then Some(NonAsciiText)
    else
      var marker := |input| - 6;
      if marker <= 0 || input[marker] != ' ' || input[marker + 1] != '*' then Some(BadFrame)
      else if !IsCrcText(input[marker + 2..]) then Some(BadFrame)
      else if '*' in input[..marker] then Some(BadFrame)
      else None
  }

  function EnvelopeFault(input: string): Option<Code> {
    if FramingFault(input).Some? then FramingFault(input)
    else if BodyCrc(input[..|input| - 6]) != CrcOfText(input[|input| - 4..]) then Some(BadCrc)
    else None
  }

  function Parse(d: Dialect, input: string): Parsed {
    if EnvelopeFault(input).Some? then Invalid(EnvelopeFault(input).value)
    else
      var body := input[..|input| - 6];
      ParseTokens(d, Split(body, ' '), body, input, CrcOfText(input[|input| - 4..]))
  }
}
