/**
The grammar of the Aethor ASCII lines, spelled out, and that the parsers accept exactly it: all
seven kinds of frame, their subjects, sequences and fields, and the code of every refusal.
*/
module AsciiParsing {
  import opened Wrappers
  import opened DecimalText
  import opened Crc16
  import opened LineDecoder
  import opened AsciiFrame
  import opened AsciiCodec

  // ---------------------------------------------------------------- the grammar

  function KindName(kind: Kind): string {
    match kind
    case Req => "REQ"
    case Ack => "ACK"
    case Rsp => "RSP"
    case Err => "ERR"
    case Done => "DONE"
    case Evt => "EVT"
    case Tel => "TEL"
  }

  predicate IsUpperName(s: string) {
    s != "" && 'A' <= s[0] <= 'Z'
    && forall i :: 0 <= i < |s| ==> 'A' <= s[i] <= 'Z' || '0' <= s[i] <= '9' || s[i] == '_'
  }

  predicate IsRequestName(s: string) {
    || s == "HELLO" || s == "GET_INFO" || s == "GET_CONFIG" || s == "GET_STATE" || s == "GET_JPOS"
    || s == "GET_MOTORS" || s == "GET_DIAG" || s == "HEARTBEAT" || s == "SET_STREAM" || s == "ALIGN_REFERENCE"
    || s == "ENABLE" || s == "STOP" || s == "DISABLE" || s == "CLEAR_FAULT" || s == "MOVE_JOINTS"
  }

  predicate IsLegalSubject(kind: Kind, subject: string) {
    if kind == Req then IsRequestName(subject)
    else if kind == Ack then subject == "accepted"
    else if kind == Rsp then subject == "ok"
    else IsUpperName(subject)
  }

  predicate IsDigits(token: string) {
    1 <= |token| <= 10 && forall i :: 0 <= i < |token| ==> '0' <= token[i] <= '9'
  }

  // Errors, events and telemetry may carry the sequence 0.
  predicate IsLegalSequence(kind: Kind, token: string) {
    IsDigits(token) && ToNat(token) <= 4294967295 && (ToNat(token) == 0 ==> kind == Err || kind == Evt || kind == Tel)
  }

  predicate IsLegalField(f: Field) {
    && f.0 != "" && 'a' <= f.0[0] <= 'z'
    && (forall i :: 0 <= i < |f.0| ==> 'a' <= f.0[i] <= 'z' || '0' <= f.0[i] <= '9' || f.0[i] == '_')
    && f.1 != "" && forall i :: 0 <= i < |f.1| ==> f.1[i] != ' ' && f.1[i] != '*' && f.1[i] != '='
  }

  ghost predicate AreLegalFields(fields: seq<Field>) {
    && (forall i :: 0 <= i < |fields| ==> IsLegalField(fields[i]))
    && (forall i, j :: 0 <= i < j < |fields| ==> fields[i].0 != fields[j].0)
  }

  ghost predicate IsLegal(kind: Kind, token: string, subject: string, fields: seq<Field>) {
    IsLegalSequence(kind, token) && IsLegalSubject(kind, subject) && AreLegalFields(fields)
  }

  function FieldsText(fields: seq<Field>): string {
    if fields == [] then "" else " " + fields[0].0 + "=" + fields[0].1 + FieldsText(fields[1..])
  }

  function BodyText(kind: Kind, token: string, subject: string, fields: seq<Field>): string {
    KindName(kind) + " " + token + " " + subject + FieldsText(fields)
  }

  // ---------------------------------------------------------------- grammar and tokens

  lemma {:induction false} FieldsAreJoined(t: string, fields: seq<Field>)
    ensures Join([t] + FieldTexts(fields)) == t + FieldsText(fields)
    decreases |fields|
  {
    var tokens := [t] + FieldTexts(fields);
    if fields == [] {
      assert tokens == [t];
    } else {
      var first, rest := FieldText(fields[0]), FieldsText(fields[1..]);
      FieldsAreJoined(first, fields[1..]);
      assert tokens[1..] == [first] + FieldTexts(fields[1..]);
      assert Join(tokens) == t + " " + (first + rest);
      assert FieldsText(fields) == " " + first + rest;
    }
  }

  lemma BodyIsJoined(a: string, b: string, c: string, fields: seq<Field>)
    ensures Join([a, b, c] + FieldTexts(fields)) == a + " " + b + " " + c + FieldsText(fields)
  {
    var rest := [c] + FieldTexts(fields);
    FieldsAreJoined(c, fields);
    assert ([b] + rest)[1..] == rest && ([a] + ([b] + rest))[1..] == [b] + rest;
    assert [a, b, c] + FieldTexts(fields) == [a] + ([b] + rest);
    assert a + " " + (b + " " + (c + FieldsText(fields))) == a + " " + b + " " + c + FieldsText(fields);
  }

  lemma LegalFieldsAreFields(fields: seq<Field>)
    ensures AreLegalFields(fields) <==> AreFields(fields)
  {
    if AreLegalFields(fields) {
      forall i | 0 <= i < |fields| ensures IsField(fields[i]) && !HasKey(fields[..i], fields[i].0) {
        assert IsLegalField(fields[i]);
      }
    }
    if AreFields(fields) {
      forall i | 0 <= i < |fields| ensures IsLegalField(fields[i]) {
        assert IsField(fields[i]);
      }
      forall i, j | 0 <= i < j < |fields| ensures fields[i].0 != fields[j].0 {
        assert fields[..j][i] == fields[i];
      }
    }
  }

  lemma LegalSubjects(kind: Kind, subject: string)
    ensures IsLegalSubject(kind, subject)
       <==> IsValidSubject(kind, subject) && (kind == Req ==> subject in REQUEST_OPERATIONS)
  {
    if kind == Req && subject in REQUEST_OPERATIONS {
      OperationsAreUpperTokens(subject);
    }
  }

  lemma LegalSequences(d: Dialect, kind: Kind, token: string)
    ensures IsLegalSequence(kind, token) <==> SequenceFault(d, kind, token).None?
  {
  }

  lemma KindNames(kind: Kind, token: string)
    ensures ParseKind(token) == Some(kind) <==> token == KindName(kind)
  {
  }

  lemma SubjectIsPlain(kind: Kind, subject: string)
    requires IsLegalSubject(kind, subject)
    ensures subject != "" && ' ' !in subject && '*' !in subject
  {
    LegalSubjects(kind, subject);
    if kind == Req {
      OperationsAreUpperTokens(subject);
    }
  }

  lemma FieldTextsArePlain(fields: seq<Field>)
    requires AreFields(fields)
    ensures forall t :: t in FieldTexts(fields) ==> t != "" && ' ' !in t && '*' !in t
  {
    forall t | t in FieldTexts(fields) ensures t != "" && ' ' !in t && '*' !in t {
      var i :| 0 <= i < |fields| && t == FieldText(fields[i]);
      assert IsField(fields[i]);
    }
  }

  lemma LegalTokens(kind: Kind, token: string, subject: string, fields: seq<Field>)
    requires IsLegal(kind, token, subject, fields)
    ensures var tokens := [KindName(kind), token, subject] + FieldTexts(fields);
      forall t :: t in tokens ==> t != "" && ' ' !in t && '*' !in t
  {
    SubjectIsPlain(kind, subject);
    LegalFieldsAreFields(fields);
    FieldTextsArePlain(fields);
  }

  lemma LegalTokensParse(
    d: Dialect, kind: Kind, token: string, subject: string, fields: seq<Field>, body: string, raw: string, crc: Word)
    requires IsLegal(kind, token, subject, fields)
    ensures ParseTokens(d, [KindName(kind), token, subject] + FieldTexts(fields), body, raw, crc)
         == Valid(Frame(kind, ToNat(token), subject, fields, body, raw, crc))
  {
    var tokens := [KindName(kind), token, subject] + FieldTexts(fields);
    LegalTokens(kind, token, subject, fields);
    KindNames(kind, KindName(kind));
    LegalSequences(d, kind, token);
    LegalSubjects(kind, subject);
    LegalFieldsAreFields(fields);
    FieldsRead(fields, 0);
    assert tokens[3..] == FieldTexts(fields) == FieldTexts(fields)[0..] && fields[..0] == [];
  }

  // ---------------------------------------------------------------- every legal line is accepted

  lemma SealedBodyParses(d: Dialect, body: string)
    requires Printable(body) && body != "" && '*' !in body && |body| + 6 <= 512
    ensures Parse(d, Sealed(body)) == ParseTokens(d, Split(body, ' '), body, Sealed(body), BodyCrc(body))
  {
    EnvelopeOpens(body);
    SealedParts(body);
    assert |Sealed(body)| - 4 == |body| + 2;
  }

  // For every kind, every legal sequence, subject and list of fields, both parsers read the sealed
  // body back as exactly that frame.
  lemma EveryLegalLineParses(d: Dialect, kind: Kind, token: string, subject: string, fields: seq<Field>)
    requires IsLegal(kind, token, subject, fields) && Printable(BodyText(kind, token, subject, fields))
    requires |BodyText(kind, token, subject, fields)| + 6 <= 512
    ensures var body := BodyText(kind, token, subject, fields);
      Parse(d, Sealed(body)) == Valid(Frame(kind, ToNat(token), subject, fields, body, Sealed(body), BodyCrc(body)))
  {
    var body := BodyText(kind, token, subject, fields);
    var tokens := [KindName(kind), token, subject] + FieldTexts(fields);
    LegalTokens(kind, token, subject, fields);
    BodyIsJoined(KindName(kind), token, subject, fields);
    SplitUndoesJoin(tokens);
    JoinIsStarFree(tokens);
    SealedBodyParses(d, body);
    LegalTokensParse(d, kind, token, subject, fields, body, Sealed(body), BodyCrc(body));
  }

  lemma ParsedTokensAreLegal(d: Dialect, tokens: seq<string>, body: string, raw: string, crc: Word)
    requires ParseTokens(d, tokens, body, raw, crc).Valid?
    ensures var f := ParseTokens(d, tokens, body, raw, crc).frame;
      && |tokens| >= 3 && IsLegal(f.kind, tokens[1], f.subject, f.fields) && f.sequence == ToNat(tokens[1])
      && tokens == [KindName(f.kind), tokens[1], f.subject] + FieldTexts(f.fields)
      && f.body == body && f.raw == raw && f.crc16 == crc
  {
    var f := ParseTokens(d, tokens, body, raw, crc).frame;
    KindNames(f.kind, tokens[0]);
    LegalSequences(d, f.kind, tokens[1]);
    LegalSubjects(f.kind, f.subject);
    ParsedFieldTokens(tokens);
    LegalFieldsAreFields(f.fields);
  }

  // The body of the frame is the text of its legal parts, with its sequence written as the token.
  ghost predicate IsTextOf(f: Frame, token: string) {
    && IsLegal(f.kind, token, f.subject, f.fields) && f.sequence == ToNat(token)
    && f.body == BodyText(f.kind, token, f.subject, f.fields)
  }

  // And only those: an accepted line is the sealed text of a legal frame, the one reported; so an
  // ACK says accepted, an RSP says ok, and only ERR, EVT and TEL come under the sequence 0.
  lemma OnlyLegalLinesParse(d: Dialect, line: string) returns (token: string)
    requires Parse(d, line).Valid?
    ensures var f := Parse(d, line).frame;
      && IsTextOf(f, token) && Printable(f.body)
      && f.raw == line == Sealed(f.body) && f.crc16 == BodyCrc(f.body) && |line| <= 512
  {
    var body := line[..|line| - 6];
    OnlySealedLinesParse(d, line);
    token := OnlyLegalBodiesParse(d, body, line, BodyCrc(body));
  }

  lemma OnlySealedLinesParse(d: Dialect, line: string)
    requires Parse(d, line).Valid?
    ensures 6 < |line| <= 512
    ensures var body := line[..|line| - 6];
      Printable(body) && line == Sealed(body) && Parse(d, line) == ParseTokens(d, Split(body, ' '), body, line, BodyCrc(body))
  {
    OpenEnvelope(line);
    assert CrcOfText(line[|line| - 4..]) == BodyCrc(line[..|line| - 6]);
  }

  lemma OnlyLegalBodiesParse(d: Dialect, body: string, raw: string, crc: Word) returns (token: string)
    requires ParseTokens(d, Split(body, ' '), body, raw, crc).Valid?
    ensures var f := ParseTokens(d, Split(body, ' '), body, raw, crc).frame;
      && IsTextOf(f, token) && f.body == body && f.raw == raw && f.crc16 == crc
  {
    var tokens := Split(body, ' ');
    ParsedTokensAreLegal(d, tokens, body, raw, crc);
    var f := ParseTokens(d, tokens, body, raw, crc).frame;
    token := tokens[1];
    JoinUndoesSplit(body);
    BodyIsJoined(KindName(f.kind), token, f.subject, f.fields);
  }

  // What that means for a reply: the third word of an ACK or RSP, and the sequence 0.
  lemma RepliesAreWellFormed(d: Dialect, line: string)
    requires Parse(d, line).Valid?
    ensures var f := Parse(d, line).frame;
      && (f.kind == Ack ==> f.subject == "accepted") && (f.kind == Rsp ==> f.subject == "ok")
      && (f.sequence == 0 ==> f.kind == Err || f.kind == Evt || f.kind == Tel)
  {
    var token := OnlyLegalLinesParse(d, line);
  }

  // ---------------------------------------------------------------- the code of a refusal

  predicate HasLineBreak(input: string) {
    '\r' in input || '\n' in input
  }

  // The input has the shape of a line: a body without asterisks, its marker, and four digits.
  predicate IsFramed(input: string) {
    && |input| > 6 && input[|input| - 6] == ' ' && input[|input| - 5] == '*' && '*' !in input[..|input| - 6]
    && forall i :: |input| - 4 <= i < |input| ==> '0' <= input[i] <= '9' || 'A' <= input[i] <= 'F'
  }

  predicate IsPrintable(input: string) {
    forall i :: 0 <= i < |input| ==> ' ' <= input[i] <= '~'
  }

  // The first check that an input fails names its refusal, in this order: nothing, a line break,
  // more than 512 characters, a character outside ' '..'~', the shape of a line.
  lemma FramingRefusals(d: Dialect, input: string)
    ensures Parse(d, input) == Invalid(Empty) <==> input == ""
    ensures Parse(d, input) == Invalid(Multiline) <==> HasLineBreak(input)
    ensures Parse(d, input) == Invalid(TooLong) <==> !HasLineBreak(input) && |input| > 512
    ensures Parse(d, input) == Invalid(NonAsciiText) <==> !HasLineBreak(input) && |input| <= 512 && !IsPrintable(input)
    ensures IsOneLine(input) && !IsFramed(input) ==> Parse(d, input) == Invalid(BadFrame)
    ensures Parse(d, input) == Invalid(BadCrc) <==>
      IsOneLine(input) && IsFramed(input) && input != Sealed(input[..|input| - 6])
  {
    if IsOneLine(input) {
      FramingIsShape(input);
      if IsFramed(input) {
        CrcDecides(input);
      }
    } else {
      NoOneLine(input);
    }
    if EnvelopeFault(input).None? {
      var body := input[..|input| - 6];
      WordsRefuseOtherwise(d, Split(body, ' '), body, input, CrcOfText(input[|input| - 4..]));
    }
  }

  predicate IsOneLine(input: string) {
    !HasLineBreak(input) && 0 < |input| <= 512 && IsPrintable(input)
  }

  lemma NoOneLine(input: string)
    requires !IsOneLine(input)
    ensures EnvelopeFault(input) == Some(
      if input == "" then Empty else if HasLineBreak(input) then Multiline else if |input| > 512 then TooLong else NonAsciiText)
  {
  }

  lemma WordsRefuseOtherwise(d: Dialect, words: seq<string>, body: string, raw: string, crc: Word)
    ensures var parsed := ParseTokens(d, words, body, raw, crc);
      parsed.Valid? || parsed.code == BadFrame || parsed.code == SequenceOutOfRange || parsed.code == UnknownOperation
  {
  }

  lemma FramingIsShape(input: string)
    requires IsOneLine(input)
    ensures FramingFault(input).None? <==> IsFramed(input)
    ensures FramingFault(input).Some? ==> FramingFault(input) == Some(BadFrame)
  {
    if |input| > 6 {
      var crc := input[|input| - 4..];
      assert |input| - 6 + 2 == |input| - 4;
      assert forall i :: 0 <= i < 4 ==> crc[i] == input[|input| - 4 + i];
    }
  }

  lemma CrcDecides(input: string)
    requires FramingFault(input).None?
    ensures EnvelopeFault(input).None? <==> input == Sealed(input[..|input| - 6])
    ensures EnvelopeFault(input).Some? ==> EnvelopeFault(input) == Some(BadCrc)
  {
    var body := input[..|input| - 6];
    FramedParts(input);
    if input == Sealed(body) {
      CrcTextReads(BodyCrc(body));
      SealedParts(body);
    } else {
      CrcTextPrints(input[|input| - 4..]);
    }
  }

  predicate IsKindName(s: string) {
    s == "REQ" || s == "ACK" || s == "RSP" || s == "ERR" || s == "DONE" || s == "EVT" || s == "TEL"
  }

  // The word stands where its kind may carry the sequence 0.
  predicate IsLegalSequenceOf(name: string, token: string) {
    && IsDigits(token) && ToNat(token) <= 4294967295
    && (ToNat(token) == 0 ==> name == "ERR" || name == "EVT" || name == "TEL")
  }

  // Behind a right envelope: three words at least, none empty, the first a kind; then the
  // sequence; then the subject; and an operation nobody knows only in a request with a subject of
  // the right form. C# calls a malformed sequence out of range, TypeScript a bad frame.
  lemma TokenRefusals(d: Dialect, input: string)
    requires !HasLineBreak(input) && |input| <= 512 && IsPrintable(input) && IsFramed(input)
    requires input == Sealed(input[..|input| - 6])
    ensures var words := Split(input[..|input| - 6], ' ');
      var starts := |words| >= 3 && "" !in words && IsKindName(words[0]);
      && (Parse(d, input) == Invalid(SequenceOutOfRange) <==>
            starts && !IsLegalSequenceOf(words[0], words[1]) && (d == CSharp || IsDigits(words[1])))
      && (Parse(d, input) == Invalid(UnknownOperation) <==>
            starts && IsLegalSequenceOf(words[0], words[1]) && words[0] == "REQ" && IsUpperName(words[2]) && !IsRequestName(words[2]))
      && (Parse(d, input).Valid? || Parse(d, input) == Invalid(SequenceOutOfRange)
          || Parse(d, input) == Invalid(UnknownOperation) || Parse(d, input) == Invalid(BadFrame))
  {
    FramingIsShape(input);
    CrcDecides(input);
    var body := input[..|input| - 6];
    WordRefusals(d, Split(body, ' '), body, input, CrcOfText(input[|input| - 4..]));
  }

  lemma WordRefusals(d: Dialect, words: seq<string>, body: string, raw: string, crc: Word)
    ensures var parsed := ParseTokens(d, words, body, raw, crc);
      var starts := |words| >= 3 && "" !in words && IsKindName(words[0]);
      && (parsed == Invalid(SequenceOutOfRange) <==>
            starts && !IsLegalSequenceOf(words[0], words[1]) && (d == CSharp || IsDigits(words[1])))
      && (parsed == Invalid(UnknownOperation) <==>
            starts && IsLegalSequenceOf(words[0], words[1]) && words[0] == "REQ" && IsUpperName(words[2]) && !IsRequestName(words[2]))
      && (parsed.Valid? || parsed == Invalid(SequenceOutOfRange) || parsed == Invalid(UnknownOperation)
          || parsed == Invalid(BadFrame))
  {
    if |words| >= 3 && "" !in words && ParseKind(words[0]).Some? {
      var kind := ParseKind(words[0]).value;
      KindNames(kind, words[0]);
      LegalSequences(d, kind, words[1]);
      LegalSubjects(kind, words[2]);
    }
  }

  // ---------------------------------------------------------------- what the formatters write

  predicate IsSendable(f: Field) {
    IsLegalField(f) && IsPrintable(f.1)
  }

  // The first n fields are well formed, each with a key of its own.
  ghost predicate AllSendable(fields: seq<Field>, n: nat) {
    && n <= |fields| && (forall i :: 0 <= i < n ==> IsSendable(fields[i]))
    && forall i, j :: 0 <= i < j < n ==> fields[i].0 != fields[j].0
  }

  ghost predicate Repeats(fields: seq<Field>, n: nat)
    requires n < |fields|
  {
    exists i :: 0 <= i < n && fields[i].0 == fields[n].0
  }

  lemma SendableFields(f: Field)
    ensures IsSendable(f) <==> IsFieldKey(f.0) && IsFieldValue(f.1)
  {
    assert IsPrintable(f.1) <==> Printable(f.1);
  }

  lemma RepeatedKeys(fields: seq<Field>, n: nat)
    requires n < |fields|
    ensures HasKey(fields[..n], fields[n].0) <==> Repeats(fields, n)
  {
    if i: nat :| i < n && fields[i].0 == fields[n].0 {
      assert fields[..n][i].0 == fields[n].0;
    }
  }

  lemma {:induction false} FirstFault(fields: seq<Field>, n: nat) returns (good: nat)
    requires AllSendable(fields, n)
    ensures AllSendable(fields, good)
    ensures FieldFault(fields, n)
         == if good == |fields| then None else Some(if IsSendable(fields[good]) then DuplicateField else InvalidField)
    ensures good < |fields| ==> !IsSendable(fields[good]) || Repeats(fields, good)
    decreases |fields| - n
  {
    good := n;
    if n < |fields| {
      SendableFields(fields[n]);
      RepeatedKeys(fields, n);
      if IsSendable(fields[n]) && !Repeats(fields, n) {
        good := FirstFault(fields, n + 1);
      }
    }
  }

  lemma RequestNames(operation: string)
    ensures operation in REQUEST_OPERATIONS <==> IsRequestName(operation)
  {
  }

  lemma RequestText(id: nat, operation: string, fields: seq<Field>)
    ensures RequestBody(id, operation, fields) == BodyText(Req, OfNat(id), operation, fields)
  {
    BodyIsJoined("REQ", OfNat(id), operation, fields);
  }

  // What becomes of a request, whichever formatter writes it. The ID is checked first, then the
  // operation, then the fields one by one, each before its key is compared with those before it;
  // and a request that passes is its line, unless that is longer than 512 characters.
  lemma FormatsExactlyWhen(id: int, operation: string, fields: seq<Field>) returns (good: nat)
    ensures AllSendable(fields, good)
    ensures good < |fields| ==> !IsSendable(fields[good]) || Repeats(fields, good)
    ensures Format(id, operation, fields)
         == if id < 1 || id > 4294967295 then Refused(RequestIdOutOfRange)
            else if !IsRequestName(operation) then Refused(UnsupportedOperation)
            else if good < |fields| then Refused(if IsSendable(fields[good]) then DuplicateField else InvalidField)
            else
              var body := "REQ " + OfNat(id) + " " + operation + FieldsText(fields);
              var line := body + " *" + CrcText(Crc(Bytes(body)));
              if |line| > 512 then Refused(FrameTooLong) else Formatted(line)
  {
    good := FirstFault(fields, 0);
    RequestNames(operation);
    if id >= 1 {
      RequestText(id, operation, fields);
      assert "REQ" + " " + OfNat(id) + " " + operation == "REQ " + OfNat(id) + " " + operation;
    }
  }

  function DigitNumber(c: char): int {
    if '0' <= c <= '9' then c as int - '0' as int else if 'A' <= c <= 'F' then c as int - 'A' as int + 10 else -1
  }

  function Weight(bit: bool, weight: nat): nat {
    if bit then weight else 0
  }

  // The four digits behind a body are the hexadecimal digits of its CRC, the highest bits first.
  lemma CrcIsSpelled(crc: Word, i: nat)
    requires i < 4
    ensures |CrcText(crc)| == 4
    ensures DigitNumber(CrcText(crc)[i])
         == Weight(crc[4 * i], 8) + Weight(crc[4 * i + 1], 4) + Weight(crc[4 * i + 2], 2) + Weight(crc[4 * i + 3], 1)
  {
    var bits := crc[4 * i..4 * i + 4];
    DigitIsSpelled(bits);
    assert i == 0 || i == 1 || i == 2 || i == 3;
    assert crc[0..4] == crc[..4] && crc[12..16] == crc[12..];
  }

  lemma DigitIsSpelled(bits: seq<bool>)
    requires |bits| == 4
    ensures DigitNumber(HexDigit(bits)) == Weight(bits[0], 8) + Weight(bits[1], 4) + Weight(bits[2], 2) + Weight(bits[3], 1)
  {
    var three, two, one := bits[..3], bits[..2], bits[..1];
    assert bits[..|bits| - 1] == three && three[..|three| - 1] == two && two[..|two| - 1] == one && one[..|one| - 1] == [];
    assert NumberOf(one) == Weight(bits[0], 1);
    assert NumberOf(two) == 2 * NumberOf(one) + Weight(bits[1], 1);
    assert NumberOf(three) == 2 * NumberOf(two) + Weight(bits[2], 1);
    assert NumberOf(bits) == 2 * NumberOf(three) + Weight(bits[3], 1);
  }
}
