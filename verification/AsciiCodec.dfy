/**
The Aethor ASCII codec end to end: the loops of the two formatters and of the parser, round
trips, agreement of the two dialects, and rejection of corrupted frames.
*/
module AsciiCodec {
  import opened Wrappers
  import opened DecimalText
  import opened Crc16
  import opened LineDecoder
  import opened AsciiFrame

  // ---------------------------------------------------------------- the formatting and parsing loops

  // Field by field in the order given: check, then remember the key.
  method CheckFields(fields: seq<Field>) returns (fault: Option<FormatError>)
    ensures fault == FieldFault(fields, 0)
  {
    var keys: set<string> := {};
    for i := 0 to |fields|
      invariant FieldFault(fields, i) == FieldFault(fields, 0)
      invariant forall k :: k in keys <==> HasKey(fields[..i], k)
    {
      var (key, value) := fields[i];
      if !IsFieldKey(key) || !IsFieldValue(value) {
        return Some(InvalidField);
      }
      if key in keys {
        return Some(DuplicateField);
      }
      KeysGrow(fields, i);
      keys := keys + {key};
    }
    fault := None;
  }

  lemma KeysGrow(fields: seq<Field>, n: nat)
    requires n < |fields|
    ensures forall k :: HasKey(fields[..n + 1], k) <==> HasKey(fields[..n], k) || k == fields[n].0
  {
    forall k ensures HasKey(fields[..n + 1], k) <==> HasKey(fields[..n], k) || k == fields[n].0 {
      if HasKey(fields[..n], k) {
        var i :| 0 <= i < n && fields[..n][i].0 == k;
        assert fields[..n + 1][i].0 == k;
      }
      if k == fields[n].0 {
        assert fields[..n + 1][n].0 == k;
      }
    }
  }

  lemma {:induction false} JoinSnoc(tokens: seq<string>, t: string)
    requires tokens != []
    ensures Join(tokens + [t]) == Join(tokens) + " " + t
    decreases |tokens|
  {
    if |tokens| > 1 {
      assert (tokens + [t])[1..] == tokens[1..] + [t];
      JoinSnoc(tokens[1..], t);
    } else {
      assert (tokens + [t])[1..] == [t];
    }
  }

  lemma NextFieldText(fields: seq<Field>, head: seq<string>, n: nat)
    requires n < |fields|
    ensures head + FieldTexts(fields[..n + 1]) == head + FieldTexts(fields[..n]) + [FieldText(fields[n])]
  {
  }

  // The TypeScript formatter collects tokens and joins them.
  method JoinRequest(id: nat, operation: string, fields: seq<Field>) returns (body: string)
    ensures body == RequestBody(id, operation, fields)
  {
    var tokens := ["REQ", OfNat(id), operation];
    assert tokens + FieldTexts(fields[..0]) == tokens;
    for i := 0 to |fields|
      invariant tokens == ["REQ", OfNat(id), operation] + FieldTexts(fields[..i])
    {
      NextFieldText(fields, ["REQ", OfNat(id), operation], i);
      tokens := tokens + [fields[i].0 + "=" + fields[i].1];
    }
    assert fields[..|fields|] == fields;
    body := Join(tokens);
  }

  lemma HeadText(id: nat, operation: string)
    ensures Join(["REQ", OfNat(id), operation]) == "REQ" + " " + OfNat(id) + " " + operation
  {
    var tokens := ["REQ", OfNat(id), operation];
    assert tokens[1..] == [OfNat(id), operation] && tokens[1..][1..] == [operation];
    assert Join(tokens[1..]) == OfNat(id) + " " + operation;
  }

  // The C# formatter appends to a string builder.
  method BuildRequest(id: nat, operation: string, fields: seq<Field>) returns (body: string)
    ensures body == RequestBody(id, operation, fields)
  {
    ghost var head := ["REQ", OfNat(id), operation];
    body := "REQ" + " " + OfNat(id) + " " + operation;
    HeadText(id, operation);
    assert head + FieldTexts(fields[..0]) == head;
    for i := 0 to |fields|
      invariant body == Join(head + FieldTexts(fields[..i]))
    {
      NextFieldText(fields, head, i);
      JoinSnoc(head + FieldTexts(fields[..i]), FieldText(fields[i]));
      body := body + " " + (fields[i].0 + "=" + fields[i].1);
    }
    assert fields[..|fields|] == fields;
  }

  method FormatRequest(d: Dialect, id: int, operation: string, fields: seq<Field>) returns (result: Formatted)
    ensures result == Format(id, operation, fields)
  {
    if id < 1 || id > UINT32_MAX {
      return Refused(RequestIdOutOfRange);
    }
    if operation !in REQUEST_OPERATIONS {
      return Refused(UnsupportedOperation);
    }
    var fault := CheckFields(fields);
    if fault.Some? {
      return Refused(fault.value);
    }
    var body;
    if d == TypeScript {
      body := JoinRequest(id, operation, fields);
    } else {
      body := BuildRequest(id, operation, fields);
    }
    BodyIsPrintable(id, operation, fields);
    var crc := ComputeCrc16(Bytes(body));
    var line := body + " *" + CrcText(crc);
    assert line == Sealed(body);
    result := if |line| > MAXIMUM_LINE_BYTES then Refused(FrameTooLong) else Formatted(line);
  }

  // The parser's loop over the tokens after the subject.
  method CollectFields(tokens: seq<string>) returns (fields: Option<seq<Field>>)
    ensures fields == ParseFields(tokens, [])
  {
    var found: seq<Field> := [];
    for i := 0 to |tokens|
      invariant ParseFields(tokens[i..], found) == ParseFields(tokens, [])
    {
      assert tokens[i..][1..] == tokens[i + 1..];
      var f := ParseField(tokens[i]);
      if f.None? || HasKey(found, f.value.0) {
        return None;
      }
      found := found + [f.value];
    }
    fields := Some(found);
  }

  method ParseFrame(d: Dialect, input: string) returns (result: Parsed)
    ensures result == Parse(d, input)
  {
    var fault := EnvelopeFault(input);
    if fault.Some? {
      return Invalid(fault.value);
    }
    var body := input[..|input| - 6];
    var tokens := Split(body, ' ');
    if |tokens| < 3 || "" in tokens {
      return Invalid(BadFrame);
    }
    var kind := ParseKind(tokens[0]);
    if kind.None? {
      return Invalid(BadFrame);
    }
    var sequenceFault := SequenceFault(d, kind.value, tokens[1]);
    if sequenceFault.Some? {
      return Invalid(sequenceFault.value);
    }
    if !IsValidSubject(kind.value, tokens[2]) {
      return Invalid(BadFrame);
    }
    if kind.value == Req && tokens[2] !in REQUEST_OPERATIONS {
      return Invalid(UnknownOperation);
    }
    var fields := CollectFields(tokens[3..]);
    if fields.None? {
      return Invalid(BadFrame);
    }
    var crc := CrcOfText(input[|input| - 4..]);
    result := Valid(Frame(kind.value, ToNat(tokens[1]), tokens[2], fields.value, body, input, crc));
  }

  // ---------------------------------------------------------------- splitting and joining

  lemma IndexIsUnique(s: string, c: char, i: nat)
    requires i < |s| && s[i] == c && c !in s[..i]
    ensures IndexOf(s, c) == i
  {
    var j := IndexOf(s, c);
    assert forall k :: 0 <= k < j ==> s[k] == s[..j][k];
    assert forall k :: 0 <= k < i ==> s[k] == s[..i][k];
  }

  lemma JoinParts(tokens: seq<string>)
    requires |tokens| > 1
    ensures var s, n := Join(tokens), |tokens[0]|;
      n < |s| && s[n] == ' ' && s[..n] == tokens[0] && s[n + 1..] == Join(tokens[1..])
  {
  }

  lemma {:induction false} SplitUndoesJoin(tokens: seq<string>)
    requires tokens != [] && SpaceFree(tokens)
    ensures Split(Join(tokens), ' ') == tokens
    decreases |tokens|
  {
    if |tokens| > 1 {
      JoinParts(tokens);
      IndexIsUnique(Join(tokens), ' ', |tokens[0]|);
      SplitUndoesJoin(tokens[1..]);
    }
  }

  lemma {:induction false} JoinUndoesSplit(s: string)
    ensures Join(Split(s, ' ')) == s && SpaceFree(Split(s, ' '))
    decreases |s|
  {
    var i := IndexOf(s, ' ');
    if i != -1 {
      var rest := Split(s[i + 1..], ' ');
      JoinUndoesSplit(s[i + 1..]);
      assert ([s[..i]] + rest)[1..] == rest;
      assert Join([s[..i]] + rest) == s[..i] + " " + s[i + 1..] == s;
    }
  }

  // ---------------------------------------------------------------- the CRC text

  lemma HexDigitReads(bits: seq<bool>)
    requires |bits| == 4
    ensures IsHexDigit(HexDigit(bits)) && HexBits(HexDigit(bits)) == bits
  {
    NumberHasTheBits(bits);
    assert Pow2(4) == 16;
  }

  lemma HexDigitPrints(c: char)
    requires IsHexDigit(c)
    ensures HexDigit(HexBits(c)) == c
  {
    assert Pow2(4) == 16;
    BitsAreTheNumber(HexValue(c), 4);
  }

  lemma CrcTextReads(crc: Word)
    ensures IsCrcText(CrcText(crc)) && CrcOfText(CrcText(crc)) == crc
  {
    HexDigitReads(crc[..4]);
    HexDigitReads(crc[4..8]);
    HexDigitReads(crc[8..12]);
    HexDigitReads(crc[12..]);
    FourNibbles(crc);
  }

  lemma FourNibbles(crc: Word)
    ensures crc[..4] + crc[4..8] + crc[8..12] + crc[12..] == crc
  {
  }

  lemma CrcTextPrints(s: string)
    requires IsCrcText(s)
    ensures CrcText(CrcOfText(s)) == s
  {
    var w := CrcOfText(s);
    assert w[..4] == HexBits(s[0]) && w[4..8] == HexBits(s[1]) && w[8..12] == HexBits(s[2]) && w[12..] == HexBits(s[3]);
    HexDigitPrints(s[0]);
    HexDigitPrints(s[1]);
    HexDigitPrints(s[2]);
    HexDigitPrints(s[3]);
  }

  // ---------------------------------------------------------------- fields

  predicate IsField(f: Field) {
    IsFieldKey(f.0) && f.1 != "" && IsPlain(f.1)
  }

  lemma FieldReads(f: Field)
    requires IsField(f)
    ensures ParseField(FieldText(f)) == Some(f)
  {
    var t := FieldText(f);
    assert t[|f.0|] == '=' && t[..|f.0|] == f.0 && t[|f.0| + 1..] == f.1;
    IndexIsUnique(t, '=', |f.0|);
  }

  lemma FieldPrints(token: string)
    requires ParseField(token).Some?
    ensures IsField(ParseField(token).value) && FieldText(ParseField(token).value) == token
  {
    var i := IndexOf(token, '=');
    assert token == token[..i] + "=" + token[i + 1..];
  }

  ghost predicate AreFields(fields: seq<Field>) {
    forall i :: 0 <= i < |fields| ==> IsField(fields[i]) && !HasKey(fields[..i], fields[i].0)
  }

  lemma {:induction false} FieldsRead(fields: seq<Field>, n: nat)
    requires AreFields(fields) && n <= |fields|
    ensures ParseFields(FieldTexts(fields)[n..], fields[..n]) == Some(fields)
    decreases |fields| - n
  {
    if n < |fields| {
      FieldReads(fields[n]);
      FieldsRead(fields, n + 1);
      assert FieldTexts(fields)[n..][1..] == FieldTexts(fields)[n + 1..];
      assert fields[..n] + [fields[n]] == fields[..n + 1];
    } else {
      assert fields[..n] == fields;
    }
  }

  lemma {:induction false} FieldsPrint(tokens: seq<string>, fields: seq<Field>)
    requires AreFields(fields) && ParseFields(tokens, fields).Some?
    ensures var all := ParseFields(tokens, fields).value;
      AreFields(all) && FieldTexts(all) == FieldTexts(fields) + tokens
    decreases |tokens|
  {
    if tokens != [] {
      FieldPrints(tokens[0]);
      var more := fields + [ParseField(tokens[0]).value];
      assert forall i :: 0 <= i < |more| ==> more[..i] == fields[..i];
      assert fields[..|fields|] == fields;
      FieldsPrint(tokens[1..], more);
      assert FieldTexts(more) == FieldTexts(fields) + [tokens[0]];
      assert tokens == [tokens[0]] + tokens[1..];
    }
  }

  // ---------------------------------------------------------------- round trips

  lemma RequestTokens(id: nat, operation: string, fields: seq<Field>)
    requires IsPlain(operation) && AreFields(fields)
    ensures Split(RequestBody(id, operation, fields), ' ') == ["REQ", OfNat(id), operation] + FieldTexts(fields)
  {
    var tokens := ["REQ", OfNat(id), operation] + FieldTexts(fields);
    forall i | 0 <= i < |tokens| ensures ' ' !in tokens[i] {
      if i >= 3 {
        assert tokens[i] == FieldText(fields[i - 3]) && IsField(fields[i - 3]);
      }
    }
    SplitUndoesJoin(tokens);
  }

  lemma SealedParts(body: string)
    requires Printable(body)
    ensures var line := Sealed(body);
      && |line| == |body| + 6 && line[..|line| - 6] == body && line[|line| - 4..] == CrcText(BodyCrc(body))
      && line[|line| - 6] == ' ' && line[|line| - 5] == '*'
  {
  }

  // The envelope a body travels in opens when the body is printable, non-empty, within the
  // limit and free of asterisks; and every open envelope is of that form.
  lemma FramedText(body: string, crc: string)
    requires Printable(body) && body != "" && '*' !in body && |body| + 6 <= MAXIMUM_LINE_BYTES && IsCrcText(crc)
    ensures FramingFault(body + " *" + crc) == None && Printable(body + " *" + crc)
  {
    var line := body + " *" + crc;
    HexIsPrintable(crc);
    assert line[..|line| - 6] == body && line[|line| - 4..] == crc && |line| - 6 + 2 == |line| - 4;
    assert line[|line| - 6] == ' ' && line[|line| - 5] == '*';
  }

  lemma FramedParts(line: string)
    requires FramingFault(line).None?
    ensures |line| > 6 && Printable(line[..|line| - 6]) && IsCrcText(line[|line| - 4..])
    ensures line == line[..|line| - 6] + " *" + line[|line| - 4..]
  {
    assert |line| - 6 + 2 == |line| - 4;
  }

  lemma EnvelopeOpens(body: string)
    requires Printable(body) && body != "" && '*' !in body && |body| + 6 <= MAXIMUM_LINE_BYTES
    ensures EnvelopeFault(Sealed(body)) == None && CrcOfText(Sealed(body)[|body| + 2..]) == BodyCrc(body)
    ensures Printable(Sealed(body))
  {
    CrcTextReads(BodyCrc(body));
    FramedText(body, CrcText(BodyCrc(body)));
    SealedParts(body);
    assert |Sealed(body)| - 4 == |body| + 2;
  }

  lemma OpenEnvelope(line: string)
    requires EnvelopeFault(line).None?
    ensures |line| > 6 && Printable(line[..|line| - 6]) && line == Sealed(line[..|line| - 6])
  {
    FramedParts(line);
    CrcTextPrints(line[|line| - 4..]);
  }

  lemma HexIsPrintable(crc: string)
    requires IsCrcText(crc)
    ensures Printable(crc) && '\r' !in crc && '\n' !in crc
  {
  }

  lemma {:induction false} JoinIsStarFree(tokens: seq<string>)
    requires tokens != [] && forall i :: 0 <= i < |tokens| ==> '*' !in tokens[i]
    ensures '*' !in Join(tokens)
  {
    if |tokens| > 1 {
      JoinIsStarFree(tokens[1..]);
    }
  }

  lemma GoodFieldsAreFields(fields: seq<Field>)
    requires FieldFault(fields, 0).None?
    ensures AreFields(fields)
  {
    NoFaultMeansGood(fields, 0);
  }

  lemma BodyIsStarFree(id: nat, operation: string, fields: seq<Field>)
    requires IsPlain(operation) && AreFields(fields)
    ensures '*' !in RequestBody(id, operation, fields)
  {
    var tokens := ["REQ", OfNat(id), operation] + FieldTexts(fields);
    forall i | 0 <= i < |tokens| ensures '*' !in tokens[i] {
      if i >= 3 {
        assert tokens[i] == FieldText(fields[i - 3]) && IsField(fields[i - 3]);
      }
    }
    JoinIsStarFree(tokens);
  }

  lemma RequestTokensAreFull(id: nat, operation: string, fields: seq<Field>)
    requires IsUpperToken(operation) && AreFields(fields)
    ensures "" !in ["REQ", OfNat(id), operation] + FieldTexts(fields)
  {
    var tokens := ["REQ", OfNat(id), operation] + FieldTexts(fields);
    assert forall i :: 3 <= i < |tokens| ==> tokens[i] == FieldText(fields[i - 3]);
    assert forall i :: 0 <= i < |fields| ==> FieldText(fields[i]) != "";
  }

  lemma RequestTokensParse(d: Dialect, id: nat, operation: string, fields: seq<Field>, raw: string, crc: Word)
    requires 1 <= id <= UINT32_MAX && operation in REQUEST_OPERATIONS && AreFields(fields)
    ensures var body := RequestBody(id, operation, fields);
      ParseTokens(d, Split(body, ' '), body, raw, crc) == Valid(Frame(Req, id, operation, fields, body, raw, crc))
  {
    OperationsAreUpperTokens(operation);
    RequestTokens(id, operation, fields);
    RequestTokensAreFull(id, operation, fields);
    var tokens := ["REQ", OfNat(id), operation] + FieldTexts(fields);
    PrintThenRead(id);
    TenDigitsSuffice(id);
    assert tokens[3..] == FieldTexts(fields) == FieldTexts(fields)[0..] && fields[..0] == [];
    FieldsRead(fields, 0);
  }

  lemma TenDigitsSuffice(n: nat)
    requires n <= UINT32_MAX
    ensures |OfNat(n)| <= 10
  {
    DigitCount(n, 10);
  }

  function Pow10(k: nat): nat {
    if k == 0 then 1 else 10 * Pow10(k - 1)
  }

  lemma {:induction false} DigitCount(n: nat, k: nat)
    requires k > 0 && n < Pow10(k)
    ensures |OfNat(n)| <= k
  {
    if n >= 10 {
      DigitCount(n / 10, k - 1);
    }
  }

  // A formatted request, encoded and cut into chunks in any way, is decoded to that one line,
  // and either parser reads back exactly the request.
  lemma RequestRoundTrip(d: Dialect, id: int, operation: string, fields: seq<Field>, chunks: seq<seq<Byte>>)
    requires Format(id, operation, fields).Formatted?
    requires Flatten(chunks) == Bytes(Format(id, operation, fields).line) + [LF]
    ensures var line, body := Format(id, operation, fields).line, RequestBody(id, operation, fields);
      && AfterChunks(FRESH, chunks) == FRESH && OutputOfChunks(FRESH, chunks) == [Line(line)]
      && Printable(body)
      && Parse(d, line) == Valid(Frame(Req, id, operation, fields, body, line, BodyCrc(body)))
  {
    FormattedLineParses(d, id, operation, fields);
    PrintableLineSurvives(Format(id, operation, fields).line, chunks);
  }

  lemma RequestBodyIsClean(id: int, operation: string, fields: seq<Field>)
    requires Format(id, operation, fields).Formatted?
    ensures var body := RequestBody(id, operation, fields);
      Printable(body) && body != "" && '*' !in body && Format(id, operation, fields).line == Sealed(body)
      && |Sealed(body)| <= MAXIMUM_LINE_BYTES
  {
    BodyIsPrintable(id, operation, fields);
    OperationsAreUpperTokens(operation);
    GoodFieldsAreFields(fields);
    BodyIsStarFree(id, operation, fields);
    BodyIsNotEmpty(id, operation, fields);
  }

  lemma RequestEnvelopeOpens(id: int, operation: string, fields: seq<Field>)
    requires Format(id, operation, fields).Formatted?
    ensures var line, body := Format(id, operation, fields).line, RequestBody(id, operation, fields);
      && Printable(line) && Printable(body) && line == Sealed(body) && |line| == |body| + 6
      && EnvelopeFault(line) == None && CrcOfText(line[|line| - 4..]) == BodyCrc(body) && line[..|line| - 6] == body
  {
    var body := RequestBody(id, operation, fields);
    RequestBodyIsClean(id, operation, fields);
    SealedParts(body);
    EnvelopeOpens(body);
    assert |Sealed(body)| - 4 == |body| + 2;
  }

  lemma BodyIsNotEmpty(id: nat, operation: string, fields: seq<Field>)
    ensures RequestBody(id, operation, fields) != ""
  {
  }

  lemma FormattedLineParses(d: Dialect, id: int, operation: string, fields: seq<Field>)
    requires Format(id, operation, fields).Formatted?
    ensures var line, body := Format(id, operation, fields).line, RequestBody(id, operation, fields);
      && Printable(line) && Printable(body)
      && Parse(d, line) == Valid(Frame(Req, id, operation, fields, body, line, BodyCrc(body)))
  {
    RequestEnvelopeOpens(id, operation, fields);
    GoodFieldsAreFields(fields);
    var body := RequestBody(id, operation, fields);
    RequestTokensParse(d, id, operation, fields, Sealed(body), BodyCrc(body));
  }

  // ---------------------------------------------------------------- formatting what was parsed

  lemma ParsedFieldTokens(tokens: seq<string>)
    requires |tokens| >= 3 && ParseFields(tokens[3..], []).Some?
    ensures var fields := ParseFields(tokens[3..], []).value;
      AreFields(fields) && tokens == [tokens[0], tokens[1], tokens[2]] + FieldTexts(fields)
  {
    FieldsPrint(tokens[3..], []);
    assert FieldTexts([]) + tokens[3..] == tokens[3..];
  }

  lemma ParsedTokens(d: Dialect, tokens: seq<string>, body: string, raw: string, crc: Word)
    requires ParseTokens(d, tokens, body, raw, crc).Valid?
    ensures var f := ParseTokens(d, tokens, body, raw, crc).frame;
      && |tokens| >= 3 && IsSequenceToken(tokens[1]) && f.sequence == ToNat(tokens[1]) && f.subject == tokens[2]
      && (f.kind == Req ==> tokens[0] == "REQ" && 1 <= f.sequence <= UINT32_MAX && f.subject in REQUEST_OPERATIONS)
      && AreFields(f.fields) && tokens == [tokens[0], tokens[1], tokens[2]] + FieldTexts(f.fields)
  {
    ParsedFieldTokens(tokens);
  }

  lemma {:induction false} PartsArePrintable(tokens: seq<string>)
    requires tokens != [] && Printable(Join(tokens))
    ensures forall i :: 0 <= i < |tokens| ==> Printable(tokens[i])
  {
    if |tokens| > 1 {
      JoinParts(tokens);
      PartsArePrintable(tokens[1..]);
    }
  }

  lemma PrintableFieldsAreGood(head: seq<string>, fields: seq<Field>)
    requires AreFields(fields) && head + FieldTexts(fields) != [] && Printable(Join(head + FieldTexts(fields)))
    ensures FieldFault(fields, 0).None?
  {
    var tokens := head + FieldTexts(fields);
    PartsArePrintable(tokens);
    forall i | 0 <= i < |fields| ensures Printable(fields[i].1) {
      var t := tokens[|head| + i];
      assert t == FieldText(fields[i]) && t[|fields[i].0| + 1..] == fields[i].1;
    }
    NoFaultMeansGood(fields, 0);
  }

  lemma CanonicalToken(token: string)
    requires IsSequenceToken(token) && ToNat(token) > 0
    ensures OfNat(ToNat(token)) == token <==> token[0] != '0'
  {
    ReadThenPrint(token);
    if |token| == 1 {
      assert token[..0] == [];
    }
  }

  // A request body is rebuilt from what it was parsed to exactly when its sequence carries no leading zero.
  lemma RebuildsExactlyWithoutLeadingZero(body: string, token: string, operation: string, fields: seq<Field>)
    requires IsSequenceToken(token) && ToNat(token) > 0 && IsPlain(operation) && AreFields(fields)
    requires Split(body, ' ') == ["REQ", token, operation] + FieldTexts(fields)
    ensures RequestBody(ToNat(token), operation, fields) == body <==> token[0] != '0'
  {
    var again := OfNat(ToNat(token));
    CanonicalToken(token);
    JoinUndoesSplit(body);
    if token[0] == '0' {
      RequestTokens(ToNat(token), operation, fields);
      assert Split(RequestBody(ToNat(token), operation, fields), ' ')[1] == again;
      assert Split(body, ' ')[1] == token;
    }
  }

  lemma ShorterTokenShorterBody(body: string, i: nat, t: string)
    requires i < |Split(body, ' ')| && |t| <= |Split(body, ' ')[i]|
    ensures |Join(Split(body, ' ')[i := t])| <= |body|
  {
    JoinUndoesSplit(body);
    ReplacedToken(Split(body, ' '), i, t);
  }

  lemma RebuiltBodyIsNotLonger(body: string, token: string, operation: string, fields: seq<Field>)
    requires IsSequenceToken(token) && Split(body, ' ') == ["REQ", token, operation] + FieldTexts(fields)
    ensures |RequestBody(ToNat(token), operation, fields)| <= |body|
  {
    var again := OfNat(ToNat(token));
    NumeralIsNotLonger(token);
    ShorterTokenShorterBody(body, 1, again);
    SecondToken(token, operation, FieldTexts(fields), again);
  }

  lemma SecondToken(token: string, operation: string, rest: seq<string>, again: string)
    ensures (["REQ", token, operation] + rest)[1 := again] == ["REQ", again, operation] + rest
  {
  }

  lemma {:induction false} ReplacedToken(tokens: seq<string>, i: nat, t: string)
    requires i < |tokens|
    ensures |Join(tokens[i := t])| == |Join(tokens)| - |tokens[i]| + |t|
    decreases |tokens|
  {
    if i > 0 {
      ReplacedToken(tokens[1..], i - 1, t);
      assert tokens[i := t][1..] == tokens[1..][i - 1 := t];
    } else if |tokens| > 1 {
      assert tokens[i := t][1..] == tokens[1..];
    }
  }

  lemma {:induction false} NumeralIsNotLonger(token: string)
    requires AllDigits(token) && token != ""
    ensures |OfNat(ToNat(token))| <= |token|
  {
    var front := token[..|token| - 1];
    if front == "" {
      assert ToNat(token) < 10;
    } else {
      NumeralIsNotLonger(front);
      assert ToNat(token) / 10 == ToNat(front);
    }
  }

  lemma RequestBodyParts(d: Dialect, line: string)
    requires Parse(d, line).Valid? && Parse(d, line).frame.kind == Req
    ensures var f, body := Parse(d, line).frame, line[..|line| - 6];
      && |Split(body, ' ')| >= 3 && IsSequenceToken(Split(body, ' ')[1]) && f.sequence == ToNat(Split(body, ' ')[1])
      && 1 <= f.sequence <= UINT32_MAX && f.subject in REQUEST_OPERATIONS && AreFields(f.fields)
      && Split(body, ' ') == ["REQ", Split(body, ' ')[1], f.subject] + FieldTexts(f.fields)
  {
    var body := line[..|line| - 6];
    ParsedTokens(d, Split(body, ' '), body, line, CrcOfText(line[|line| - 4..]));
  }

  // Formatting again what was parsed from a request line gives the same line exactly when its
  // sequence carries no leading zero.
  lemma ReformatsExactlyWithoutLeadingZero(d: Dialect, line: string)
    requires Parse(d, line).Valid? && Parse(d, line).frame.kind == Req
    ensures var f := Parse(d, line).frame;
      Format(f.sequence, f.subject, f.fields) == Formatted(line) <==> Split(line[..|line| - 6], ' ')[1][0] != '0'
  {
    var f, body := Parse(d, line).frame, line[..|line| - 6];
    RequestBodyParts(d, line);
    OpenEnvelope(line);
    FormatOfParts(body, Split(body, ' ')[1], f.subject, f.fields);
  }

  lemma FormatOfGoodRequest(id: nat, operation: string, fields: seq<Field>)
    requires 1 <= id <= UINT32_MAX && operation in REQUEST_OPERATIONS && FieldFault(fields, 0).None?
    requires |RequestBody(id, operation, fields)| + 6 <= MAXIMUM_LINE_BYTES
    ensures Printable(RequestBody(id, operation, fields))
    ensures Format(id, operation, fields) == Formatted(Sealed(RequestBody(id, operation, fields)))
  {
    BodyIsPrintable(id, operation, fields);
    SealedParts(RequestBody(id, operation, fields));
  }

  lemma SealedIsReadable(a: string, b: string)
    requires Printable(a) && Printable(b)
    ensures Sealed(a) == Sealed(b) <==> a == b
  {
    SealedParts(a);
    SealedParts(b);
  }

  lemma FormatOfParts(body: string, token: string, operation: string, fields: seq<Field>)
    requires IsSequenceToken(token) && 1 <= ToNat(token) <= UINT32_MAX && operation in REQUEST_OPERATIONS
    requires AreFields(fields) && Split(body, ' ') == ["REQ", token, operation] + FieldTexts(fields)
    requires Printable(body) && |body| + 6 <= MAXIMUM_LINE_BYTES
    ensures Format(ToNat(token), operation, fields) == Formatted(Sealed(body)) <==> token[0] != '0'
  {
    OperationsAreUpperTokens(operation);
    JoinUndoesSplit(body);
    PrintableFieldsAreGood(["REQ", token, operation], fields);
    RebuiltBodyIsNotLonger(body, token, operation, fields);
    FormatOfGoodRequest(ToNat(token), operation, fields);
    RebuildsExactlyWithoutLeadingZero(body, token, operation, fields);
    SealedIsReadable(RequestBody(ToNat(token), operation, fields), body);
  }

  function HelloBody(token: string): string {
    "REQ " + token + " HELLO"
  }

  lemma HelloText(token: string)
    requires IsSequenceToken(token)
    ensures Join(["REQ", token, "HELLO"]) == HelloBody(token)
    ensures Split(HelloBody(token), ' ') == ["REQ", token, "HELLO"]
  {
    var tokens := ["REQ", token, "HELLO"];
    assert tokens[1..] == [token, "HELLO"] && [token, "HELLO"][1..] == ["HELLO"];
    assert Join([token, "HELLO"]) == token + " " + Join(["HELLO"]);
    assert Join(tokens) == HelloBody(token);
    assert ' ' !in "REQ" && ' ' !in token && ' ' !in "HELLO";
    SplitUndoesJoin(tokens);
  }

  lemma HelloIsClean(token: string)
    requires IsSequenceToken(token)
    ensures Printable(HelloBody(token)) && '*' !in HelloBody(token)
  {
    assert Printable("REQ ") && Printable(token) && Printable(" HELLO");
    assert '*' !in "REQ " && '*' !in token && '*' !in " HELLO";
  }

  lemma HelloTokensParse(d: Dialect, token: string, body: string, raw: string, crc: Word)
    requires IsSequenceToken(token) && 1 <= ToNat(token) <= UINT32_MAX
    ensures ParseTokens(d, ["REQ", token, "HELLO"], body, raw, crc)
         == Valid(Frame(Req, ToNat(token), "HELLO", [], body, raw, crc))
  {
    UpperTokenNames();
    assert ["REQ", token, "HELLO"][3..] == [];
  }

  lemma HelloParses(d: Dialect, token: string, body: string)
    requires IsSequenceToken(token) && 1 <= ToNat(token) <= UINT32_MAX
    requires Printable(body) && '*' !in body && 0 < |body| <= 100 && Split(body, ' ') == ["REQ", token, "HELLO"]
    ensures Parse(d, Sealed(body)) == Valid(Frame(Req, ToNat(token), "HELLO", [], body, Sealed(body), BodyCrc(body)))
  {
    EnvelopeOpens(body);
    SealedParts(body);
    HelloTokensParse(d, token, body, Sealed(body), BodyCrc(body));
  }

  lemma HelloFormats(id: nat)
    requires 1 <= id <= UINT32_MAX && IsSequenceToken(OfNat(id))
    ensures Format(id, "HELLO", []) == Formatted(Sealed(HelloBody(OfNat(id))))
  {
    var tokens := ["REQ", OfNat(id), "HELLO"];
    assert tokens + FieldTexts([]) == tokens;
    HelloText(OfNat(id));
    HelloIsClean(OfNat(id));
    FormatOfGoodRequest(id, "HELLO", []);
  }

  lemma OneInDigits()
    ensures OfNat(1) == "1" && IsSequenceToken("01") && ToNat("01") == 1
  {
    assert "0"[..0] == "" && "01"[..1] == "0";
    assert ToNat("0") == 10 * ToNat("") + ValueOf('0');
  }

  // The line of a HELLO under a token is accepted, and formatted again as the line of another.
  ghost predicate ReformatsAs(d: Dialect, token: string, again: string) {
    && IsSequenceToken(token) && IsSequenceToken(again) && Printable(HelloBody(token)) && Printable(HelloBody(again))
    && var line := Sealed(HelloBody(token));
    && Parse(d, line).Valid? && Parse(d, line).frame.kind == Req && line != Sealed(HelloBody(again))
    && var f := Parse(d, line).frame; Format(f.sequence, f.subject, f.fields) == Formatted(Sealed(HelloBody(again)))
  }

  lemma OtherNumeralReformats(d: Dialect, token: string)
    requires IsSequenceToken(token) && 1 <= ToNat(token) <= UINT32_MAX
    requires IsSequenceToken(OfNat(ToNat(token))) && |token| != |OfNat(ToNat(token))|
    ensures ReformatsAs(d, token, OfNat(ToNat(token)))
  {
    var again := OfNat(ToNat(token));
    HelloText(token);
    HelloIsClean(token);
    HelloParses(d, token, HelloBody(token));
    HelloIsClean(again);
    HelloFormats(ToNat(token));
    assert |HelloBody(token)| != |HelloBody(again)|;
    SealedIsReadable(HelloBody(token), HelloBody(again));
  }

  // A request whose sequence is written 01: both parsers accept its line as request 1, for which
  // the formatter writes 1 and so gives another line.
  lemma LeadingZeroIsNotReproduced(d: Dialect)
    ensures ReformatsAs(d, "01", "1")
  {
    OneInDigits();
    OtherNumeralReformats(d, "01");
  }

  // ---------------------------------------------------------------- the two dialects

  // What precedes the sequence token of an input, when the parser gets that far.
  predicate ReachesSequence(input: string) {
    && EnvelopeFault(input).None?
    && var tokens := Split(input[..|input| - 6], ' ');
       |tokens| >= 3 && "" !in tokens && ParseKind(tokens[0]).Some?
  }

  lemma DialectsAgreeOnTokens(tokens: seq<string>, body: string, raw: string, crc: Word)
    ensures var ts, cs := ParseTokens(TypeScript, tokens, body, raw, crc), ParseTokens(CSharp, tokens, body, raw, crc);
      if |tokens| >= 3 && "" !in tokens && ParseKind(tokens[0]).Some? && !IsSequenceToken(tokens[1])
      then ts == Invalid(BadFrame) && cs == Invalid(SequenceOutOfRange)
      else ts == cs
  {
  }

  // Both parsers accept the same inputs with the same frames. They disagree on nothing but the
  // code of a malformed sequence token, and there always.
  lemma DialectsAgree(input: string)
    ensures var ts, cs := Parse(TypeScript, input), Parse(CSharp, input);
      && (ts.Valid? || cs.Valid? ==> ts == cs)
      && (ts != cs <==> ReachesSequence(input) && !IsSequenceToken(Split(input[..|input| - 6], ' ')[1]))
      && (ts != cs ==> ts == Invalid(BadFrame) && cs == Invalid(SequenceOutOfRange))
  {
    if EnvelopeFault(input).None? {
      var body := input[..|input| - 6];
      DialectsAgreeOnTokens(Split(body, ' '), body, input, CrcOfText(input[|input| - 4..]));
    }
  }

  // ---------------------------------------------------------------- corruption

  lemma PrintableParts(a: string, b: string, c: string)
    requires Printable(a + b + c)
    ensures Printable(a) && Printable(b) && Printable(c)
  {
    var s := a + b + c;
    assert forall i :: 0 <= i < |a| ==> a[i] == s[i];
    assert forall i :: 0 <= i < |b| ==> b[i] == s[|a| + i];
    assert forall i :: 0 <= i < |c| ==> c[i] == s[|a| + |b| + i];
  }

  lemma BytesAreReadable(v: string, w: string)
    requires Printable(v) && Printable(w) && Bytes(v) == Bytes(w)
    ensures v == w
  {
    assert |v| == |Bytes(v)| == |w|;
    forall i | 0 <= i < |v| ensures v[i] == w[i] {
      assert Bytes(v)[i] == Bytes(w)[i];
    }
  }

  lemma CorruptionChangesCrc(before: string, v: string, w: string, after: string)
    requires |v| == |w| <= 2 && Printable(before + v + after) && Printable(before + w + after)
    ensures BodyCrc(before + v + after) == BodyCrc(before + w + after) <==> v == w
  {
    PrintableParts(before, v, after);
    PrintableParts(before, w, after);
    assert Bytes(before + v + after) == Bytes(before) + Bytes(v) + Bytes(after);
    assert Bytes(before + w + after) == Bytes(before) + Bytes(w) + Bytes(after);
    AdjacentBytesAreDetected(Bytes(before), Bytes(v), Bytes(w), Bytes(after));
    if Bytes(v) == Bytes(w) {
      BytesAreReadable(v, w);
    }
  }

  // The CRC an open envelope carries is that of its body.
  lemma OpenEnvelopeCarriesCrc(body: string, tail: string)
    requires |tail| == 6 && EnvelopeFault(body + tail).None?
    ensures Printable(body) && IsCrcText(tail[2..]) && BodyCrc(body) == CrcOfText(tail[2..])
  {
    var line := body + tail;
    FramedParts(line);
    assert line[..|line| - 6] == body && line[|line| - 4..] == tail[2..];
  }

  // An accepted line whose body is corrupted within two adjacent characters is never accepted.
  lemma CorruptionIsRejected(d: Dialect, e: Dialect, before: string, v: string, w: string, after: string, tail: string)
    requires |v| == |w| <= 2 && v != w && |tail| == 6
    requires Parse(d, before + v + after + tail).Valid?
    ensures Parse(e, before + w + after + tail).Invalid?
  {
    if EnvelopeFault(before + w + after + tail).None? {
      OpenEnvelopeCarriesCrc(before + v + after, tail);
      OpenEnvelopeCarriesCrc(before + w + after, tail);
      CorruptionChangesCrc(before, v, w, after);
    }
  }
}
