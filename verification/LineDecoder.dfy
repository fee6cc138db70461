/**
The two chunked line decoders of the Aethor ASCII protocol. Both are proved against one
byte-at-a-time function, and that function against a description of the records a whole
line yields, in which no decoder state appears.
*/
module LineDecoder {
  import opened Wrappers
  import opened Crc16

  const MAXIMUM_LINE_BYTES: nat := 512

  const LF: Byte := 0x0a
  const CR: Byte := 0x0d

  datatype Reason = Overlong | NonAscii | ControlCharacter | Incomplete

  datatype Record = Line(line: string) | Discarded(reason: Reason, preview: string)

  datatype State = State(buffer: string, pendingCr: bool, discardReason: Option<Reason>)

  const FRESH: State := State("", false, None)

  predicate IsPrintable(b: Byte) {
    0x20 <= b <= 0x7e
  }

  function Finished(s: State): seq<Record> {
    if s.discardReason.Some? then [Discarded(s.discardReason.value, s.buffer)]
    else if s.buffer != "" then [Line(s.buffer)]
    else []
  }

  function Refusal(b: Byte): Reason {
    if b > 0x7f then NonAscii else ControlCharacter
  }

  function Next(s: State, b: Byte): (State, seq<Record>) {
    if b == LF then (FRESH, Finished(s))
    else if s.discardReason.Some? then (s, [])
    else if s.pendingCr then (s.(discardReason := Some(ControlCharacter)), [])
    else if b == CR then (s.(pendingCr := true), [])
    else if !IsPrintable(b) then (s.(discardReason := Some(Refusal(b))), [])
    else if |s.buffer| < MAXIMUM_LINE_BYTES then (s.(buffer := s.buffer + [b as char]), [])
    else (s.(discardReason := Some(Overlong)), [])
  }

  // The state after a run of bytes, and the records it yields on the way.
  function After(s: State, bytes: seq<Byte>): State
    decreases |bytes|
  {
    if bytes == [] then s else After(Next(s, bytes[0]).0, bytes[1..])
  }

  function Output(s: State, bytes: seq<Byte>): seq<Record>
    decreases |bytes|
  {
    if bytes == [] then [] else Next(s, bytes[0]).1 + Output(Next(s, bytes[0]).0, bytes[1..])
  }

  // ---------------------------------------------------------------- the TypeScript decoder

  predicate Bounded(s: State) {
    |s.buffer| <= MAXIMUM_LINE_BYTES
  }

  // One byte of the chunk: the buffer is cut back after it overflows.
  method DecodeByte(initial: State, value: Byte) returns (state: State, records: seq<Record>)
    requires Bounded(initial)
    ensures Bounded(state) && state == Next(initial, value).0 && records == Next(initial, value).1
  {
    var buffer, pendingCr, discardReason := initial.buffer, initial.pendingCr, initial.discardReason;
    records := [];
    if value == 0x0a {
      if discardReason.Some? {
        records := [Discarded(discardReason.value, buffer)];
      } else if buffer != "" {
        records := [Line(buffer)];
      }
      buffer, pendingCr, discardReason := "", false, None;
    } else if discardReason.Some? {
    } else if pendingCr {
      discardReason := Some(ControlCharacter);
    } else if value == 0x0d {
      pendingCr := true;
    } else if value < 0x20 || value > 0x7e {
      discardReason := Some(if value > 0x7f then NonAscii else ControlCharacter);
    } else {
      buffer := buffer + [value as char];
      if |buffer| > MAXIMUM_LINE_BYTES {
        buffer := buffer[..MAXIMUM_LINE_BYTES];
        discardReason := Some(Overlong);
        assert buffer == initial.buffer;
      }
    }
    state := State(buffer, pendingCr, discardReason);
  }

  // Decoder state in, decoder state and records out.
  method DecodeChunk(initial: State, chunk: seq<Byte>) returns (state: State, records: seq<Record>)
    requires Bounded(initial)
    ensures Bounded(state) && state == After(initial, chunk) && records == Output(initial, chunk)
  {
    state, records := initial, [];
    for i := 0 to |chunk|
      invariant Bounded(state)
      invariant After(state, chunk[i..]) == After(initial, chunk)
      invariant records + Output(state, chunk[i..]) == Output(initial, chunk)
    {
      assert chunk[i..][1..] == chunk[i + 1..];
      var more;
      state, more := DecodeByte(state, chunk[i]);
      records := records + more;
    }
  }

  // ---------------------------------------------------------------- the C# decoder

  class AethorArmAsciiLineDecoder {
    var buffer: string
    var pendingCarriageReturn: bool
    var discardReason: Option<Reason>

    function View(): State
      reads this
    {
      State(buffer, pendingCarriageReturn, discardReason)
    }

    constructor ()
      ensures View() == FRESH
    {
      buffer, pendingCarriageReturn, discardReason := "", false, None;
    }

    method Reset()
      modifies this
      ensures View() == FRESH
    {
      buffer, pendingCarriageReturn, discardReason := "", false, None;
    }

    method FinishRecord(records: seq<Record>) returns (more: seq<Record>)
      modifies this
      ensures View() == FRESH && more == records + old(Finished(View()))
    {
      more := records;
      if discardReason.Some? {
        more := more + [Discarded(discardReason.value, buffer)];
      } else if |buffer| > 0 {
        more := more + [Line(buffer)];
      }
      Reset();
    }

    method AppendByte(value: Byte, records: seq<Record>) returns (more: seq<Record>)
      modifies this
      ensures View() == Next(old(View()), value).0 && more == records + Next(old(View()), value).1
    {
      more := records;
      if value == LF {
        more := FinishRecord(more);
      } else if discardReason.Some? {
      } else if pendingCarriageReturn {
        discardReason := Some(ControlCharacter);
      } else if value == CR {
        pendingCarriageReturn := true;
      } else if value < 0x20 || value > 0x7e {
        discardReason := Some(if value > 0x7f then NonAscii else ControlCharacter);
      } else if |buffer| < MAXIMUM_LINE_BYTES {
        buffer := buffer + [value as char];
      } else {
        discardReason := Some(Overlong);
      }
    }

    method Append(chunk: seq<Byte>) returns (records: seq<Record>)
      modifies this
      ensures View() == After(old(View()), chunk) && records == Output(old(View()), chunk)
    {
      records := [];
      ghost var initial, state := View(), View();
      for i := 0 to |chunk|
        invariant View() == state
        invariant After(state, chunk[i..]) == After(initial, chunk)
        invariant records + Output(state, chunk[i..]) == Output(initial, chunk)
      {
        assert chunk[i..][1..] == chunk[i + 1..];
        records := AppendByte(chunk[i], records);
        state := View();
      }
    }

    // What is left at the end of the stream is reported, never taken for a line.
    method Finish() returns (record: Option<Record>)
      modifies this
      ensures View() == FRESH
      ensures record == old(AtEnd(View()))
    {
      if |buffer| == 0 && !pendingCarriageReturn && discardReason.None? {
        return None;
      }
      record := Some(Discarded(if discardReason.Some? then discardReason.value else Incomplete, buffer));
      Reset();
    }
  }

  function AtEnd(s: State): Option<Record> {
    if s == FRESH then None
    else Some(Discarded(if s.discardReason.Some? then s.discardReason.value else Incomplete, s.buffer))
  }

  // ---------------------------------------------------------------- chunking does not matter

  lemma {:induction false} DecodeConcat(s: State, a: seq<Byte>, b: seq<Byte>)
    ensures After(s, a + b) == After(After(s, a), b)
    ensures Output(s, a + b) == Output(s, a) + Output(After(s, a), b)
    decreases |a|
  {
    if a == [] {
      assert a + b == b;
    } else {
      assert (a + b)[1..] == a[1..] + b;
      DecodeConcat(Next(s, a[0]).0, a[1..], b);
    }
  }

  function Flatten(chunks: seq<seq<Byte>>): seq<Byte> {
    if chunks == [] then [] else chunks[0] + Flatten(chunks[1..])
  }

  function AfterChunks(s: State, chunks: seq<seq<Byte>>): State
    decreases |chunks|
  {
    if chunks == [] then s else AfterChunks(After(s, chunks[0]), chunks[1..])
  }

  function OutputOfChunks(s: State, chunks: seq<seq<Byte>>): seq<Record>
    decreases |chunks|
  {
    if chunks == [] then [] else Output(s, chunks[0]) + OutputOfChunks(After(s, chunks[0]), chunks[1..])
  }

  lemma {:induction false} ChunkingDoesNotMatter(s: State, chunks: seq<seq<Byte>>)
    ensures AfterChunks(s, chunks) == After(s, Flatten(chunks))
    ensures OutputOfChunks(s, chunks) == Output(s, Flatten(chunks))
    decreases |chunks|
  {
    if chunks != [] {
      DecodeConcat(s, chunks[0], Flatten(chunks[1..]));
      ChunkingDoesNotMatter(After(s, chunks[0]), chunks[1..]);
    }
  }

  // ---------------------------------------------------------------- what a line yields

  function PrintablePrefix(line: seq<Byte>): (k: nat)
    ensures k <= |line| && (forall i :: 0 <= i < k ==> IsPrintable(line[i]))
    ensures k < |line| ==> !IsPrintable(line[k])
  {
    if line == [] || !IsPrintable(line[0]) then 0 else 1 + PrintablePrefix(line[1..])
  }

  function Text(bytes: seq<Byte>): string {
    seq(|bytes|, i requires 0 <= i < |bytes| => bytes[i] as char)
  }

  function LineRecord(text: string): seq<Record> {
    if text == "" then [] else [Line(text)]
  }

  // The records of one LF-terminated line: its printable prefix decides.
  function RecordsOfLine(line: seq<Byte>): seq<Record> {
    var k := PrintablePrefix(line);
    if k > MAXIMUM_LINE_BYTES then [Discarded(Overlong, Text(line[..MAXIMUM_LINE_BYTES]))]
    else if k == |line| || (line[k] == CR && k + 1 == |line|) then LineRecord(Text(line[..k]))
    else [Discarded(if line[k] == CR then ControlCharacter else Refusal(line[k]), Text(line[..k]))]
  }

  lemma {:induction false} DiscardingGoesOn(s: State, line: seq<Byte>)
    requires s.discardReason.Some? && LF !in line
    ensures After(s, line) == s && Output(s, line) == []
    decreases |line|
  {
    if line != [] {
      DiscardingGoesOn(s, line[1..]);
    }
  }

  lemma {:induction false} PrintableRunFills(buffer: string, run: seq<Byte>)
    requires forall i :: 0 <= i < |run| ==> IsPrintable(run[i])
    requires |buffer| + |run| <= MAXIMUM_LINE_BYTES
    ensures After(State(buffer, false, None), run) == State(buffer + Text(run), false, None)
    ensures Output(State(buffer, false, None), run) == []
    decreases |run|
  {
    if run == [] {
      assert buffer + Text(run) == buffer;
    } else {
      PrintableRunFills(buffer + [run[0] as char], run[1..]);
      assert buffer + [run[0] as char] + Text(run[1..]) == buffer + Text(run);
    }
  }

  // After a printable run: what one more byte and a rest without line feed lead to.
  lemma RunThenByte(run: seq<Byte>, b: Byte, rest: seq<Byte>)
    requires (forall i :: 0 <= i < |run| ==> IsPrintable(run[i])) && |run| <= MAXIMUM_LINE_BYTES
    ensures var s := Next(State(Text(run), false, None), b);
      && After(FRESH, run + [b] + rest) == After(s.0, rest)
      && Output(FRESH, run + [b] + rest) == s.1 + Output(s.0, rest)
  {
    PrintableRunFills("", run);
    assert "" + Text(run) == Text(run);
    DecodeConcat(FRESH, run, [b] + rest);
    assert run + [b] + rest == run + ([b] + rest);
    assert ([b] + rest)[1..] == rest;
  }

  lemma SpoiledLineLeaves(run: seq<Byte>, b: Byte, rest: seq<Byte>)
    requires (forall i :: 0 <= i < |run| ==> IsPrintable(run[i])) && |run| <= MAXIMUM_LINE_BYTES
    requires b != CR && (IsPrintable(b) ==> |run| == MAXIMUM_LINE_BYTES) && b != LF && LF !in rest
    ensures Output(FRESH, run + [b] + rest) == []
    ensures Finished(After(FRESH, run + [b] + rest))
         == [Discarded(if IsPrintable(b) then Overlong else Refusal(b), Text(run))]
  {
    RunThenByte(run, b, rest);
    DiscardingGoesOn(Next(State(Text(run), false, None), b).0, rest);
  }

  lemma ReturnedLineLeaves(run: seq<Byte>, rest: seq<Byte>)
    requires (forall i :: 0 <= i < |run| ==> IsPrintable(run[i])) && |run| <= MAXIMUM_LINE_BYTES && LF !in rest
    ensures Output(FRESH, run + [CR] + rest) == []
    ensures Finished(After(FRESH, run + [CR] + rest))
         == if rest == [] then LineRecord(Text(run)) else [Discarded(ControlCharacter, Text(run))]
  {
    RunThenByte(run, CR, rest);
    if rest != [] {
      var s := State(Text(run), true, None);
      DiscardingGoesOn(Next(s, rest[0]).0, rest[1..]);
    }
  }

  lemma LineLeaves(line: seq<Byte>)
    requires LF !in line
    ensures Output(FRESH, line) == [] && Finished(After(FRESH, line)) == RecordsOfLine(line)
  {
    var k := PrintablePrefix(line);
    if k == |line| <= MAXIMUM_LINE_BYTES {
      PrintableRunFills("", line);
      assert "" + Text(line) == Text(line) && line[..k] == line;
    } else {
      var n := if k > MAXIMUM_LINE_BYTES then MAXIMUM_LINE_BYTES else k;
      assert line == line[..n] + [line[n]] + line[n + 1..];
      if line[n] == CR {
        ReturnedLineLeaves(line[..n], line[n + 1..]);
      } else {
        SpoiledLineLeaves(line[..n], line[n], line[n + 1..]);
      }
    }
  }

  // Whatever a line holds, the decoder reports exactly its records and starts afresh after it.
  lemma EachLineIsDecodedAlone(line: seq<Byte>, rest: seq<Byte>)
    requires LF !in line
    ensures After(FRESH, line + [LF] + rest) == After(FRESH, rest)
    ensures Output(FRESH, line + [LF] + rest) == RecordsOfLine(line) + Output(FRESH, rest)
  {
    LineLeaves(line);
    DecodeConcat(FRESH, line, [LF] + rest);
    assert ([LF] + rest)[1..] == rest;
    assert line + [LF] + rest == line + ([LF] + rest);
  }

  // The ASCII encoding of a text; a character it lacks becomes a question mark.
  function AsciiCode(c: char): Byte {
    if c as int < 128 then c as int else '?' as int
  }

  function Bytes(text: string): seq<Byte> {
    seq(|text|, i requires 0 <= i < |text| => AsciiCode(text[i]))
  }

  // The line starts with k printable characters, and no more.
  predicate StartsPrintable(line: seq<Byte>, k: nat) {
    && k <= |line| && (forall i :: 0 <= i < k ==> 0x20 <= line[i] <= 0x7e)
    && (k < |line| ==> line[k] < 0x20 || line[k] > 0x7e)
  }

  lemma {:induction false} PrefixIsUnique(line: seq<Byte>, k: nat)
    requires StartsPrintable(line, k)
    ensures PrintablePrefix(line) == k
    decreases |line|
  {
    if k > 0 {
      PrefixIsUnique(line[1..], k - 1);
    }
  }

  // A line of printable characters with at most a carriage return at its end is reported as such,
  // without it, unless it is empty; any other is discarded, with what it starts with and a reason:
  // more than 512 printable characters, a character beyond ASCII, or a control character.
  lemma LineIsReported(line: seq<Byte>, k: nat)
    requires 0x0a !in line && StartsPrintable(line, k)
    ensures Output(FRESH, line + [0x0a])
         == if k > 512 then [Discarded(Overlong, Text(line[..512]))]
            else if k == |line| || (k == |line| - 1 && line[k] == 0x0d) then
              if k == 0 then [] else [Line(Text(line[..k]))]
            else [Discarded(if line[k] > 0x7f then NonAscii else ControlCharacter, Text(line[..k]))]
  {
    PrefixIsUnique(line, k);
    EachLineIsDecodedAlone(line, []);
    assert line + [0x0a] + [] == line + [0x0a];
  }

  lemma SpoiledLineStays(run: seq<Byte>, b: Byte, rest: seq<Byte>)
    requires (forall i :: 0 <= i < |run| ==> IsPrintable(run[i])) && |run| <= MAXIMUM_LINE_BYTES
    requires b != CR && (IsPrintable(b) ==> |run| == MAXIMUM_LINE_BYTES) && b != LF && LF !in rest
    ensures After(FRESH, run + [b] + rest)
         == State(Text(run), false, Some(if IsPrintable(b) then Overlong else Refusal(b)))
  {
    RunThenByte(run, b, rest);
    DiscardingGoesOn(Next(State(Text(run), false, None), b).0, rest);
  }

  lemma ReturnedLineStays(run: seq<Byte>, rest: seq<Byte>)
    requires (forall i :: 0 <= i < |run| ==> IsPrintable(run[i])) && |run| <= MAXIMUM_LINE_BYTES && LF !in rest
    ensures After(FRESH, run + [CR] + rest)
         == State(Text(run), true, if rest == [] then None else Some(ControlCharacter))
  {
    RunThenByte(run, CR, rest);
    if rest != [] {
      var s := State(Text(run), true, None);
      DiscardingGoesOn(Next(s, rest[0]).0, rest[1..]);
    }
  }

  lemma PrintableLineStays(line: seq<Byte>)
    requires (forall i :: 0 <= i < |line| ==> IsPrintable(line[i])) && |line| <= MAXIMUM_LINE_BYTES
    ensures After(FRESH, line) == State(Text(line), false, None) && line[..|line|] == line
  {
    PrintableRunFills("", line);
    assert "" + Text(line) == Text(line);
  }

  lemma BrokenLineStays(line: seq<Byte>, n: nat)
    requires LF !in line && n < |line| && n <= MAXIMUM_LINE_BYTES && forall i :: 0 <= i < n ==> IsPrintable(line[i])
    requires IsPrintable(line[n]) ==> n == MAXIMUM_LINE_BYTES
    ensures After(FRESH, line)
         == State(Text(line[..n]), line[n] == CR,
                  if line[n] != CR then Some(if IsPrintable(line[n]) then Overlong else Refusal(line[n]))
                  else if n + 1 == |line| then None else Some(ControlCharacter))
  {
    var run, b, rest := line[..n], line[n], line[n + 1..];
    assert line == run + [b] + rest;
    if b == CR {
      ReturnedLineStays(run, rest);
    } else {
      SpoiledLineStays(run, b, rest);
    }
  }

  // What is left when the stream ends is discarded whatever it is: as incomplete if a line feed
  // would have made a line of it, and else for the reason it would have been discarded for.
  lemma RestIsReported(line: seq<Byte>, k: nat)
    requires 0x0a !in line && StartsPrintable(line, k)
    ensures AtEnd(After(FRESH, line))
         == if line == [] then None
            else if k > 512 then Some(Discarded(Overlong, Text(line[..512])))
            else if k == |line| || (k == |line| - 1 && line[k] == 0x0d) then Some(Discarded(Incomplete, Text(line[..k])))
            else Some(Discarded(if line[k] > 0x7f then NonAscii else ControlCharacter, Text(line[..k])))
  {
    if k == |line| <= 512 {
      PrintableLineStays(line);
    } else {
      var n := if k > 512 then 512 else k;
      BrokenLineStays(line, n);
    }
  }

  // A printable line within the limit comes back as that one line, in any chunking.
  lemma PrintableLineSurvives(line: string, chunks: seq<seq<Byte>>)
    requires line != "" && |line| <= MAXIMUM_LINE_BYTES
    requires forall i :: 0 <= i < |line| ==> ' ' <= line[i] <= '~'
    requires Flatten(chunks) == Bytes(line) + [LF]
    ensures AfterChunks(FRESH, chunks) == FRESH && OutputOfChunks(FRESH, chunks) == [Line(line)]
  {
    var bytes := Bytes(line);
    ChunkingDoesNotMatter(FRESH, chunks);
    EachLineIsDecodedAlone(bytes, []);
    assert bytes + [LF] + [] == Flatten(chunks);
    assert bytes[..|bytes|] == bytes;
    assert Text(bytes) == line;
  }
}
