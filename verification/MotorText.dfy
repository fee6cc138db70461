/**
What the texts of a joint snapshot mean, character by character: masks as hexadecimal digits,
decimals, lists separated by commas.
*/
module MotorText {
  import opened Wrappers
  import opened DecimalText
  import opened Crc16
  import AsciiCodec
  import opened AsciiFrame
  import opened MotorFrame

  // ---------------------------------------------------------------- masks

  // The bits of a hexadecimal digit, by its table.
  predicate DigitBit(c: char, i: nat) {
    if i == 0 then c in "13579BDF"
    else if i == 1 then c in "2367ABEF"
    else if i == 2 then c in "4567CDEF"
    else i == 3 && c in "89ABCDEF"
  }

  // A mask text: 0x and one or two digits 0..9, A..F.
  predicate IsMaskText(t: string) {
    && 3 <= |t| <= 4 && t[0] == '0' && t[1] == 'x'
    && forall i :: 2 <= i < |t| ==> '0' <= t[i] <= '9' || 'A' <= t[i] <= 'F'
  }

  // Bit i of a mask text: of its last digit, or of the digit before it.
  predicate MaskBit(t: string, i: nat) {
    |t| >= 3 && if i < 4 then DigitBit(t[|t| - 1], i) else |t| == 4 && DigitBit(t[2], i - 4)
  }

  lemma DigitHasBits(c: char)
    requires IsHexDigit(c)
    ensures DigitBit(c, 0) <==> HexValue(c) % 2 == 1
    ensures DigitBit(c, 1) <==> HexValue(c) / 2 % 2 == 1
    ensures DigitBit(c, 2) <==> HexValue(c) / 4 % 2 == 1
    ensures DigitBit(c, 3) <==> HexValue(c) / 8 % 2 == 1
    ensures HexValue(c) < 16
  {
  }

  lemma SmallPowers()
    ensures Pow2(0) == 1 && Pow2(1) == 2 && Pow2(2) == 4 && Pow2(3) == 8
    ensures Pow2(4) == 16 && Pow2(5) == 32 && Pow2(6) == 64 && Pow2(7) == 128
  {
  }

  lemma HexPair(s: string)
    requires 1 <= |s| <= 2 && forall i :: 0 <= i < |s| ==> IsHexDigit(s[i])
    ensures HexNumber(s) == if |s| == 1 then HexValue(s[0]) else 16 * HexValue(s[0]) + HexValue(s[1])
  {
    assert s[..|s| - 1] == if |s| == 1 then "" else [s[0]];
    if |s| == 2 {
      assert [s[0]][..0] == "";
    }
  }

  lemma PairBits(a: nat, b: nat, i: nat)
    requires a < 16 && b < 16 && i < 8
    ensures Bit(16 * a + b, i) <==> if i < 4 then Bit(b, i) else Bit(a, i - 4)
  {
    SmallPowers();
    if i < 4 {
      LowBits(a, b, i);
    } else {
      assert (16 * a + b) / 16 == a;
      HighBits(a, b, i);
    }
  }

  lemma LowBits(a: nat, b: nat, i: nat)
    requires a < 16 && b < 16 && i < 4
    ensures Bit(16 * a + b, i) <==> Bit(b, i)
  {
    SmallPowers();
    if i == 0 {
      assert (16 * a + b) % 2 == b % 2;
    } else if i == 1 {
      assert (16 * a + b) / 2 == 8 * a + b / 2;
    } else if i == 2 {
      assert (16 * a + b) / 4 == 4 * a + b / 4;
    } else {
      assert (16 * a + b) / 8 == 2 * a + b / 8;
    }
  }

  lemma HighBits(a: nat, b: nat, i: nat)
    requires a < 16 && b < 16 && 4 <= i < 8
    ensures Bit(16 * a + b, i) <==> Bit(a, i - 4)
  {
    SmallPowers();
    if i == 4 {
      assert (16 * a + b) / 16 == a;
    } else if i == 5 {
      assert (16 * a + b) / 32 == a / 2;
    } else if i == 6 {
      assert (16 * a + b) / 64 == a / 4;
    } else {
      assert (16 * a + b) / 128 == a / 8;
    }
  }

  lemma DigitBitIsBit(c: char, i: nat)
    requires IsHexDigit(c) && i < 4
    ensures DigitBit(c, i) <==> Bit(HexValue(c), i)
  {
    DigitHasBits(c);
    SmallPowers();
  }

  // The number of a mask text has exactly the bits of its digits.
  lemma TextHasBits(t: string, i: nat)
    requires IsMaskText(t) && i < 8
    ensures Bit(HexNumber(t[2..]), i) <==> MaskBit(t, i)
  {
    var s := t[2..];
    HexPair(s);
    DigitHasBits(t[2]);
    DigitHasBits(t[|t| - 1]);
    if |t| == 4 {
      PairBits(HexValue(t[2]), HexValue(t[3]), i);
      DigitBitIsBit(if i < 4 then t[3] else t[2], if i < 4 then i else i - 4);
    } else {
      PairBits(0, HexValue(t[2]), i);
      if i < 4 {
        DigitBitIsBit(t[2], i);
      } else {
        SmallPowers();
      }
    }
  }

  lemma TextIsBelow(t: string)
    requires IsMaskText(t)
    ensures HexNumber(t[2..]) >= 128 <==> MaskBit(t, 7)
  {
    HexPair(t[2..]);
    DigitHasBits(t[2]);
    DigitHasBits(t[|t| - 1]);
  }

  // A mask is accepted exactly when its text is one of those and names no eighth joint.
  lemma MaskAcceptedExactlyWhen(t: string)
    ensures ParseMask(Some(t)).Some? <==> IsMaskText(t) && !MaskBit(t, 7)
    ensures ParseMask(Some(t)).Some? ==> ParseMask(Some(t)).value == HexNumber(t[2..])
  {
    if |t| >= 2 {
      assert t[..2] == "0x" <==> t[0] == '0' && t[1] == 'x';
    }
    if IsMaskText(t) {
      TextIsBelow(t);
    }
  }

  // The accepted mask has, bit for bit, the digits of its text.
  lemma MaskHasItsDigits(t: string, i: nat)
    requires ParseMask(Some(t)).Some? && i < 8
    ensures Bit(ParseMask(Some(t)).value, i) <==> MaskBit(t, i)
  {
    MaskAcceptedExactlyWhen(t);
    TextHasBits(t, i);
  }

  const HEX_DIGITS: string := "0123456789ABCDEF"

  // Every mask of seven joints is read from its hexadecimal text, of two digits or of one.
  lemma EveryMaskIsRead(n: nat)
    requires n < 128
    ensures ParseMask(Some(['0', 'x', HEX_DIGITS[n / 16], HEX_DIGITS[n % 16]])) == Some(n)
    ensures n < 16 ==> ParseMask(Some(['0', 'x', HEX_DIGITS[n]])) == Some(n)
  {
    HexDigitsAreDigits(n / 16);
    HexDigitsAreDigits(n % 16);
    var two := ['0', 'x', HEX_DIGITS[n / 16], HEX_DIGITS[n % 16]];
    assert two[2..] == [HEX_DIGITS[n / 16], HEX_DIGITS[n % 16]] && two[..2] == "0x";
    HexPair(two[2..]);
    if n < 16 {
      var one := ['0', 'x', HEX_DIGITS[n]];
      assert one[2..] == [HEX_DIGITS[n]] && one[..2] == "0x";
      HexPair(one[2..]);
    }
  }

  lemma HexDigitsAreDigits(d: nat)
    requires d < 16
    ensures IsHexDigit(HEX_DIGITS[d]) && HexValue(HEX_DIGITS[d]) == d
  {
  }

  // ---------------------------------------------------------------- decimals

  predicate AreDigits(s: string) {
    forall i :: 0 <= i < |s| ==> '0' <= s[i] <= '9'
  }

  predicate IsSign(s: string) {
    s == "" || s == "+" || s == "-"
  }

  // A sign or none, digits, and perhaps a point with digits behind it; one digit at least.
  ghost predicate IsDecimalOf(token: string, sign: string, whole: string, fraction: Option<string>) {
    && IsSign(sign) && AreDigits(whole)
    && match fraction
       case None => whole != "" && token == sign + whole
       case Some(f) => AreDigits(f) && whole + f != "" && token == sign + whole + "." + f
  }

  lemma SplitsAtPoint(digits: string) returns (whole: string, fraction: Option<string>)
    requires IsPointedDigits(digits)
    ensures AreDigits(whole) && (fraction.Some? ==> AreDigits(fraction.value)) && digits == Pointed(whole, fraction)
    ensures whole != "" || (fraction.Some? && fraction.value != "")
  {
    var i := IndexOf(digits, '.');
    if i == -1 {
      whole, fraction := digits, None;
    } else {
      var f := digits[i + 1..];
      whole, fraction := digits[..i], Some(f);
      assert digits == whole + [digits[i]] + f;
      forall k | 0 <= k < |f| ensures '0' <= f[k] <= '9' {
        assert f[k] == digits[i + 1 + k] && digits[i] == '.';
      }
      var k :| 0 <= k < |digits| && IsDigit(digits[k]);
    }
  }

  function Pointed(whole: string, fraction: Option<string>): string {
    if fraction.None? then whole else whole + "." + fraction.value
  }

  lemma DecimalParts(token: string) returns (sign: string, whole: string, fraction: Option<string>)
    requires IsDecimalText(token)
    ensures IsDecimalOf(token, sign, whole, fraction)
  {
    var digits := Unsigned(token);
    whole, fraction := SplitsAtPoint(digits);
    sign := token[..|token| - |digits|];
    SignedIs(token, sign, whole, fraction);
  }

  lemma SignedIs(token: string, sign: string, whole: string, fraction: Option<string>)
    requires Unsigned(token) == Pointed(whole, fraction) && sign == token[..|token| - |Unsigned(token)|]
    ensures IsSign(sign)
    ensures token == if fraction.None? then sign + whole else sign + whole + "." + fraction.value
  {
    assert token == sign + Pointed(whole, fraction);
    if fraction.Some? {
      assert sign + (whole + "." + fraction.value) == sign + whole + "." + fraction.value;
    }
  }

  lemma PartsArePointed(whole: string, fraction: Option<string>)
    requires AreDigits(whole) && (fraction.None? ==> whole != "")
    requires fraction.Some? ==> AreDigits(fraction.value) && whole + fraction.value != ""
    ensures IsPointedDigits(Pointed(whole, fraction))
  {
    var digits := Pointed(whole, fraction);
    assert forall i :: 0 <= i < |whole| ==> digits[i] == whole[i];
    if fraction.Some? {
      assert digits[|whole|] == '.';
      assert forall i :: |whole| < i < |digits| ==> digits[i] == fraction.value[i - |whole| - 1];
      assert IsDigit(if whole != "" then digits[0] else digits[1]);
    } else {
      assert IsDigit(digits[0]);
    }
  }

  lemma UnsignedIs(token: string, sign: string, digits: string)
    requires IsSign(sign) && token == sign + digits && digits != "" && digits[0] != '-' && digits[0] != '+'
    ensures Unsigned(token) == digits
  {
    if sign == "" {
      assert token == digits;
    } else {
      assert token[1..] == digits;
    }
  }

  lemma PartsAreDecimal(token: string, sign: string, whole: string, fraction: Option<string>)
    requires IsDecimalOf(token, sign, whole, fraction)
    ensures IsDecimalText(token)
  {
    var digits := Pointed(whole, fraction);
    PartsArePointed(whole, fraction);
    assert token == sign + digits;
    UnsignedIs(token, sign, digits);
  }

  // Exactly the texts of that form are read as decimals.
  lemma DecimalExactlyWhen(token: string)
    ensures IsDecimalText(token) <==> exists sign, whole, fraction :: IsDecimalOf(token, sign, whole, fraction)
  {
    if IsDecimalText(token) {
      var sign, whole, fraction := DecimalParts(token);
    }
    if sign, whole, fraction :| IsDecimalOf(token, sign, whole, fraction) {
      PartsAreDecimal(token, sign, whole, fraction);
    }
  }

  // ---------------------------------------------------------------- lists

  // The text is the tokens, separated by commas.
  predicate IsListOf(text: string, tokens: seq<string>)
    decreases |tokens|
  {
    && tokens != [] && ',' !in tokens[0]
    && (if |tokens| == 1 then text == tokens[0]
        else |tokens[0]| < |text| && text[..|tokens[0]|] == tokens[0] && text[|tokens[0]|] == ','
             && IsListOf(text[|tokens[0]| + 1..], tokens[1..]))
  }

  lemma {:induction false} SplitIsTheList(text: string)
    ensures IsListOf(text, Split(text, ','))
    decreases |text|
  {
    var i := IndexOf(text, ',');
    if i != -1 {
      SplitIsTheList(text[i + 1..]);
    }
  }

  lemma {:induction false} ListIsUnique(text: string, tokens: seq<string>)
    requires IsListOf(text, tokens)
    ensures tokens == Split(text, ',')
    decreases |tokens|
  {
    if |tokens| > 1 {
      var n := |tokens[0]|;
      AsciiCodec.IndexIsUnique(text, ',', n);
      ListIsUnique(text[n + 1..], tokens[1..]);
    }
  }

  // Seven decimals are read exactly from a list of seven decimal tokens that are numbers, each value
  // from its own token.
  lemma SevenDecimalsAreRead(read: Reader, text: string, tokens: seq<string>)
    requires IsListOf(text, tokens)
    ensures SevenDecimals(read, Some(text)).Some?
       <==> |tokens| == 7 && forall i :: 0 <= i < 7 ==> IsDecimalText(tokens[i]) && read(tokens[i]).Some?
    ensures SevenDecimals(read, Some(text)).Some? ==>
      forall i :: 0 <= i < 7 ==> read(tokens[i]) == Some(SevenDecimals(read, Some(text)).value[i])
  {
    ListIsUnique(text, tokens);
    EachIsRead(read, tokens);
  }

  lemma {:induction false} EachIsRead(read: Reader, tokens: seq<string>)
    ensures ReadAll(read, tokens).Some?
       <==> forall i :: 0 <= i < |tokens| ==> IsDecimalText(tokens[i]) && read(tokens[i]).Some?
    ensures ReadAll(read, tokens).Some? ==>
      |ReadAll(read, tokens).value| == |tokens|
      && forall i :: 0 <= i < |tokens| ==> read(tokens[i]) == Some(ReadAll(read, tokens).value[i])
  {
    if tokens != [] {
      EachIsRead(read, tokens[1..]);
      assert tokens == [tokens[0]] + tokens[1..];
    }
  }

  // An unexpected ID: digits of a byte that is no motor ID.
  predicate IsForeignId(token: string) {
    token != "" && AreDigits(token) && ToNat(token) <= 255 && (ToNat(token) == 0 || ToNat(token) > 7)
  }

  ghost predicate AreForeignIds(tokens: seq<string>, previous: int) {
    && (forall i :: 0 <= i < |tokens| ==> IsForeignId(tokens[i]) && ToNat(tokens[i]) > previous)
    && (forall i, j :: 0 <= i < j < |tokens| ==> ToNat(tokens[i]) < ToNat(tokens[j]))
  }

  lemma {:induction false} ForeignIdsParse(tokens: seq<string>, previous: int)
    ensures ParseIds(tokens, previous).Some? <==> AreForeignIds(tokens, previous)
    ensures ParseIds(tokens, previous).Some? ==>
      |ParseIds(tokens, previous).value| == |tokens|
      && forall i :: 0 <= i < |tokens| ==> ParseIds(tokens, previous).value[i] == ToNat(tokens[i])
    decreases |tokens|
  {
    if tokens != [] {
      var rest := tokens[1..];
      assert tokens == [tokens[0]] + rest;
      if IsForeignId(tokens[0]) {
        var id := ToNat(tokens[0]);
        ForeignIdsParse(rest, id);
        assert AreForeignIds(tokens, previous) <==> id > previous && AreForeignIds(rest, id) by {
          if AreForeignIds(tokens, previous) {
            assert forall i :: 0 <= i < |rest| ==> rest[i] == tokens[i + 1];
          }
          if id > previous && AreForeignIds(rest, id) {
            assert forall i :: 1 <= i < |tokens| ==> tokens[i] == rest[i - 1];
          }
        }
      }
    }
  }

  // The unexpected IDs are none, or at most 32 ascending IDs, read each from its own token.
  lemma UnexpectedIdsAreRead(text: string, tokens: seq<string>)
    requires IsListOf(text, tokens)
    ensures text == "none" ==> ParseUnexpectedIds(Some(text)) == Some([])
    ensures text != "none" ==>
      && (ParseUnexpectedIds(Some(text)).Some? <==> |tokens| <= 32 && AreForeignIds(tokens, -1))
      && (ParseUnexpectedIds(Some(text)).Some? ==>
            |ParseUnexpectedIds(Some(text)).value| == |tokens|
            && forall i :: 0 <= i < |tokens| ==> ParseUnexpectedIds(Some(text)).value[i] == ToNat(tokens[i]))
  {
    ListIsUnique(text, tokens);
    ForeignIdsParse(tokens, -1);
  }
}
