/** Decimal numerals as the programs print and read them, in the invariant culture. */
module DecimalText {

  predicate IsDigit(c: char) {
    '0' <= c <= '9'
  }

  predicate AllDigits(s: string) {
    forall i :: 0 <= i < |s| ==> IsDigit(s[i])
  }

  function DigitOf(d: nat): char
    requires d < 10
  {
    ('0' as int + d) as char
  }

  function ValueOf(c: char): nat
    requires IsDigit(c)
  {
    c as int - '0' as int
  }

  // The numeral of a number, without leading zeros.
  function OfNat(n: nat): (s: string)
    ensures s != [] && AllDigits(s)
    ensures s[0] == '0' <==> n == 0
  {
    if n < 10 then [DigitOf(n)] else OfNat(n / 10) + [DigitOf(n % 10)]
  }

  // The number a run of digits denotes; leading zeros are read and ignored.
  function ToNat(s: string): nat
    requires AllDigits(s)
  {
    if s == [] then 0 else 10 * ToNat(s[..|s| - 1]) + ValueOf(s[|s| - 1])
  }

  lemma {:induction false} PrintThenRead(n: nat)
    ensures ToNat(OfNat(n)) == n
  {
    var s := OfNat(n);
    if n >= 10 {
      PrintThenRead(n / 10);
      assert s[..|s| - 1] == OfNat(n / 10);
    } else {
      assert s[..0] == [];
    }
  }

  // A canonical numeral is its own reprint; any other is not.
  lemma {:induction false} ReadThenPrint(s: string)
    requires AllDigits(s) && s != []
    ensures OfNat(ToNat(s)) == s <==> |s| == 1 || s[0] != '0'
  {
    if |s| == 1 {
      assert s[..0] == [];
    } else if s[0] != '0' {
      var front := s[..|s| - 1];
      ReadThenPrint(front);
      Positive(front);
      assert (10 * ToNat(front) + ValueOf(s[|s| - 1])) / 10 == ToNat(front);
      assert s == front + [s[|s| - 1]];
    }
  }

  lemma {:induction false} Positive(s: string)
    requires AllDigits(s) && s != [] && s[0] != '0'
    ensures ToNat(s) > 0
  {
    if |s| > 1 {
      Positive(s[..|s| - 1]);
    }
  }

  lemma SameNumeralSameNumber(m: nat, n: nat)
    requires OfNat(m) == OfNat(n)
    ensures m == n
  {
    PrintThenRead(m);
    PrintThenRead(n);
  }

  function OfInt(i: int): string {
    if i < 0 then "-" + OfNat(-i) else OfNat(i)
  }

  lemma SameIntNumeralSameInt(i: int, j: int)
    requires OfInt(i) == OfInt(j)
    ensures i == j
  {
    if i < 0 && j < 0 {
      assert OfInt(i)[1..] == OfNat(-i) && OfInt(j)[1..] == OfNat(-j);
      SameNumeralSameNumber(-i, -j);
    } else if i >= 0 && j >= 0 {
      SameNumeralSameNumber(i, j);
    }
  }

  // At least `width` digits, padded with zeros on the left.
  function Padded(n: nat, width: nat): string {
    var s := OfNat(n);
    if |s| >= width then s else seq(width - |s|, _ => '0') + s
  }

  lemma {:induction false} LeadingZeros(k: nat, s: string)
    requires AllDigits(s)
    ensures AllDigits(seq(k, _ => '0') + s) && ToNat(seq(k, _ => '0') + s) == ToNat(s)
    decreases |s|, k
  {
    var t := seq(k, _ => '0') + s;
    if s != [] {
      LeadingZeros(k, s[..|s| - 1]);
      assert t[..|t| - 1] == seq(k, _ => '0') + s[..|s| - 1];
    } else if k > 0 {
      LeadingZeros(k - 1, s);
      assert t[..|t| - 1] == seq(k - 1, _ => '0') + s;
    }
  }

  lemma PaddedReads(n: nat, width: nat)
    ensures AllDigits(Padded(n, width)) && ToNat(Padded(n, width)) == n
  {
    PrintThenRead(n);
    var s := OfNat(n);
    if |s| < width {
      LeadingZeros(width - |s|, s);
    }
  }
}
