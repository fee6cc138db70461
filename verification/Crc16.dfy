/**
The CRC of the Aethor ASCII protocol: CRC-16/CCITT-FALSE, generator x^16 + x^12 + x^5 + 1
(section 2 of ITU-T V.41), initial value 0xFFFF, most significant bit first. A 16-bit value
is its sequence of bits, most significant first. The reference definition feeds the message
one bit at a time; the byte loop refines it.
*/
module Crc16 {

  type Word = w: seq<bool> | |w| == 16 witness seq(16, _ => false)

  type Byte = b: nat | b < 256

  // The low `width` bits of a number, most significant first.
  function BitsOfNumber(n: nat, width: nat): (bits: seq<bool>)
    ensures |bits| == width
  {
    if width == 0 then [] else BitsOfNumber(n / 2, width - 1) + [n % 2 == 1]
  }

  const INITIAL: Word :=
    [true, true, true, true, true, true, true, true, true, true, true, true, true, true, true, true]

  // Without its leading term.
  const GENERATOR: Word :=
    [false, false, false, true, false, false, false, false, false, false, true, false, false, false, false, true]

  function Xor(x: Word, y: Word): Word {
    seq(16, i requires 0 <= i < 16 => x[i] != y[i])
  }

  // Multiplication by x modulo the generator.
  function BitStep(x: Word): Word {
    var shifted := x[1..] + [false];
    if x[0] then Xor(shifted, GENERATOR) else shifted
  }

  function FeedBit(x: Word, m: bool): Word {
    BitStep(x[0 := x[0] != m])
  }

  function Fold<S>(step: (S, bool) -> S, x: S, bits: seq<bool>): S
    decreases |bits|
  {
    if bits == [] then x else Fold(step, step(x, bits[0]), bits[1..])
  }

  function Bits(bytes: seq<Byte>): seq<bool> {
    if bytes == [] then [] else BitsOfNumber(bytes[0], 8) + Bits(bytes[1..])
  }

  function Crc(bytes: seq<Byte>): Word {
    Fold(FeedBit, INITIAL, Bits(bytes))
  }

  // ---------------------------------------------------------------- the byte and bit loops

  function Steps(x: Word, n: nat): Word
    decreases n
  {
    if n == 0 then x else Steps(BitStep(x), n - 1)
  }

  function Zeros(n: nat): seq<bool> {
    seq(n, _ => false)
  }

  // Bits on the left of a word, zeros after them.
  function LeftAligned(bits: seq<bool>): Word
    requires |bits| <= 16
  {
    bits + Zeros(16 - |bits|)
  }

  lemma StepAddsTopBit(x: Word, bits: seq<bool>)
    requires 0 < |bits| <= 16
    ensures BitStep(Xor(x, LeftAligned(bits))) == Xor(FeedBit(x, bits[0]), LeftAligned(bits[1..]))
  {
    var w, rest := LeftAligned(bits), LeftAligned(bits[1..]);
    var left, right := BitStep(Xor(x, w)), Xor(FeedBit(x, bits[0]), rest);
    forall i | 0 <= i < 16 ensures left[i] == right[i] {
      if i < 15 {
        assert rest[i] == w[i + 1];
      } else {
        assert !rest[i];
      }
    }
    assert |left| == |right|;
  }

  // Adding left-aligned bits to the state and stepping as often is feeding them one by one.
  lemma {:induction false} SteppingFeeds(x: Word, bits: seq<bool>)
    requires |bits| <= 16
    ensures Steps(Xor(x, LeftAligned(bits)), |bits|) == Fold(FeedBit, x, bits)
    decreases |bits|
  {
    if bits == [] {
      assert Xor(x, LeftAligned([])) == x;
    } else {
      StepAddsTopBit(x, bits);
      SteppingFeeds(FeedBit(x, bits[0]), bits[1..]);
    }
  }

  // The inner loop over one byte.
  method FeedByte(crc: Word, value: Byte) returns (next: Word)
    ensures next == Fold(FeedBit, crc, BitsOfNumber(value, 8))
  {
    var bits := BitsOfNumber(value, 8);
    SteppingFeeds(crc, bits);
    next := Xor(crc, LeftAligned(bits));
    for bit := 0 to |bits|
      invariant Steps(next, |bits| - bit) == Fold(FeedBit, crc, bits)
    {
      next := if next[0] then Xor(next[1..] + [false], GENERATOR) else next[1..] + [false];
    }
  }

  method ComputeCrc16(bytes: seq<Byte>) returns (crc: Word)
    ensures crc == Crc(bytes)
  {
    crc := INITIAL;
    for i := 0 to |bytes|
      invariant Fold(FeedBit, crc, Bits(bytes[i..])) == Crc(bytes)
    {
      FoldConcat(FeedBit, crc, BitsOfNumber(bytes[i], 8), Bits(bytes[i + 1..]));
      assert bytes[i..][1..] == bytes[i + 1..];
      crc := FeedByte(crc, bytes[i]);
    }
  }

  // ---------------------------------------------------------------- folding

  lemma {:induction false} FoldConcat<S>(step: (S, bool) -> S, x: S, a: seq<bool>, b: seq<bool>)
    ensures Fold(step, x, a + b) == Fold(step, Fold(step, x, a), b)
    decreases |a|
  {
    if a == [] {
      assert a + b == b;
    } else {
      assert (a + b)[1..] == a[1..] + b;
      FoldConcat(step, step(x, a[0]), a[1..], b);
    }
  }

  lemma {:induction false} FoldIsInjective<S(!new)>(step: (S, bool) -> S, x: S, y: S, bits: seq<bool>)
    requires forall a, b, m :: step(a, m) == step(b, m) ==> a == b
    ensures Fold(step, x, bits) == Fold(step, y, bits) <==> x == y
    decreases |bits|
  {
    if bits != [] {
      FoldIsInjective(step, step(x, bits[0]), step(y, bits[0]), bits[1..]);
    }
  }

  // near(j, x, y): x and y can become equal within j more steps. If states that near each other
  // after a step were nearer by one before it, and the first differing bit of two words shows
  // while fewer than `width` bits follow, then words of at most `width` bits fold injectively.
  lemma {:induction false} WordsFoldInjectively<S(!new)>(
      step: (S, bool) -> S, near: (nat, S, S) -> bool, width: nat, x: S, y: S, v: seq<bool>, w: seq<bool>)
    requires forall a :: near(0, a, a)
    requires forall j: nat, a, b, m, n :: j < width && near(j, step(a, m), step(b, n)) ==> near(j + 1, a, b)
    requires forall j: nat, a, m, n :: j < width && near(j, step(a, m), step(a, n)) ==> m == n
    requires |v| == |w| <= width && Fold(step, x, v) == Fold(step, y, w)
    ensures near(|v|, x, y) && (x == y ==> v == w)
    decreases |v|
  {
    if v != [] {
      WordsFoldInjectively(step, near, width, step(x, v[0]), step(y, w[0]), v[1..], w[1..]);
      assert v == [v[0]] + v[1..] && w == [w[0]] + w[1..];
    }
  }

  // ---------------------------------------------------------------- what the CRC detects

  // The generator has a constant term, so the bit shifted out shows in the lowest bit.
  lemma TopBitShows(x: Word)
    ensures BitStep(x)[15] == x[0]
  {
  }

  // The step permutes the 16-bit states.
  lemma FeedBitIsInjective(x: Word, y: Word, m: bool)
    ensures FeedBit(x, m) == FeedBit(y, m) <==> x == y
  {
    if FeedBit(x, m) == FeedBit(y, m) {
      assert DifferOnTop(0, FeedBit(x, m), FeedBit(y, m));
      NearerByOne(0, x, y, m, m);
      TopBitShows(x[0 := x[0] != m]);
      TopBitShows(y[0 := y[0] != m]);
    }
  }

  // The states differ in their top j bits at most.
  predicate DifferOnTop(j: nat, x: Word, y: Word) {
    forall i :: j <= i < 16 ==> x[i] == y[i]
  }

  lemma NearerByOne(j: nat, x: Word, y: Word, m: bool, n: bool)
    requires j < 16 && DifferOnTop(j, FeedBit(x, m), FeedBit(y, n))
    ensures DifferOnTop(j + 1, x, y) && (x[0] != m) == (y[0] != n)
  {
    var a, b := x[0 := x[0] != m], y[0 := y[0] != n];
    TopBitShows(a);
    TopBitShows(b);
    assert FeedBit(x, m)[15] == FeedBit(y, n)[15];
    forall i | j + 1 <= i < 16 ensures x[i] == y[i] {
      assert BitStep(a)[i - 1] == BitStep(b)[i - 1];
    }
  }

  lemma WordsFeedInjectively(x: Word, v: seq<bool>, w: seq<bool>)
    requires |v| == |w| <= 16
    ensures Fold(FeedBit, x, v) == Fold(FeedBit, x, w) <==> v == w
  {
    if Fold(FeedBit, x, v) == Fold(FeedBit, x, w) {
      forall j: nat, a, b, m, n | j < 16 && DifferOnTop(j, FeedBit(a, m), FeedBit(b, n))
        ensures DifferOnTop(j + 1, a, b)
      {
        NearerByOne(j, a, b, m, n);
      }
      forall j: nat, a, m, n | j < 16 && DifferOnTop(j, FeedBit(a, m), FeedBit(a, n))
        ensures m == n
      {
        NearerByOne(j, a, a, m, n);
      }
      WordsFoldInjectively(FeedBit, DifferOnTop, 16, x, x, v, w);
    }
  }

  // The same message tail keeps different states different.
  lemma FeedingIsInjective(x: Word, y: Word, bits: seq<bool>)
    ensures Fold(FeedBit, x, bits) == Fold(FeedBit, y, bits) <==> x == y
  {
    forall a, b, m ensures FeedBit(a, m) == FeedBit(b, m) ==> a == b {
      FeedBitIsInjective(a, b, m);
    }
    FoldIsInjective(FeedBit, x, y, bits);
  }

  // Any burst of at most 16 bits, anywhere in a message of any length, changes the CRC.
  lemma BurstsAreDetected(before: seq<bool>, v: seq<bool>, w: seq<bool>, after: seq<bool>)
    requires |v| == |w| <= 16
    ensures Fold(FeedBit, INITIAL, before + v + after) == Fold(FeedBit, INITIAL, before + w + after) <==> v == w
  {
    var x := Fold(FeedBit, INITIAL, before);
    FoldConcat(FeedBit, INITIAL, before + v, after);
    FoldConcat(FeedBit, INITIAL, before, v);
    FoldConcat(FeedBit, INITIAL, before + w, after);
    FoldConcat(FeedBit, INITIAL, before, w);
    FeedingIsInjective(Fold(FeedBit, x, v), Fold(FeedBit, x, w), after);
    WordsFeedInjectively(x, v, w);
  }

  lemma {:induction false} ZeroStaysZero(n: nat)
    ensures Steps(Zeros(16), n) == Zeros(16)
  {
    if n > 0 {
      assert BitStep(Zeros(16)) == Zeros(16);
      ZeroStaysZero(n - 1);
    }
  }

  // Feeding a register its own bits empties it.
  lemma OwnBitsLeaveZero(x: Word)
    ensures Fold(FeedBit, x, x) == Zeros(16)
  {
    assert LeftAligned(x) == x && Xor(x, x) == Zeros(16);
    SteppingFeeds(x, x);
    ZeroStaysZero(16);
  }

  // A message followed by sixteen bits leaves the zero register exactly when they are its CRC.
  lemma ResidueIsZeroExactlyForTheCrc(bytes: seq<Byte>, w: Word)
    ensures Fold(FeedBit, INITIAL, Bits(bytes) + w) == Zeros(16) <==> w == Crc(bytes)
  {
    FoldConcat(FeedBit, INITIAL, Bits(bytes), w);
    OwnBitsLeaveZero(Crc(bytes));
    WordsFeedInjectively(Crc(bytes), Crc(bytes), w);
  }

  // ---------------------------------------------------------------- bytes

  lemma {:induction false} BitsConcat(a: seq<Byte>, b: seq<Byte>)
    ensures Bits(a + b) == Bits(a) + Bits(b)
    decreases |a|
  {
    if a == [] {
      assert a + b == b;
    } else {
      assert (a + b)[1..] == a[1..] + b;
      BitsConcat(a[1..], b);
    }
  }

  function NumberOf(bits: seq<bool>): nat {
    if bits == [] then 0 else 2 * NumberOf(bits[..|bits| - 1]) + if bits[|bits| - 1] then 1 else 0
  }

  function Pow2(k: nat): (p: nat)
    ensures p > 0
  {
    if k == 0 then 1 else 2 * Pow2(k - 1)
  }

  lemma {:induction false} BitsAreTheNumber(n: nat, width: nat)
    requires n < Pow2(width)
    ensures NumberOf(BitsOfNumber(n, width)) == n
  {
    if width > 0 {
      BitsAreTheNumber(n / 2, width - 1);
      assert BitsOfNumber(n, width)[..width - 1] == BitsOfNumber(n / 2, width - 1);
    }
  }

  lemma {:induction false} NumberHasTheBits(bits: seq<bool>)
    ensures NumberOf(bits) < Pow2(|bits|) && BitsOfNumber(NumberOf(bits), |bits|) == bits
  {
    if bits != [] {
      NumberHasTheBits(bits[..|bits| - 1]);
      assert bits == bits[..|bits| - 1] + [bits[|bits| - 1]];
    }
  }

  // The number of a prefix, bit by bit.
  lemma {:induction false} Horner(bits: seq<bool>, values: seq<nat>, n: nat)
    requires n <= |bits| && |values| == |bits| + 1 && values[0] == 0
    requires forall k :: 0 <= k < |bits| ==> values[k + 1] == 2 * values[k] + if bits[k] then 1 else 0
    ensures NumberOf(bits[..n]) == values[n]
  {
    if n > 0 {
      Horner(bits, values, n - 1);
      assert bits[..n][..n - 1] == bits[..n - 1] && bits[..n][n - 1] == bits[n - 1];
      assert values[(n - 1) + 1] == 2 * values[n - 1] + if bits[n - 1] then 1 else 0;
    }
  }

  // The bits are those of the numbers 0xFFFF and 0x1021.
  lemma ConstantsAreTheNumbers()
    ensures NumberOf(INITIAL) == 0xffff && NumberOf(GENERATOR) == 0x1021
  {
    Horner(INITIAL, [0, 1, 3, 7, 15, 31, 63, 127, 255, 511, 1023, 2047, 4095, 8191, 16383, 32767, 65535], |INITIAL|);
    Horner(GENERATOR, [0, 0, 0, 0, 1, 2, 4, 8, 16, 32, 64, 129, 258, 516, 1032, 2064, 4129], |GENERATOR|);
    assert INITIAL[..|INITIAL|] == INITIAL && GENERATOR[..|GENERATOR|] == GENERATOR;
  }

  lemma {:induction false} BitsAreReadable(v: seq<Byte>, w: seq<Byte>)
    requires |v| == |w|
    ensures |Bits(v)| == 8 * |v| && (Bits(v) == Bits(w) <==> v == w)
    decreases |v|
  {
    if v != [] {
      BitsAreReadable(v[1..], w[1..]);
      if Bits(v) == Bits(w) {
        assert Bits(v)[..8] == BitsOfNumber(v[0], 8) && Bits(w)[..8] == BitsOfNumber(w[0], 8);
        assert Bits(v)[8..] == Bits(v[1..]) && Bits(w)[8..] == Bits(w[1..]);
        assert Pow2(8) == 256;
        BitsAreTheNumber(v[0], 8);
        BitsAreTheNumber(w[0], 8);
        assert v == [v[0]] + v[1..] && w == [w[0]] + w[1..];
      }
    }
  }

  // Bodies of equal length that differ only within two adjacent bytes have different CRCs.
  lemma AdjacentBytesAreDetected(before: seq<Byte>, v: seq<Byte>, w: seq<Byte>, after: seq<Byte>)
    requires |v| == |w| <= 2
    ensures Crc(before + v + after) == Crc(before + w + after) <==> v == w
  {
    BitsConcat(before + v, after);
    BitsConcat(before, v);
    BitsConcat(before + w, after);
    BitsConcat(before, w);
    BitsAreReadable(v, w);
    BitsAreReadable(w, v);
    BurstsAreDetected(Bits(before), Bits(v), Bits(w), Bits(after));
  }
}
