/** pkg/pcm/pcm.go: G.711 companding of 16-bit samples (ITU-T G.711, section 3) and the four buffer
    conversions. */
module Pcm {
  import opened Bits
  import opened Bytes
  import opened PcmTables

  type int16 = x: int | -0x8000 <= x < 0x8000

  const C_BIAS := 0x84
  const C_CLIP := 32635

  // ---------------------------------------------------------------- the codecs

  /** int16 negation: -32768 is its own negative. */
  function Negated(x: int16): int16
  {
    if x == -0x8000 then x else 0 - x
  }

  /** x >> n, for n from 3 to 10 */
  function Shift(x: int, n: nat): int
  {
    match n
    case 3 => x / 8
    case 4 => x / 16
    case 5 => x / 32
    case 6 => x / 64
    case 7 => x / 128
    case 8 => x / 256
    case 9 => x / 512
    case _ => x / 1024
  }

  function Clipped(x: int16): int16
  {
    if x > C_CLIP then C_CLIP else x
  }

  /** The clipped magnitude both encoders work on. */
  function Magnitude(s: int16): int16
  {
    Clipped(if s < 0 then Negated(s) else s)
  }

  /** Exponent and mantissa of a in segment e. */
  function SegmentBits(e: nat, a: int): nat
  {
    16 * e + Shift(a, e + 3) % 16
  }

  /** Exponent and mantissa bits of an A-law code. */
  function ALawBits(a: int): nat
    requires 0 <= a < 0x8000 || a == -0x8000
  {
    if a >= 256 then SegmentBits(ALawExponent(a / 256 % 0x80), a) else a / 16 % 0x100
  }

  function SignBit(on: bool): byte { if on then 0x80 else 0x00 }

  /** x ^ 0x55, half a byte at a time */
  function Xor55(x: byte): byte
  {
    16 * Flip5(x / 16) + Flip5(x % 16)
  }

  /** bits ^ sign ^ 0x55; the seven bits leave the sign bit free. */
  function ALawCode(positive: bool, bits: nat): byte
    requires bits < 0x80
  {
    Xor55(SignBit(positive) + bits)
  }

  function LinearToALaw(s: int16): byte
  {
    ALawBitsFit(Magnitude(s));
    ALawCode(s >= 0, ALawBits(Magnitude(s)))
  }

  function ALawToLinear(c: byte): int
  {
    ALawDecompressRow(c >= 0x80, c % 0x80 / 16)[c % 16]
  }

  /** Exponent and mantissa bits of a mu-law code, before the complement. */
  function MuLawBits(biased: int): nat
    requires C_BIAS <= biased < 0x8000 || biased == C_BIAS - 0x8000
  {
    SegmentBits(MuLawExponent(biased / 128 % 0x100), biased)
  }

  /** ^(sign | bits) */
  function MuLawCode(negative: bool, bits: nat): byte
    requires bits < 0x80
  {
    0xFF - (SignBit(negative) + bits)
  }

  function LinearToMuLaw(s: int16): byte
  {
    MuLawBitsFit(Magnitude(s) + C_BIAS);
    MuLawCode(s < 0, MuLawBits(Magnitude(s) + C_BIAS))
  }

  function MuLawToLinear(c: byte): int
  {
    MuLawDecompressRow(c >= 0x80, c % 0x80 / 16)[c % 16]
  }

  lemma ALawBitsFit(a: int)
    requires 0 <= a < 0x8000 || a == -0x8000
    ensures ALawBits(a) < 0x80
  {
  }

  lemma MuLawBitsFit(biased: int)
    requires C_BIAS <= biased < 0x8000 || biased == C_BIAS - 0x8000
    ensures MuLawBits(biased) < 0x80
  {
  }

  // ---------------------------------------------------------------- exclusive or

  /** Exclusive or of two bits, and of two four-bit numbers. */
  function XorBit(x: nat, y: nat): nat { if x == y then 0 else 1 }

  function XorHalf(x: nat, y: nat): nat
  {
    8 * XorBit(x / 8, y / 8) + 4 * XorBit(x / 4 % 2, y / 4 % 2) + 2 * XorBit(x / 2 % 2, y / 2 % 2) + XorBit(x % 2, y % 2)
  }

  /** Flip5 is exclusive or with 5, so Xor55 is exclusive or with 0x55. */
  lemma Flip5IsXor(n: nat)
    requires n < 16
    ensures Flip5(n) == XorHalf(n, 5)
  {
    match n
    case 0 => case 1 => case 2 => case 3 => case 4 => case 5 => case 6 => case 7 =>
    case 8 => case 9 => case 10 => case 11 => case 12 => case 13 => case 14 => case _ =>
  }

  /** Inverting the bits twice changes nothing, and the sign bit is not among them. */
  lemma Flip5Twice(n: nat)
    requires n < 16
    ensures Flip5(Flip5(n)) == n && Flip5(n) < 16 && (n < 8 <==> Flip5(n) < 8)
    ensures n < 8 ==> Flip5(n + 8) == Flip5(n) + 8
  {
  }

  // ---------------------------------------------------------------- steps of the quantizers

  /** The inputs that get the A-law bits b. */
  function ALawLow(b: nat): int { if b < 16 then 16 * b else Scaled(b / 16, b % 16 + 16) }

  function ALawHigh(b: nat): int { if b < 16 then 16 * b + 16 else Scaled(b / 16, b % 16 + 17) }

  function MuLawLow(b: nat): int { Scaled(b / 16, b % 16 + 16) }

  function MuLawHigh(b: nat): int { Scaled(b / 16, b % 16 + 17) }

  lemma SegmentStep(e: nat, a: int)
    requires e <= 7 && Pow2(e) <= Shift(a, 7) < Pow2(e + 1)
    ensures 16 <= Shift(a, e + 3) < 32
    ensures Scaled(e, Shift(a, e + 3)) <= a < Scaled(e, Shift(a, e + 3) + 1)
  {
    SmallPowers(e);
    SmallPowers(e + 1);
  }

  lemma SegmentCell(e: nat, a: int)
    requires e <= 7 && Pow2(e) <= Shift(a, 7) < Pow2(e + 1)
    ensures SegmentBits(e, a) / 16 == e && SegmentBits(e, a) < 0x80
    ensures MuLawLow(SegmentBits(e, a)) <= a < MuLawHigh(SegmentBits(e, a))
  {
    SegmentStep(e, a);
  }

  lemma ALawCell(a: int)
    requires 0 <= a < 0x8000
    ensures ALawLow(ALawBits(a)) <= a < ALawHigh(ALawBits(a))
  {
    if a >= 256 {
      var e := ALawExponent(a / 256 % 0x80);
      ALawSegment(a, e);
      SegmentCell(e, a);
    }
  }

  lemma ALawSegment(a: int, e: nat)
    requires 256 <= a < 0x8000 && 1 <= e <= 7 && Pow2(e - 1) <= a / 256 % 0x80 < Pow2(e)
    ensures Pow2(e) <= Shift(a, 7) < Pow2(e + 1)
  {
    assert Pow2(e) == 2 * Pow2(e - 1) && Pow2(e + 1) == 2 * Pow2(e);
  }

  lemma MuLawSegment(biased: int, e: nat)
    requires C_BIAS <= biased < 0x8000 && e <= 7 && Pow2(e) <= biased / 128 % 0x100 < Pow2(e + 1)
    ensures Pow2(e) <= Shift(biased, 7) < Pow2(e + 1)
  {
    assert biased / 128 % 0x100 == biased / 128;
  }

  lemma MuLawCell(biased: int)
    requires C_BIAS <= biased < 0x8000
    ensures MuLawLow(MuLawBits(biased)) <= biased < MuLawHigh(MuLawBits(biased))
  {
    var e := MuLawExponent(biased / 128 % 0x100);
    MuLawSegment(biased, e);
    SegmentCell(e, biased);
  }

  /** Steps follow each other without overlap. */
  lemma ScaledGrows(e: nat, f: nat)
    requires e < f <= 7
    ensures Scaled(e, 32) <= Scaled(f, 16)
  {
  }

  lemma ScaledMonotone(e: nat, x: int, y: int)
    requires x <= y
    ensures Scaled(e, x) <= Scaled(e, y)
  {
  }

  lemma MuLawOrdered(b: nat, c: nat)
    requires b < c < 0x80
    ensures MuLawHigh(b) <= MuLawLow(c)
  {
    var e, f := b / 16, c / 16;
    if e < f {
      ScaledMonotone(e, b % 16 + 17, 32);
      ScaledGrows(e, f);
      ScaledMonotone(f, 16, c % 16 + 16);
    } else {
      ScaledMonotone(e, b % 16 + 17, c % 16 + 16);
    }
  }

  lemma ALawOrdered(b: nat, c: nat)
    requires b < c < 0x80
    ensures ALawHigh(b) <= ALawLow(c)
  {
    if b >= 16 {
      MuLawOrdered(b, c);
    } else if c >= 16 {
      if c > 16 {
        MuLawOrdered(16, c);
      }
      ScaledMonotone(1, 16, 17);
    }
  }

  /** Every input of a step gets the step's bits. */
  lemma ALawCellIsUnique(a: int, b: nat)
    requires 0 <= a < 0x8000 && b < 0x80 && ALawLow(b) <= a < ALawHigh(b)
    ensures ALawBits(a) == b
  {
    ALawCell(a);
    if ALawBits(a) < b {
      ALawOrdered(ALawBits(a), b);
    } else if b < ALawBits(a) {
      ALawOrdered(b, ALawBits(a));
    }
  }

  lemma MuLawCellIsUnique(biased: int, b: nat)
    requires C_BIAS <= biased < 0x8000 && b < 0x80 && MuLawLow(b) <= biased < MuLawHigh(b)
    ensures MuLawBits(biased) == b
  {
    MuLawCell(biased);
    if MuLawBits(biased) < b {
      MuLawOrdered(MuLawBits(biased), b);
    } else if b < MuLawBits(biased) {
      MuLawOrdered(b, MuLawBits(biased));
    }
  }

  // ---------------------------------------------------------------- what decoding gives

  function ALawOf(b: nat): int { ALawMiddle(b / 16, b % 16) }

  function MuLawOf(b: nat): int { MuLawMiddle(b / 16, b % 16) - C_BIAS }

  function MuLawSigned(negative: bool, b: nat): int
  {
    if negative && b == 0 then -1 else Signed(!negative, MuLawOf(b))
  }

  /** The decoded value of an A-law code is the middle of its step. */
  lemma ALawDecodes(p: bool, b: nat)
    requires b < 0x80
    ensures ALawToLinear(ALawCode(p, b)) == Signed(p, ALawOf(b))
  {
    var h, l := b / 16, b % 16;
    ALawCodeParts(p, b);
    Flip5Twice(h);
    Flip5Twice(l);
    ALawDecompressIsMiddle(p, Flip5(h), Flip5(l));
  }

  lemma ByteParts(c: byte, h: nat, l: nat)
    requires c == 16 * h + l && l < 16
    ensures c / 16 == h && c % 16 == l
    ensures (c >= 0x80 <==> h >= 8) && c % 0x80 / 16 == if h >= 8 then h - 8 else h
  {
  }

  lemma Xor55OfParts(x: byte, h: nat, l: nat)
    requires x == 16 * h + l && l < 16
    ensures Xor55(x) == 16 * Flip5(h) + Flip5(l)
  {
    ByteParts(x, h, l);
  }

  lemma ALawCodeSum(p: bool, h: nat, l: nat)
    requires h < 8 && l < 16
    ensures ALawCode(p, 16 * h + l) == SignBit(p) + 16 * Flip5(h) + Flip5(l)
  {
    Flip5Twice(h);
    if p {
      Xor55OfParts(128 + 16 * h + l, h + 8, l);
    } else {
      Xor55OfParts(16 * h + l, h, l);
    }
  }

  lemma ALawCodeParts(p: bool, b: nat)
    requires b < 0x80
    ensures var c := ALawCode(p, b);
            (c >= 0x80 <==> p) && c % 0x80 / 16 == Flip5(b / 16) && c % 16 == Flip5(b % 16)
  {
    var h, l := Flip5(b / 16), Flip5(b % 16);
    ALawCodeSum(p, b / 16, b % 16);
    Flip5Twice(b / 16);
    Flip5Twice(b % 16);
    ByteParts(SignBit(p) + 16 * h + l, if p then h + 8 else h, l);
  }

  /** The decoded value of a mu-law code is the middle of its step without the bias; negative zero gives -1. */
  lemma MuLawDecodes(negative: bool, b: nat)
    requires b < 0x80
    ensures MuLawToLinear(MuLawCode(negative, b)) == MuLawSigned(negative, b)
  {
    var h, l := b / 16, b % 16;
    MuLawCodeParts(negative, b);
    ComplementTwice(h, l);
    MuLawDecompressIsMiddle(!negative, 7 - h, 15 - l);
  }

  lemma ComplementTwice(h: nat, l: nat)
    requires h < 8 && l < 16
    ensures Flip7(7 - h) == h && Flip15(15 - l) == l
  {
  }

  lemma MuLawCodeParts(negative: bool, b: nat)
    requires b < 0x80
    ensures var c := MuLawCode(negative, b);
            (c >= 0x80 <==> !negative) && c % 0x80 / 16 == 7 - b / 16 && c % 16 == 15 - b % 16
  {
    ByteParts(MuLawCode(negative, b), (if negative then 7 else 15) - b / 16, 15 - b % 16);
  }

  // ---------------------------------------------------------------- error bounds

  function Abs(x: int): nat { if x < 0 then 0 - x else x }

  lemma ALawStepError(b: nat, a: int)
    requires b < 0x80 && ALawLow(b) <= a < ALawHigh(b)
    ensures ALawLow(b) <= ALawOf(b) < ALawHigh(b)
    ensures if b < 16 then Abs(ALawOf(b) - a) <= 8 && a < 256 else 32 * Abs(ALawOf(b) - a) <= a && 256 <= a
  {
  }

  lemma MuLawStepError(b: nat, biased: int)
    requires b < 0x80 && MuLawLow(b) <= biased < MuLawHigh(b)
    ensures MuLawLow(b) <= MuLawOf(b) + C_BIAS < MuLawHigh(b)
    ensures 32 * Abs(MuLawOf(b) + C_BIAS - biased) <= biased
  {
  }

  /** Within 8 below 256, within a 32nd of the sample above. */
  predicate ALawClose(s: int, d: int)
  {
    if Abs(s) < 256 then Abs(d - s) <= 8 else 32 * Abs(d - s) <= Abs(s)
  }

  /** Within a 32nd of the biased sample. */
  predicate MuLawClose(s: int, d: int)
  {
    32 * Abs(d - s) <= Abs(s) + C_BIAS
  }

  /** Clipping stays within the last step. */
  lemma MagnitudeInCell(s: int16)
    requires s != -0x8000
    ensures ALawLow(ALawBits(Magnitude(s))) <= Abs(s) < ALawHigh(ALawBits(Magnitude(s)))
  {
    ALawCell(Magnitude(s));
    if Abs(s) > C_CLIP {
      ALawCellIsUnique(C_CLIP, 0x7F);
    }
  }

  /** Through the A-law codec and back. */
  lemma ALawTrip(s: int16)
    ensures ALawBits(Magnitude(s)) < 0x80
    ensures ALawToLinear(LinearToALaw(s)) == Signed(s >= 0, ALawOf(ALawBits(Magnitude(s))))
  {
    ALawBitsFit(Magnitude(s));
    ALawDecodes(s >= 0, ALawBits(Magnitude(s)));
  }

  /** Through the mu-law codec and back. */
  lemma MuLawTrip(s: int16)
    ensures MuLawBits(Magnitude(s) + C_BIAS) < 0x80
    ensures MuLawToLinear(LinearToMuLaw(s)) == MuLawSigned(s < 0, MuLawBits(Magnitude(s) + C_BIAS))
  {
    MuLawBitsFit(Magnitude(s) + C_BIAS);
    MuLawDecodes(s < 0, MuLawBits(Magnitude(s) + C_BIAS));
  }

  lemma ALawCloseIff(s: int16, d: int)
    requires ALawBits(Magnitude(s)) < 0x80 && d == Signed(s >= 0, ALawOf(ALawBits(Magnitude(s))))
    ensures ALawClose(s, d) <==> s != -0x8000
  {
    if s != -0x8000 {
      MagnitudeInCell(s);
      ALawStepError(ALawBits(Magnitude(s)), Abs(s));
    }
  }

  /** Decoding after A-law encoding is close to the sample, except for -32768, whose negation overflows. */
  lemma ALawBoundIff(s: int16)
    ensures ALawClose(s, ALawToLinear(LinearToALaw(s))) <==> s != -0x8000
  {
    ALawTrip(s);
    ALawCloseIff(s, ALawToLinear(LinearToALaw(s)));
  }

  lemma MuLawCloseUnclipped(s: int16, b: nat)
    requires Abs(s) <= C_CLIP && b == MuLawBits(Abs(s) + C_BIAS) && b < 0x80
    ensures MuLawClose(s, MuLawSigned(s < 0, b))
  {
    MuLawCell(Abs(s) + C_BIAS);
    MuLawStepError(b, Abs(s) + C_BIAS);
  }

  lemma MuLawCloseClipped(s: int16, b: nat)
    requires C_CLIP < Abs(s) && s != -0x8000 && b == MuLawBits(C_CLIP + C_BIAS) && b < 0x80
    ensures MuLawClose(s, MuLawSigned(s < 0, b))
  {
    MuLawCellIsUnique(C_CLIP + C_BIAS, 0x7F);
    assert MuLawOf(0x7F) == 32124;
  }

  lemma MuLawOfTheLowest()
    ensures MuLawBits(Magnitude(-0x8000) + C_BIAS) == 0
  {
  }

  lemma MuLawCloseIff(s: int16, b: nat)
    requires b == MuLawBits(Magnitude(s) + C_BIAS) && b < 0x80
    ensures MuLawClose(s, MuLawSigned(s < 0, b)) <==> s != -0x8000
  {
    if s == -0x8000 {
      MuLawOfTheLowest();
    } else if Abs(s) > C_CLIP {
      MuLawCloseClipped(s, b);
    } else {
      MuLawCloseUnclipped(s, b);
    }
  }

  lemma MuLawBoundIff(s: int16)
    ensures MuLawClose(s, MuLawToLinear(LinearToMuLaw(s))) <==> s != -0x8000
  {
    MuLawTrip(s);
    MuLawCloseIff(s, MuLawBits(Magnitude(s) + C_BIAS));
  }

  // ---------------------------------------------------------------- monotonicity

  lemma ALawBitsMonotone(a: int, b: int)
    requires 0 <= a <= b < 0x8000
    ensures ALawBits(a) <= ALawBits(b)
  {
    ALawCell(a);
    ALawCell(b);
    ALawBitsFit(a);
    if ALawBits(b) < ALawBits(a) {
      ALawOrdered(ALawBits(b), ALawBits(a));
    }
  }

  lemma MuLawBitsMonotone(a: int, b: int)
    requires C_BIAS <= a <= b < 0x8000
    ensures MuLawBits(a) <= MuLawBits(b)
  {
    MuLawCell(a);
    MuLawCell(b);
    MuLawBitsFit(a);
    if MuLawBits(b) < MuLawBits(a) {
      MuLawOrdered(MuLawBits(b), MuLawBits(a));
    }
  }

  lemma MiddlesGrow(b: nat, c: nat)
    requires b <= c < 0x80
    ensures 0 < ALawOf(b) <= ALawOf(c) && 0 <= MuLawOf(b) <= MuLawOf(c)
    ensures b > 0 ==> MuLawOf(b) >= 8
  {
    CellsAreNotEmpty(b);
    CellsAreNotEmpty(c);
    if b < c {
      ALawOrdered(b, c);
      MuLawOrdered(b, c);
    }
  }

  lemma CellsAreNotEmpty(b: nat)
    requires b < 0x80
    ensures 0 <= ALawLow(b) < ALawOf(b) < ALawHigh(b)
    ensures C_BIAS - 4 <= MuLawLow(b) < MuLawOf(b) + C_BIAS < MuLawHigh(b)
    ensures MuLawOf(b) >= if b == 0 then 0 else 8
  {
  }

  lemma ALawSignedMonotone(s: int16, t: int16, b: nat, c: nat)
    requires -0x8000 < s <= t && b < 0x80 && c < 0x80
    requires b == ALawBits(Magnitude(s)) && c == ALawBits(Magnitude(t))
    ensures Signed(s >= 0, ALawOf(b)) <= Signed(t >= 0, ALawOf(c))
  {
    if s >= 0 {
      ALawBitsMonotone(Magnitude(s), Magnitude(t));
      MiddlesGrow(b, c);
    } else if t < 0 {
      ALawBitsMonotone(Magnitude(t), Magnitude(s));
      MiddlesGrow(c, b);
    } else {
      MiddlesGrow(b, b);
      MiddlesGrow(c, c);
    }
  }

  /** Encoding and decoding keeps the order of samples. */
  lemma ALawMonotone(s: int16, t: int16)
    requires -0x8000 < s <= t
    ensures ALawToLinear(LinearToALaw(s)) <= ALawToLinear(LinearToALaw(t))
  {
    ALawTrip(s);
    ALawTrip(t);
    ALawSignedMonotone(s, t, ALawBits(Magnitude(s)), ALawBits(Magnitude(t)));
  }

  lemma MuLawOrderOfBits(s: int16, t: int16)
    requires -0x8000 < s <= t && (s < 0 <==> t < 0)
    ensures if s < 0 then MuLawBits(Magnitude(t) + C_BIAS) <= MuLawBits(Magnitude(s) + C_BIAS)
            else MuLawBits(Magnitude(s) + C_BIAS) <= MuLawBits(Magnitude(t) + C_BIAS)
  {
    if s < 0 {
      MuLawBitsMonotone(Magnitude(t) + C_BIAS, Magnitude(s) + C_BIAS);
    } else {
      MuLawBitsMonotone(Magnitude(s) + C_BIAS, Magnitude(t) + C_BIAS);
    }
  }

  lemma MuLawSignedOrder(n: bool, m: bool, b: nat, c: nat)
    requires b < 0x80 && c < 0x80 && (m ==> n) && (n && m ==> c <= b) && (!n && !m ==> b <= c)
    ensures MuLawSigned(n, b) <= MuLawSigned(m, c)
  {
    MiddlesGrow(b, b);
    MiddlesGrow(c, c);
    if b <= c {
      MiddlesGrow(b, c);
    } else {
      MiddlesGrow(c, b);
    }
  }

  lemma MuLawMonotone(s: int16, t: int16)
    requires -0x8000 < s <= t
    ensures MuLawToLinear(LinearToMuLaw(s)) <= MuLawToLinear(LinearToMuLaw(t))
  {
    MuLawTrip(s);
    MuLawTrip(t);
    if s < 0 <==> t < 0 {
      MuLawOrderOfBits(s, t);
    }
    MuLawSignedOrder(s < 0, t < 0, MuLawBits(Magnitude(s) + C_BIAS), MuLawBits(Magnitude(t) + C_BIAS));
  }

  // ---------------------------------------------------------------- every code comes back

  lemma ByteIsItsParts(c: byte)
    ensures c == SignBit(c >= 0x80) + 16 * (c % 0x80 / 16) + c % 16 && c % 0x80 / 16 < 8
  {
    ByteParts(c, c / 16, c % 16);
  }

  lemma ALawCodeHasBits(c: byte) returns (p: bool, b: nat)
    ensures b < 0x80 && c == ALawCode(p, b)
  {
    var h, l := c % 0x80 / 16, c % 16;
    p, b := c >= 0x80, 16 * Flip5(h) + Flip5(l);
    ByteIsItsParts(c);
    Flip5Twice(h);
    Flip5Twice(l);
    ALawCodeSum(p, Flip5(h), Flip5(l));
  }

  lemma ALawEncodesMiddle(p: bool, b: nat)
    requires b < 0x80
    ensures 0 < ALawOf(b) < 0x8000 && LinearToALaw(Signed(p, ALawOf(b))) == ALawCode(p, b)
  {
    CellsAreNotEmpty(b);
    HighestMiddles(b);
    ALawCellIsUnique(ALawOf(b), b);
  }

  lemma ALawCodeReturns(c: byte)
    ensures -0x8000 < ALawToLinear(c) < 0x8000
    ensures LinearToALaw(ALawToLinear(c)) == c
  {
    var p, b := ALawCodeHasBits(c);
    ALawDecodes(p, b);
    ALawEncodesMiddle(p, b);
  }

  lemma HighestMiddles(b: nat)
    requires b < 0x80
    ensures ALawOf(b) <= 32256 && MuLawOf(b) <= 32124
  {
  }

  lemma MuLawMiddleHasBits(b: nat)
    requires b < 0x80
    ensures 0 <= MuLawOf(b) <= 32124 && MuLawBits(MuLawOf(b) + C_BIAS) == b && (b > 0 ==> MuLawOf(b) > 0)
  {
    CellsAreNotEmpty(b);
    HighestMiddles(b);
    MuLawCellIsUnique(MuLawOf(b) + C_BIAS, b);
  }

  lemma MuLawSignAndSize(negative: bool, b: nat)
    requires b < 0x80
    ensures var s := MuLawSigned(negative, b);
            && -0x8000 < s < 0x8000 && (s < 0 <==> negative)
            && Magnitude(s) == if negative && b == 0 then 1 else MuLawOf(b)
  {
    MuLawMiddleHasBits(b);
    SignAndSize(negative, b == 0, MuLawOf(b));
  }

  lemma SignAndSize(negative: bool, zero: bool, v: int)
    requires 0 <= v <= 32124 && (v == 0 ==> zero)
    ensures var s := if negative && zero then -1 else Signed(!negative, v);
            && -0x8000 < s < 0x8000 && (s < 0 <==> negative)
            && Magnitude(s) == if negative && zero then 1 else v
  {
  }

  lemma MuLawEncodesMiddle(negative: bool, b: nat)
    requires b < 0x80
    ensures -0x8000 < MuLawSigned(negative, b) < 0x8000
    ensures LinearToMuLaw(MuLawSigned(negative, b)) == MuLawCode(negative, b)
  {
    MuLawSignAndSize(negative, b);
    if negative && b == 0 {
      MuLawCellIsUnique(1 + C_BIAS, 0);
    } else {
      MuLawMiddleHasBits(b);
    }
  }

  lemma MuLawCodeHasBits(c: byte) returns (negative: bool, b: nat)
    ensures b < 0x80 && c == MuLawCode(negative, b)
  {
    negative, b := c < 0x80, 0x7F - c % 0x80;
  }

  /** This includes code 0x7F: it decodes to -1, and -1 encodes to it. */
  lemma MuLawCodeReturns(c: byte)
    ensures -0x8000 < MuLawToLinear(c) < 0x8000
    ensures LinearToMuLaw(MuLawToLinear(c)) == c
  {
    var negative, b := MuLawCodeHasBits(c);
    MuLawDecodes(negative, b);
    MuLawEncodesMiddle(negative, b);
  }

  // ---------------------------------------------------------------- buffers

  /** int16(low) | int16(high) << 8 */
  function Sample(low: byte, high: byte): int16
  {
    if high < 0x80 then 0x100 * high + low else 0x100 * high + low - 0x1_0000
  }

  /** byte(x) and byte(x >> 8) */
  function LowByte(x: int): byte { x % 0x100 }

  function HighByte(x: int): byte { x / 0x100 % 0x100 }

  lemma SampleOfBytes(x: int16)
    ensures Sample(LowByte(x), HighByte(x)) == x
    ensures (LowByte(x) + 0x100 * HighByte(x) - x) % 0x1_0000 == 0
  {
  }

  lemma BytesOfSample(low: byte, high: byte)
    ensures LowByte(Sample(low, high)) == low && HighByte(Sample(low, high)) == high
    ensures (Sample(low, high) - low - 0x100 * high) % 0x1_0000 == 0
  {
  }

  /** The codes are those of the samples. */
  ghost predicate Encoded(encode: int16 -> byte, codes: seq<byte>, samples: seq<byte>)
  {
    && |samples| == 2 * |codes|
    && forall k :: 0 <= k < |codes| ==> codes[k] == encode(Sample(samples[2 * k], samples[2 * k + 1]))
  }

  /** The samples are those of the codes. */
  ghost predicate Decoded(decode: byte -> int, samples: seq<byte>, codes: seq<byte>)
  {
    && |samples| == 2 * |codes|
    && forall k :: 0 <= k < |codes| ==>
         samples[2 * k] == LowByte(decode(codes[k])) && samples[2 * k + 1] == HighByte(decode(codes[k]))
  }

  /** LinearToALaw and LinearToMuLaw into codes[at..]: one code per little-endian sample, or an error if they do
      not fit. A trailing half sample panics. */
  method Encode(encode: int16 -> byte, samples: seq<byte>, codes: array<byte>, at: nat) returns (ok: bool)
    requires |samples| % 2 == 0 && at <= codes.Length
    modifies codes
    ensures ok <==> |samples| <= 2 * (codes.Length - at)
    ensures !ok ==> codes[..] == old(codes[..])
    ensures ok ==> Encoded(encode, codes[at..at + |samples| / 2], samples)
    ensures ok ==> forall j :: 0 <= j < codes.Length && !(at <= j < at + |samples| / 2) ==> codes[j] == old(codes[j])
  {
    if |samples| > 2 * (codes.Length - at) {
      return false;
    }
    var k := 0;
    while 2 * k < |samples|
      invariant 0 <= 2 * k <= |samples|
      invariant forall j :: 0 <= j < k ==> codes[at + j] == encode(Sample(samples[2 * j], samples[2 * j + 1]))
      invariant forall j :: 0 <= j < codes.Length && !(at <= j < at + k) ==> codes[j] == old(codes[j])
    {
      codes[at + k] := encode(Sample(samples[2 * k], samples[2 * k + 1]));
      k := k + 1;
    }
    return true;
  }

  /** ALawToLiner and MuLawToLiner: two little-endian bytes per code, or an error if they do not fit. */
  method Decode(decode: byte -> int, codes: seq<byte>, pcms: array<byte>) returns (ok: bool)
    modifies pcms
    ensures ok <==> 2 * |codes| <= pcms.Length
    ensures !ok ==> pcms[..] == old(pcms[..])
    ensures ok ==> Decoded(decode, pcms[..2 * |codes|], codes)
    ensures ok ==> forall j :: 2 * |codes| <= j < pcms.Length ==> pcms[j] == old(pcms[j])
  {
    if pcms.Length < 2 * |codes| {
      return false;
    }
    var k := 0;
    while k < |codes|
      invariant 0 <= k <= |codes|
      invariant forall j :: 0 <= j < k ==>
        pcms[2 * j] == LowByte(decode(codes[j])) && pcms[2 * j + 1] == HighByte(decode(codes[j]))
      invariant forall j :: 2 * k <= j < pcms.Length ==> pcms[j] == old(pcms[j])
    {
      var pcm := decode(codes[k]);
      pcms[2 * k] := LowByte(pcm);
      pcms[2 * k + 1] := HighByte(pcm);
      k := k + 1;
    }
    return true;
  }

  /** If every code survives decoding and encoding, so does every buffer of codes. */
  lemma BufferReturns(encode: int16 -> byte, decode: byte -> int, codes: seq<byte>, samples: seq<byte>, again: seq<byte>)
    requires forall c: byte :: -0x8000 <= decode(c) < 0x8000 && encode(decode(c)) == c
    requires Decoded(decode, samples, codes) && Encoded(encode, again, samples)
    ensures again == codes
  {
    forall k | 0 <= k < |codes| ensures again[k] == codes[k] {
      SampleOfBytes(decode(codes[k]));
    }
  }

  /** Buffers of A-law codes of any length survive decoding and encoding. */
  lemma ALawBufferReturns(codes: seq<byte>, samples: seq<byte>, again: seq<byte>)
    requires Decoded(ALawToLinear, samples, codes) && Encoded(LinearToALaw, again, samples)
    ensures again == codes
  {
    forall c: byte ensures -0x8000 <= ALawToLinear(c) < 0x8000 && LinearToALaw(ALawToLinear(c)) == c {
      ALawCodeReturns(c);
    }
    BufferReturns(LinearToALaw, ALawToLinear, codes, samples, again);
  }

  /** Buffers of mu-law codes of any length survive decoding and encoding. */
  lemma MuLawBufferReturns(codes: seq<byte>, samples: seq<byte>, again: seq<byte>)
    requires Decoded(MuLawToLinear, samples, codes) && Encoded(LinearToMuLaw, again, samples)
    ensures again == codes
  {
    forall c: byte ensures -0x8000 <= MuLawToLinear(c) < 0x8000 && LinearToMuLaw(MuLawToLinear(c)) == c {
      MuLawCodeReturns(c);
    }
    BufferReturns(LinearToMuLaw, MuLawToLinear, codes, samples, again);
  }
}
