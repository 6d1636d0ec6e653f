/** The four tables of pkg/pcm/pcm.go, 16 entries a row, and what they hold: the compress tables are binary
    logarithms, the decompress tables the middles of the segments of ITU-T G.711, section 3. */
module PcmTables {
  import opened Bits

  /** aLawCompressTable[16 * row + k]: from the second row on, all entries of a row are the same. */
  function ALawCompress(row: nat, k: nat): nat
    requires k < 16
  {
    match row
    case 0 => [1, 1, 2, 2, 3, 3, 3, 3, 4, 4, 4, 4, 4, 4, 4, 4][k]
    case 1 => 5
    case 2 => 6
    case 3 => 6
    case 4 => 7
    case 5 => 7
    case 6 => 7
    case _ => 7
  }

  /** muLawCompressTable[16 * row + k]: from the second row on, all entries of a row are the same. */
  function MuLawCompress(row: nat, k: nat): nat
    requires k < 16
  {
    match row
    case 0 => [0, 0, 1, 1, 2, 2, 2, 2, 3, 3, 3, 3, 3, 3, 3, 3][k]
    case 1 => 4
    case 2 => 5
    case 3 => 5
    case 4 => 6
    case 5 => 6
    case 6 => 6
    case 7 => 6
    case 8 => 7
    case 9 => 7
    case 10 => 7
    case 11 => 7
    case 12 => 7
    case 13 => 7
    case 14 => 7
    case _ => 7
  }

  /** Entries 16 * row and on of the first half of aLawDecompressTable, or of the second if positive. */
  function ALawDecompressRow(positive: bool, row: nat): seq<int>
  {
    if positive then
      match row
      case 0 => [5504, 5248, 6016, 5760, 4480, 4224, 4992, 4736, 7552, 7296, 8064, 7808, 6528, 6272, 7040, 6784]
      case 1 => [2752, 2624, 3008, 2880, 2240, 2112, 2496, 2368, 3776, 3648, 4032, 3904, 3264, 3136, 3520, 3392]
      case 2 => [22016, 20992, 24064, 23040, 17920, 16896, 19968, 18944,
                 30208, 29184, 32256, 31232, 26112, 25088, 28160, 27136]
      case 3 => [11008, 10496, 12032, 11520, 8960, 8448, 9984, 9472,
                 15104, 14592, 16128, 15616, 13056, 12544, 14080, 13568]
      case 4 => [344, 328, 376, 360, 280, 264, 312, 296, 472, 456, 504, 488, 408, 392, 440, 424]
      case 5 => [88, 72, 120, 104, 24, 8, 56, 40, 216, 200, 248, 232, 152, 136, 184, 168]
      case 6 => [1376, 1312, 1504, 1440, 1120, 1056, 1248, 1184, 1888, 1824, 2016, 1952, 1632, 1568, 1760, 1696]
      case _ => [688, 656, 752, 720, 560, 528, 624, 592, 944, 912, 1008, 976, 816, 784, 880, 848]
    else
      match row
      case 0 => [-5504, -5248, -6016, -5760, -4480, -4224, -4992, -4736,
                 -7552, -7296, -8064, -7808, -6528, -6272, -7040, -6784]
      case 1 => [-2752, -2624, -3008, -2880, -2240, -2112, -2496, -2368,
                 -3776, -3648, -4032, -3904, -3264, -3136, -3520, -3392]
      case 2 => [-22016, -20992, -24064, -23040, -17920, -16896, -19968, -18944,
                 -30208, -29184, -32256, -31232, -26112, -25088, -28160, -27136]
      case 3 => [-11008, -10496, -12032, -11520, -8960, -8448, -9984, -9472,
                 -15104, -14592, -16128, -15616, -13056, -12544, -14080, -13568]
      case 4 => [-344, -328, -376, -360, -280, -264, -312, -296, -472, -456, -504, -488, -408, -392, -440, -424]
      case 5 => [-88, -72, -120, -104, -24, -8, -56, -40, -216, -200, -248, -232, -152, -136, -184, -168]
      case 6 => [-1376, -1312, -1504, -1440, -1120, -1056, -1248, -1184,
                 -1888, -1824, -2016, -1952, -1632, -1568, -1760, -1696]
      case _ => [-688, -656, -752, -720, -560, -528, -624, -592, -944, -912, -1008, -976, -816, -784, -880, -848]
  }

  /** Entries 16 * row and on of the first half of muLawDecompressTable, or of the second if positive. */
  function MuLawDecompressRow(positive: bool, row: nat): seq<int>
  {
    if positive then
      match row
      case 0 => [32124, 31100, 30076, 29052, 28028, 27004, 25980, 24956,
                 23932, 22908, 21884, 20860, 19836, 18812, 17788, 16764]
      case 1 => [15996, 15484, 14972, 14460, 13948, 13436, 12924, 12412,
                 11900, 11388, 10876, 10364, 9852, 9340, 8828, 8316]
      case 2 => [7932, 7676, 7420, 7164, 6908, 6652, 6396, 6140, 5884, 5628, 5372, 5116, 4860, 4604, 4348, 4092]
      case 3 => [3900, 3772, 3644, 3516, 3388, 3260, 3132, 3004, 2876, 2748, 2620, 2492, 2364, 2236, 2108, 1980]
      case 4 => [1884, 1820, 1756, 1692, 1628, 1564, 1500, 1436, 1372, 1308, 1244, 1180, 1116, 1052, 988, 924]
      case 5 => [876, 844, 812, 780, 748, 716, 684, 652, 620, 588, 556, 524, 492, 460, 428, 396]
      case 6 => [372, 356, 340, 324, 308, 292, 276, 260, 244, 228, 212, 196, 180, 164, 148, 132]
      case _ => [120, 112, 104, 96, 88, 80, 72, 64, 56, 48, 40, 32, 24, 16, 8, 0]
    else
      match row
      case 0 => [-32124, -31100, -30076, -29052, -28028, -27004, -25980, -24956,
                 -23932, -22908, -21884, -20860, -19836, -18812, -17788, -16764]
      case 1 => [-15996, -15484, -14972, -14460, -13948, -13436, -12924, -12412,
                 -11900, -11388, -10876, -10364, -9852, -9340, -8828, -8316]
      case 2 => [-7932, -7676, -7420, -7164, -6908, -6652, -6396, -6140,
                 -5884, -5628, -5372, -5116, -4860, -4604, -4348, -4092]
      case 3 => [-3900, -3772, -3644, -3516, -3388, -3260, -3132, -3004,
                 -2876, -2748, -2620, -2492, -2364, -2236, -2108, -1980]
      case 4 => [-1884, -1820, -1756, -1692, -1628, -1564, -1500, -1436,
                 -1372, -1308, -1244, -1180, -1116, -1052, -988, -924]
      case 5 => [-876, -844, -812, -780, -748, -716, -684, -652, -620, -588, -556, -524, -492, -460, -428, -396]
      case 6 => [-372, -356, -340, -324, -308, -292, -276, -260, -244, -228, -212, -196, -180, -164, -148, -132]
      case _ => [-120, -112, -104, -96, -88, -80, -72, -64, -56, -48, -40, -32, -24, -16, -8, -1]
  }

  // ---------------------------------------------------------------- the shape of the tables

  /** x scaled by 2^(e + 3), the step of segment e. */
  function Scaled(e: nat, x: int): int
  {
    match e
    case 0 => 8 * x
    case 1 => 16 * x
    case 2 => 32 * x
    case 3 => 64 * x
    case 4 => 128 * x
    case 5 => 256 * x
    case 6 => 512 * x
    case _ => 1024 * x
  }

  /** The powers of two that bound the table's segments. */
  lemma SmallPowers(e: nat)
    requires e <= 8
    ensures Pow2(e) == match e
                       case 0 => 1 case 1 => 2 case 2 => 4 case 3 => 8 case 4 => 16 case 5 => 32 case 6 => 64
                       case 7 => 128 case _ => 256
  {
    assert Pow2(8) == 256;
  }

  /** aLawCompressTable holds floor(log2) + 1. */
  lemma ALawCompressIsLog(row: nat, k: nat)
    requires row < 8 && k < 16 && row + k > 0
    ensures var e := ALawCompress(row, k); 1 <= e <= 7 && Pow2(e - 1) <= 16 * row + k < Pow2(e)
  {
    SmallPowers(ALawCompress(row, k) - 1);
    SmallPowers(ALawCompress(row, k));
    if row == 0 {
    }
  }

  /** muLawCompressTable holds floor(log2). */
  lemma MuLawCompressIsLog(row: nat, k: nat)
    requires row < 16 && k < 16 && row + k > 0
    ensures var e := MuLawCompress(row, k); e <= 7 && Pow2(e) <= 16 * row + k < Pow2(e + 1)
  {
    SmallPowers(MuLawCompress(row, k));
    SmallPowers(MuLawCompress(row, k) + 1);
    if row == 0 {
    }
  }

  /** aLawCompressTable[i]; entry 0 is never used. */
  function ALawExponent(i: nat): (e: nat)
    requires 0 < i < 128
    ensures 1 <= e <= 7 && Pow2(e - 1) <= i < Pow2(e)
  {
    ALawCompressIsLog(i / 16, i % 16);
    ALawCompress(i / 16, i % 16)
  }

  /** muLawCompressTable[i]; entry 0 is never used. */
  function MuLawExponent(i: nat): (e: nat)
    requires 0 < i < 256
    ensures e <= 7 && Pow2(e) <= i < Pow2(e + 1)
  {
    MuLawCompressIsLog(i / 16, i % 16);
    MuLawCompress(i / 16, i % 16)
  }

  /** n ^ 5 for a 4-bit n */
  function Flip5(n: nat): nat
  {
    match n
    case 0 => 5
    case 1 => 4
    case 2 => 7
    case 3 => 6
    case 4 => 1
    case 5 => 0
    case 6 => 3
    case 7 => 2
    case 8 => 13
    case 9 => 12
    case 10 => 15
    case 11 => 14
    case 12 => 9
    case 13 => 8
    case 14 => 11
    case _ => 10
  }

  /** The middle of A-law step m of segment e. */
  function ALawMiddle(e: nat, m: nat): int
  {
    if e == 0 then 16 * m + 8 else Scaled(e, m + 16) + Scaled(e, 1) / 2
  }

  /** The middle of mu-law step m of segment e, the bias of 132 still added. */
  function MuLawMiddle(e: nat, m: nat): int
  {
    Scaled(e, m + 16) + Scaled(e, 1) / 2
  }

  /** 7 - n and 15 - n */
  function Flip7(n: nat): nat
  {
    match n
    case 0 => 7
    case 1 => 6
    case 2 => 5
    case 3 => 4
    case 4 => 3
    case 5 => 2
    case 6 => 1
    case _ => 0
  }

  function Flip15(n: nat): nat
  {
    match n
    case 0 => 15
    case 1 => 14
    case 2 => 13
    case 3 => 12
    case 4 => 11
    case 5 => 10
    case 6 => 9
    case 7 => 8
    case 8 => 7
    case 9 => 6
    case 10 => 5
    case 11 => 4
    case 12 => 3
    case 13 => 2
    case 14 => 1
    case _ => 0
  }

  function Signed(positive: bool, x: int): int { if positive then x else 0 - x }

  lemma ALawRow0(p: bool, k: nat)
    requires k < 16
    ensures ALawDecompressRow(p, 0)[k] == Signed(p, ALawMiddle(5, Flip5(k)))
  {
  }

  lemma ALawRow1(p: bool, k: nat)
    requires k < 16
    ensures ALawDecompressRow(p, 1)[k] == Signed(p, ALawMiddle(4, Flip5(k)))
  {
  }

  lemma ALawRow2(p: bool, k: nat)
    requires k < 16
    ensures ALawDecompressRow(p, 2)[k] == Signed(p, ALawMiddle(7, Flip5(k)))
  {
  }

  lemma ALawRow3(p: bool, k: nat)
    requires k < 16
    ensures ALawDecompressRow(p, 3)[k] == Signed(p, ALawMiddle(6, Flip5(k)))
  {
  }

  lemma ALawRow4(p: bool, k: nat)
    requires k < 16
    ensures ALawDecompressRow(p, 4)[k] == Signed(p, ALawMiddle(1, Flip5(k)))
  {
  }

  lemma ALawRow5(p: bool, k: nat)
    requires k < 16
    ensures ALawDecompressRow(p, 5)[k] == Signed(p, ALawMiddle(0, Flip5(k)))
  {
  }

  lemma ALawRow6(p: bool, k: nat)
    requires k < 16
    ensures ALawDecompressRow(p, 6)[k] == Signed(p, ALawMiddle(3, Flip5(k)))
  {
  }

  lemma ALawRow7(p: bool, k: nat)
    requires k < 16
    ensures ALawDecompressRow(p, 7)[k] == Signed(p, ALawMiddle(2, Flip5(k)))
  {
  }

  /** aLawDecompressTable holds the middles; bits 0, 2, 4 and 6 of a code are inverted. */
  lemma ALawDecompressIsMiddle(p: bool, row: nat, k: nat)
    requires row < 8 && k < 16
    ensures ALawDecompressRow(p, row)[k]
         == Signed(p, ALawMiddle(Flip5(row), Flip5(k)))
  {
    match row
    case 0 => ALawRow0(p, k);
    case 1 => ALawRow1(p, k);
    case 2 => ALawRow2(p, k);
    case 3 => ALawRow3(p, k);
    case 4 => ALawRow4(p, k);
    case 5 => ALawRow5(p, k);
    case 6 => ALawRow6(p, k);
    case _ => ALawRow7(p, k);
  }

  lemma MuLawRow0(p: bool, k: nat)
    requires k < 16
    ensures MuLawDecompressRow(p, 0)[k] == Signed(p, MuLawMiddle(7, Flip15(k)) - 132)
  {
  }

  lemma MuLawRow1(p: bool, k: nat)
    requires k < 16
    ensures MuLawDecompressRow(p, 1)[k] == Signed(p, MuLawMiddle(6, Flip15(k)) - 132)
  {
  }

  lemma MuLawRow2(p: bool, k: nat)
    requires k < 16
    ensures MuLawDecompressRow(p, 2)[k] == Signed(p, MuLawMiddle(5, Flip15(k)) - 132)
  {
  }

  lemma MuLawRow3(p: bool, k: nat)
    requires k < 16
    ensures MuLawDecompressRow(p, 3)[k] == Signed(p, MuLawMiddle(4, Flip15(k)) - 132)
  {
  }

  lemma MuLawRow4(p: bool, k: nat)
    requires k < 16
    ensures MuLawDecompressRow(p, 4)[k] == Signed(p, MuLawMiddle(3, Flip15(k)) - 132)
  {
  }

  lemma MuLawRow5(p: bool, k: nat)
    requires k < 16
    ensures MuLawDecompressRow(p, 5)[k] == Signed(p, MuLawMiddle(2, Flip15(k)) - 132)
  {
  }

  lemma MuLawRow6(p: bool, k: nat)
    requires k < 16
    ensures MuLawDecompressRow(p, 6)[k] == Signed(p, MuLawMiddle(1, Flip15(k)) - 132)
  {
  }

  lemma MuLawRow7(p: bool, k: nat)
    requires k < 16
    ensures MuLawDecompressRow(p, 7)[k] == if !p && k == 15 then -1 else Signed(p, MuLawMiddle(0, Flip15(k)) - 132)
  {
  }

  /** muLawDecompressTable holds the middles, except that code 0x7F, negative zero, gives -1; bits 0 to 6 of a code
      are inverted. */
  lemma MuLawDecompressIsMiddle(p: bool, row: nat, k: nat)
    requires row < 8 && k < 16
    ensures MuLawDecompressRow(p, row)[k]
         == if !p && row == 7 && k == 15 then -1 else Signed(p, MuLawMiddle(Flip7(row), Flip15(k)) - 132)
  {
    match row
    case 0 => MuLawRow0(p, k);
    case 1 => MuLawRow1(p, k);
    case 2 => MuLawRow2(p, k);
    case 3 => MuLawRow3(p, k);
    case 4 => MuLawRow4(p, k);
    case 5 => MuLawRow5(p, k);
    case 6 => MuLawRow6(p, k);
    case _ => MuLawRow7(p, k);
  }
}
