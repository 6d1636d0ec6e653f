/** Bytes and 16-bit words. */
module Bytes {
  import opened Widths

  type byte = b: nat | b < 0x100
  type uint16 = x: nat | x < 0x1_0000

  function High(x: uint16): byte { x / 0x100 }

  function Low(x: uint16): byte { x % 0x100 }

  function Word(high: byte, low: byte): uint16 { high * 0x100 + low }

  lemma WordOfHalves(x: uint16)
    ensures Word(High(x), Low(x)) == x
  {
  }

  lemma HalvesOfWord(high: byte, low: byte)
    ensures High(Word(high, low)) == high && Low(Word(high, low)) == low
  {
  }

  /** uint64 addition */
  function Add64(x: nat, y: nat): nat { (x + y) % TWO_TO_THE_64 }
}
