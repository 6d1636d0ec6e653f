/** The ranges of the fixed-width unsigned integers. */
module Widths {
  const TWO_TO_THE_16: nat := 0x1_0000
  const TWO_TO_THE_32: nat := 0x1_0000_0000
  const TWO_TO_THE_64: nat := 0x1_0000_0000_0000_0000

  /** uint16(x), uint32(x) */
  function Uint16(x: nat): nat { x % TWO_TO_THE_16 }

  function Uint32(x: nat): (r: nat)
    ensures r <= x && r < TWO_TO_THE_32
  {
    x % TWO_TO_THE_32
  }
}
