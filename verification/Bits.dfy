/** Bitwise operators of the fixed-width integers, bit by bit on the numbers they hold. */
module Bits {
  import opened Arith

  function Pow2(e: nat): (p: nat)
    ensures p > 0
  {
    if e == 0 then 1 else 2 * Pow2(e - 1)
  }

  /** x & y */
  function And(x: nat, y: nat): nat
  {
    if x == 0 || y == 0 then 0
    else (if x % 2 == 1 && y % 2 == 1 then 1 else 0) + 2 * And(x / 2, y / 2)
  }

  lemma AndOdd(x: nat, y: nat)
    ensures And(x, 2 * y + 1) == x % 2 + 2 * And(x / 2, y)
  {
    assert (2 * y + 1) / 2 == y && (2 * y + 1) % 2 == 1;
    if x == 0 {
      assert And(0, y) == 0;
    }
  }

  /** Masking with a power of two minus one is reduction modulo that power. */
  lemma {:induction false} AndMask(x: nat, e: nat)
    ensures And(x, Pow2(e) - 1) == x % Pow2(e)
  {
    if e > 0 {
      var p := Pow2(e - 1);
      AndMask(x / 2, e - 1);
      AndOdd(x, p - 1);
      ModDouble(x, p);
      assert Pow2(e) - 1 == 2 * (p - 1) + 1;
    }
  }

  lemma ModDouble(x: nat, p: nat)
    requires p > 0
    ensures x % (2 * p) == x % 2 + 2 * (x / 2 % p)
  {
    var q := x / 2 / p;
    Distribute(q, p, p);
    ModUnique(x, 2 * p, q, x % 2 + 2 * (x / 2 % p));
  }

  lemma {:induction false} Pow2Divides(d: nat, e: nat)
    requires d <= e
    ensures Pow2(e) % Pow2(d) == 0
  {
    if d == e {
      ModUnique(Pow2(e), Pow2(d), 1, 0);
    } else {
      Pow2Divides(d, e - 1);
      var q := Pow2(e - 1) / Pow2(d);
      Distribute(Pow2(d), q, q);
      ModUnique(Pow2(e), Pow2(d), 2 * q, 0);
    }
  }

  lemma Pow2Of32()
    ensures Pow2(32) == 0x1_0000_0000 && Pow2(64) == 0x1_0000_0000_0000_0000
  {
    assert Pow2(8) == 0x100 && Pow2(16) == 0x1_0000 && Pow2(24) == 0x100_0000;
    assert Pow2(32) == 0x1_0000_0000;
    assert Pow2(40) == 0x100_0000_0000 && Pow2(48) == 0x1_0000_0000_0000 && Pow2(56) == 0x100_0000_0000_0000;
  }
}
