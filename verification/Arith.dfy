/** The few facts of non-linear arithmetic the other modules need, each proved on its own. */
module Arith {

  lemma MulNonNegative(a: int, b: int)
    requires 0 <= a && 0 <= b
    ensures 0 <= a * b
  {
  }

  lemma MulMonotone(a: int, x: int, y: int)
    requires 0 <= a && x <= y
    ensures a * x <= a * y
  {
    MulNonNegative(a, y - x);
    assert a * y == a * x + a * (y - x);
  }

  lemma Distribute(a: int, x: int, y: int)
    ensures a * (x + y) == a * x + a * y
    ensures (x + y) * a == x * a + y * a
  {
  }

  lemma MoveAcross(x: int, k: int, y: int)
    requires x + k * (0 - y) <= 0
    ensures x <= k * y
  {
  }

  /** If total*n stays below total*(m+1), then n <= m. */
  lemma MulCancel(total: int, n: int, m: int)
    requires 0 < total && total * n < total * m + total
    ensures n <= m
  {
    if m + 1 <= n {
      MulMonotone(total, m + 1, n);
      Distribute(total, m, 1);
      assert false;
    }
  }

  /** Quotient and remainder are unique. */
  lemma ModUnique(x: int, m: int, q: int, r: int)
    requires 0 < m && 0 <= r < m && x == m * q + r
    ensures x % m == r && x / m == q
  {
    var q', r' := x / m, x % m;
    assert x == m * q' + r';
    if q < q' {
      MulMonotone(m, q + 1, q');
      Distribute(m, q, 1);
      assert false;
    } else if q' < q {
      MulMonotone(m, q' + 1, q);
      Distribute(m, q', 1);
      assert false;
    }
  }

  lemma ModAddMultiple(x: int, m: int, k: int)
    requires 0 < m
    ensures (x + m * k) % m == x % m
  {
    Distribute(m, x / m, k);
    ModUnique(x + m * k, m, x / m + k, x % m);
  }

  /** Reducing modulo a multiple of m first changes nothing modulo m. */
  lemma ModOfMod(x: int, big: int, m: int)
    requires 0 < m && 0 < big && big % m == 0
    ensures x % big % m == x % m
  {
    var b := big / m;
    var q := x / big;
    assert big == m * b;
    assert x == x % big + big * q;
    assert big * q == m * (b * q);
    ModAddMultiple(x % big, m, b * q);
  }

  /** Adding before or after reduction is the same. */
  lemma ModAdd(x: int, y: int, m: int)
    requires 0 < m
    ensures (x % m + y) % m == (x + y) % m
  {
    ModAddMultiple(x % m + y, m, x / m);
    assert x == x % m + m * (x / m);
  }

  /** Numbers less than m apart with the same remainder are equal. */
  lemma ModInjective(x: int, y: int, m: int)
    requires 0 < m && x % m == y % m && -m < x - y < m
    ensures x == y
  {
    var a, b := x / m, y / m;
    assert x == m * a + x % m && y == m * b + y % m;
    Distribute(m, a, -b);
    if a < b {
      MulMonotone(m, a + 1, b);
      Distribute(m, a, 1);
      assert false;
    } else if b < a {
      MulMonotone(m, b + 1, a);
      Distribute(m, b, 1);
      assert false;
    }
  }

  /** Moving less than n ahead changes the remainder modulo n, also across a wrap at a multiple of n. */
  lemma WrapDiffers(i: int, d: int, n: int, big: int)
    requires 0 < d < n && big % n == 0
    ensures (i + d) % n != i % n && (i + d - big) % n != i % n
  {
    var q := 0 - big / n;
    assert n * q == 0 - big;
    ModAddMultiple(i + d, n, q);
    if (i + d) % n == i % n {
      ModInjective(i + d, i, n);
      assert false;
    }
  }
}
