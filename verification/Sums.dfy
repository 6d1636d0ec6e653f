/** Sums and counts over sequences, by index so that no proof has to reason about slices. */
module Sums {
  import opened Arith

  function SumTo(s: seq<int>, n: nat): int
    requires n <= |s|
  {
    if n == 0 then 0 else SumTo(s, n - 1) + s[n - 1]
  }

  function Sum(s: seq<int>): int
  {
    SumTo(s, |s|)
  }

  lemma {:induction false} SumPrefix(s: seq<int>, t: seq<int>, n: nat)
    requires n <= |s| && n <= |t|
    requires forall i :: 0 <= i < n ==> s[i] == t[i]
    ensures SumTo(s, n) == SumTo(t, n)
  {
    if n > 0 {
      SumPrefix(s, t, n - 1);
    }
  }

  lemma {:induction false} SumToUpdate(s: seq<int>, i: nat, x: int, n: nat)
    requires i < |s| && n <= |s|
    ensures SumTo(s[i := x], n) == SumTo(s, n) + (if i < n then x - s[i] else 0)
  {
    if n > 0 {
      SumToUpdate(s, i, x, n - 1);
    }
  }

  lemma SumUpdate(s: seq<int>, i: nat, x: int)
    requires i < |s|
    ensures Sum(s[i := x]) == Sum(s) - s[i] + x
  {
    SumToUpdate(s, i, x, |s|);
  }

  /** Adding two sequences pointwise adds their sums. */
  lemma {:induction false} SumPointwise(a: seq<int>, b: seq<int>, c: seq<int>, n: nat)
    requires |a| == |b| == |c| && n <= |a|
    requires forall i :: 0 <= i < n ==> c[i] == a[i] + b[i]
    ensures SumTo(c, n) == SumTo(a, n) + SumTo(b, n)
  {
    if n > 0 {
      SumPointwise(a, b, c, n - 1);
    }
  }

  lemma {:induction false} SumOfZeros(s: seq<int>, n: nat)
    requires n <= |s|
    requires forall i :: 0 <= i < n ==> s[i] == 0
    ensures SumTo(s, n) == 0
  {
    if n > 0 {
      SumOfZeros(s, n - 1);
    }
  }

  lemma {:induction false} SumAtLeast(s: seq<int>, lo: int, n: nat)
    requires n <= |s|
    requires forall k :: 0 <= k < n ==> lo <= s[k]
    ensures n * lo <= SumTo(s, n)
  {
    if n > 0 {
      SumAtLeast(s, lo, n - 1);
      Distribute(lo, n - 1, 1);
    }
  }

  /** When every entry is at least lo, one entry is at most the sum minus the bound on the others. */
  lemma OneAgainstRest(s: seq<int>, i: nat, lo: int)
    requires i < |s|
    requires forall k :: 0 <= k < |s| ==> lo <= s[k]
    ensures s[i] <= Sum(s) - (|s| - 1) * lo
  {
    SumUpdate(s, i, lo);
    SumAtLeast(s[i := lo], lo, |s|);
    Distribute(lo, |s| - 1, 1);
  }

  /** The same with lo = 0. */
  lemma OneIsAtMostSum(s: seq<int>, i: nat)
    requires i < |s|
    requires forall k :: 0 <= k < |s| ==> 0 <= s[k]
    ensures 0 <= s[i] <= Sum(s)
  {
    OneAgainstRest(s, i, 0);
  }

  lemma SumDominated(a: seq<int>, b: seq<int>, i: nat)
    requires |a| == |b| && i < |a|
    requires forall k :: 0 <= k < |a| ==> a[k] <= b[k]
    requires Sum(a) == Sum(b)
    ensures a[i] == b[i]
  {
    var d := seq(|a|, k requires 0 <= k < |a| => b[k] - a[k]);
    SumPointwise(a, d, b, |a|);
    OneIsAtMostSum(d, i);
  }

  function CountTo(s: seq<int>, x: int, n: nat): nat
    requires n <= |s|
  {
    if n == 0 then 0 else CountTo(s, x, n - 1) + (if s[n - 1] == x then 1 else 0)
  }

  function Count(s: seq<int>, x: int): nat
  {
    CountTo(s, x, |s|)
  }

  lemma {:induction false} CountPrefix(s: seq<int>, t: seq<int>, x: int, n: nat)
    requires n <= |s| && n <= |t|
    requires forall i :: 0 <= i < n ==> s[i] == t[i]
    ensures CountTo(s, x, n) == CountTo(t, x, n)
  {
    if n > 0 {
      CountPrefix(s, t, x, n - 1);
    }
  }

  lemma CountAppend(s: seq<int>, y: int, x: int)
    ensures Count(s + [y], x) == Count(s, x) + (if y == x then 1 else 0)
  {
    CountPrefix(s + [y], s, x, |s|);
  }

  lemma {:induction false} CountPrepend(s: seq<int>, y: int, x: int, n: nat)
    requires n <= |s|
    ensures CountTo([y] + s, x, n + 1) == CountTo(s, x, n) + (if y == x then 1 else 0)
  {
    if n > 0 {
      CountPrepend(s, y, x, n - 1);
    }
  }

  lemma {:induction false} CountOfMember(s: seq<int>, j: nat, n: nat)
    requires j < n <= |s|
    ensures 0 < CountTo(s, s[j], n)
  {
    if j < n - 1 {
      CountOfMember(s, j, n - 1);
    }
  }

  /** n consecutive values of an endless stream. */
  function Window(f: nat -> int, from: nat, n: nat): (s: seq<int>)
    ensures |s| == n
  {
    if n == 0 then [] else Window(f, from, n - 1) + [f(from + n - 1)]
  }

  lemma {:induction false} WindowAt(f: nat -> int, from: nat, n: nat, k: nat)
    requires k < n
    ensures Window(f, from, n)[k] == f(from + k)
  {
    if k < n - 1 {
      WindowAt(f, from, n - 1, k);
    }
  }

  lemma {:induction false} WindowFromFront(f: nat -> int, from: nat, n: nat)
    requires n > 0
    ensures Window(f, from, n) == [f(from)] + Window(f, from + 1, n - 1)
  {
    if n > 1 {
      WindowFromFront(f, from, n - 1);
    }
  }

  lemma {:induction false} WindowsEqual(f: nat -> int, g: nat -> int, from: nat, n: nat)
    requires forall t: nat :: from <= t < from + n ==> f(t) == g(t)
    ensures Window(f, from, n) == Window(g, from, n)
  {
    if n > 0 {
      WindowsEqual(f, g, from, n - 1);
    }
  }

  /** All windows of one period of a periodic stream hold the same values equally often. */
  lemma {:induction false} WindowsOfPeriodAgree(f: nat -> int, p: nat, from: nat, x: int)
    requires p > 0 && forall t: nat :: f(t + p) == f(t)
    ensures Count(Window(f, from, p), x) == Count(Window(f, 0, p), x)
  {
    if from > 0 {
      WindowsOfPeriodAgree(f, p, from - 1, x);
      var y, middle := f(from - 1), Window(f, from, p - 1);
      WindowFromFront(f, from - 1, p);
      assert f(from - 1 + p) == y;
      CountPrepend(middle, y, x, p - 1);
      CountAppend(middle, y, x);
    }
  }

  /** A periodic stream is determined by its first period. */
  lemma {:induction false} PeriodicByMod(f: nat -> int, p: nat, t: nat)
    requires p > 0 && forall u: nat :: f(u + p) == f(u)
    ensures f(t % p) == f(t)
  {
    if t >= p {
      PeriodicByMod(f, p, t - p);
      ModAddMultiple(t, p, -1);
      assert f(t - p + p) == f(t - p);
    } else {
      ModUnique(t, p, 0, t);
    }
  }
}
