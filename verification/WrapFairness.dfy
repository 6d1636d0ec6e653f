/** The wrapping counter behind Next (pkg/distributor/distributor.go): for which weights the schedule stays fair when
    the counter wraps at 2^32. */
module WrapFairness {
  import opened Arith
  import opened Sums
  import opened Widths
  import opened Distributor

  /** Table index the m-th Next (m >= 1) reads when the counter started at 0 and wraps at 2^32. */
  function ServedIndex(size: nat, m: nat): (k: nat)
    requires Uint32(size) > 0
    ensures k < size
  {
    m % TWO_TO_THE_32 % Uint32(size)
  }

  /** The resource each Next call (numbered from 1) serves. */
  function ServedStream(w: seq<int>): nat -> int
    requires |w| > 0 && 0 < Sum(w) && Uint32(Sum(w)) > 0
  {
    (m: nat) => Pick(w, ServedIndex(Sum(w), m))
  }

  /** Weights a schedule can be built from, the first positive, and a table whose length fits uint32. */
  ghost predicate Schedulable(w: seq<int>)
  {
    |w| > 0 && NonNegative(w) && 0 < w[0] && Sum(w) < TWO_TO_THE_32
  }

  predicate CommonDivisor(g: nat, w: seq<int>)
  {
    g > 0 && forall i :: 0 <= i < |w| ==> w[i] % g == 0
  }

  /** Divided by some common divisor, the weights add up to a divisor of 2^32, that is to a power of two. */
  predicate FitsWrap(w: seq<int>)
    requires |w| > 0
  {
    exists g :: 1 <= g <= w[0] && CommonDivisor(g, w) && 0 < Sum(w) / g && TWO_TO_THE_32 % (Sum(w) / g) == 0
  }

  // ---------------------------------------------------------------- scaling the weights

  /** a is g times b. */
  ghost predicate IsScaled(a: seq<int>, b: seq<int>, g: nat)
  {
    |a| == |b| && forall i :: 0 <= i < |a| ==> a[i] == g * b[i]
  }

  lemma ScaledOrder(g: nat, a: int, b: int)
    requires g > 0
    ensures g * a > g * b <==> a > b
  {
    if a > b {
      MulMonotone(g, b + 1, a);
      Distribute(g, b, 1);
    } else {
      MulMonotone(g, a, b);
    }
  }

  lemma {:induction false} LeaderScales(w: seq<int>, c: seq<int>, v: seq<int>, e: seq<int>, g: nat, n: nat)
    requires g > 0 && IsScaled(w, v, g) && IsScaled(c, e, g) && |w| == |c| && 1 <= n <= |w|
    ensures Leader(w, c, n) == Leader(v, e, n)
  {
    if n > 1 {
      LeaderScales(w, c, v, e, g, n - 1);
      var l := Leader(v, e, n - 1);
      Distribute(g, e[l], v[l]);
      ScaledOrder(g, e[n - 1], e[l] + v[l]);
    }
  }

  lemma {:induction false} SumScales(a: seq<int>, b: seq<int>, g: nat, n: nat)
    requires IsScaled(a, b, g) && n <= |a|
    ensures SumTo(a, n) == g * SumTo(b, n)
  {
    if n > 0 {
      SumScales(a, b, g, n - 1);
      Distribute(g, SumTo(b, n - 1), b[n - 1]);
    }
  }

  lemma AdvanceScales(w: seq<int>, c: seq<int>, v: seq<int>, e: seq<int>, g: nat)
    requires g > 0 && IsScaled(w, v, g) && IsScaled(c, e, g) && |w| == |c| > 0
    ensures IsScaled(Advance(w, c), Advance(v, e), g)
  {
    LeaderScales(w, c, v, e, g, |w|);
    SumScales(w, v, g, |w|);
    forall i | 0 <= i < |w| ensures Advance(w, c)[i] == g * Advance(v, e)[i] {
      Distribute(g, e[i], v[i]);
      Distribute(g, e[i] + v[i], 0 - Sum(v));
    }
  }

  /** Multiplying all weights multiplies all credits and leaves every pick as it is. */
  lemma {:induction false} CreditsScale(w: seq<int>, v: seq<int>, g: nat, t: nat)
    requires g > 0 && IsScaled(w, v, g) && |w| > 0
    ensures IsScaled(Credits(w, t), Credits(v, t), g)
  {
    if t > 0 {
      CreditsScale(w, v, g, t - 1);
      AdvanceScales(w, Credits(w, t - 1), v, Credits(v, t - 1), g);
    }
  }

  lemma PicksScale(w: seq<int>, v: seq<int>, g: nat, t: nat)
    requires g > 0 && IsScaled(w, v, g) && |w| > 0
    ensures Pick(w, t) == Pick(v, t)
  {
    CreditsScale(w, v, g, t);
    LeaderScales(w, Credits(w, t), v, Credits(v, t), g, |w|);
  }

  function Divided(w: seq<int>, g: nat): (v: seq<int>)
    requires g > 0
    ensures |v| == |w| && forall i :: 0 <= i < |w| ==> v[i] == w[i] / g
  {
    seq(|w|, i requires 0 <= i < |w| => w[i] / g)
  }

  lemma ExactQuotient(x: int, g: nat)
    requires g > 0 && x % g == 0
    ensures x == g * (x / g) && (0 <= x ==> 0 <= x / g) && (0 < x ==> 0 < x / g)
  {
    if x / g < 0 {
      MulMonotone(g, x / g, -1);
    }
  }

  lemma DividedIsScaled(w: seq<int>, g: nat)
    requires CommonDivisor(g, w) && |w| > 0 && NonNegative(w) && 0 < w[0]
    ensures IsScaled(w, Divided(w, g), g) && NonNegative(Divided(w, g)) && 0 < Divided(w, g)[0]
    ensures Sum(Divided(w, g)) == Sum(w) / g
  {
    var v := Divided(w, g);
    forall i | 0 <= i < |w| ensures w[i] == g * v[i] && 0 <= v[i] && (0 < w[i] ==> 0 < v[i]) {
      ExactQuotient(w[i], g);
    }
    SumScales(w, v, g, |w|);
    ModUnique(Sum(w), g, Sum(v), 0);
  }

  // ---------------------------------------------------------------- periods

  ghost predicate HasPeriod(f: nat -> int, p: nat)
  {
    p > 0 && forall t: nat :: f(t + p) == f(t)
  }

  lemma PeriodAt(f: nat -> int, p: nat, t: nat)
    requires HasPeriod(f, p)
    ensures f(t + p) == f(t)
  {
  }

  lemma PeriodsSubtract(f: nat -> int, p: nat, q: nat)
    requires HasPeriod(f, p) && HasPeriod(f, q) && p > q
    ensures HasPeriod(f, p - q)
  {
    forall t: nat ensures f(t + (p - q)) == f(t) {
      PeriodAt(f, p, t);
      PeriodAt(f, q, t + (p - q));
      assert t + (p - q) + q == t + p;
    }
  }

  lemma DividesSum(a: nat, b: nat, d: nat)
    requires d > 0 && a % d == 0 && b % d == 0
    ensures (a + b) % d == 0
  {
    ModAdd(a, b, d);
  }

  /** A stream with two periods has a period that divides both. */
  lemma {:induction false} CommonPeriod(f: nat -> int, p: nat, q: nat) returns (d: nat)
    requires HasPeriod(f, p) && HasPeriod(f, q)
    ensures HasPeriod(f, d) && p % d == 0 && q % d == 0
    decreases p + q
  {
    if p == q {
      d := p;
      ModUnique(p, p, 1, 0);
    } else if p > q {
      PeriodsSubtract(f, p, q);
      d := CommonPeriod(f, p - q, q);
      DividesSum(p - q, q, d);
    } else {
      PeriodsSubtract(f, q, p);
      d := CommonPeriod(f, p, q - p);
      DividesSum(q - p, p, d);
    }
  }

  lemma {:induction false} WindowSplits(f: nat -> int, from: nat, a: nat, b: nat, x: int)
    ensures Count(Window(f, from, a + b), x) == Count(Window(f, from, a), x) + Count(Window(f, from + a, b), x)
  {
    if b > 0 {
      WindowSplits(f, from, a, b - 1, x);
      CountAppend(Window(f, from, a + b - 1), f(from + a + b - 1), x);
      CountAppend(Window(f, from + a, b - 1), f(from + a + b - 1), x);
    }
  }

  /** k periods hold every value k times as often as one. */
  lemma {:induction false} CountOfPeriods(f: nat -> int, d: nat, k: nat, x: int)
    requires HasPeriod(f, d)
    ensures Count(Window(f, 0, d * k), x) == k * Count(Window(f, 0, d), x)
  {
    if k > 0 {
      CountOfPeriods(f, d, k - 1, x);
      Distribute(d, k - 1, 1);
      WindowSplits(f, 0, d * (k - 1), d, x);
      WindowsOfPeriodAgree(f, d, d * (k - 1), x);
      Distribute(Count(Window(f, 0, d), x), k - 1, 1);
    } else {
      assert d * k == 0;
    }
  }

  // ---------------------------------------------------------------- what the wrap does

  /** Every Next call, for ever, serves what the endless stream has at its place. */
  ghost predicate RefinesForEver(w: seq<int>)
    requires |w| > 0 && 0 < Sum(w) && Uint32(Sum(w)) > 0
  {
    forall m: nat :: ServedStream(w)(m) == Stream(w)(m)
  }

  /** Any Sum(w) consecutive Next calls, for ever, use each resource exactly Weight times. */
  ghost predicate FairForEver(w: seq<int>)
    requires |w| > 0 && 0 < Sum(w) && Uint32(Sum(w)) > 0
  {
    forall first: nat, i :: 0 <= i < |w| ==> Count(Window(ServedStream(w), first, Sum(w)), i) == w[i]
  }

  lemma TableFits(w: seq<int>)
    requires Schedulable(w)
    ensures 0 < Sum(w) && TableIsExact(w) && Uint32(Sum(w)) == Sum(w)
  {
    ExactWhenFirstIsPositive(w);
  }

  /** Until the counter wraps, and for ever if the weights fit the wrap, call m of Next serves position m of
      the endless stream. */
  lemma NextRefinesStream(w: seq<int>, m: nat)
    requires Schedulable(w) && (m < TWO_TO_THE_32 || FitsWrap(w))
    ensures 0 < Sum(w) && Uint32(Sum(w)) > 0 && Pick(w, ServedIndex(Sum(w), m)) == Pick(w, m)
  {
    TableFits(w);
    StreamIsPeriodic(w);
    var k := m % TWO_TO_THE_32;
    assert Pick(w, k % Sum(w)) == Pick(w, k);
    if m >= TWO_TO_THE_32 {
      var g :| 1 <= g <= w[0] && CommonDivisor(g, w) && 0 < Sum(w) / g && TWO_TO_THE_32 % (Sum(w) / g) == 0;
      var v := Divided(w, g);
      DividedIsScaled(w, g);
      ExactWhenFirstIsPositive(v);
      StreamIsPeriodic(v);
      ModOfMod(m, TWO_TO_THE_32, Sum(v));
      assert Pick(v, k) == Pick(v, k % Sum(v)) == Pick(v, m % Sum(v)) == Pick(v, m);
      PicksScale(w, v, g, k);
      PicksScale(w, v, g, m);
    }
  }

  lemma RefiningHasWrapPeriod(w: seq<int>)
    requires Schedulable(w) && 0 < Sum(w) && Uint32(Sum(w)) > 0 && RefinesForEver(w)
    ensures HasPeriod(Stream(w), TWO_TO_THE_32)
  {
    var f, s := Stream(w), ServedStream(w);
    forall t: nat ensures f(t + TWO_TO_THE_32) == f(t) {
      ModAddMultiple(t, TWO_TO_THE_32, 1);
      assert s(t + TWO_TO_THE_32) == s(t);
      assert s(t) == f(t) && s(t + TWO_TO_THE_32) == f(t + TWO_TO_THE_32);
    }
  }

  /** A stream that also has the period of the counter comes from weights that fit the wrap. */
  lemma WrapPeriodMeansFit(w: seq<int>)
    requires Schedulable(w) && HasPeriod(Stream(w), TWO_TO_THE_32)
    ensures FitsWrap(w)
  {
    TableFits(w);
    StreamIsPeriodic(w);
    var f, total := Stream(w), Sum(w);
    var d := CommonPeriod(f, total, TWO_TO_THE_32);
    var k := total / d;
    ExactQuotient(total, d);
    forall i | 0 <= i < |w| ensures w[i] % k == 0 {
      CountOfPeriods(f, d, k, i);
      assert w[i] == Count(Picks(w, 0, total), i) == k * Count(Window(f, 0, d), i);
      ModUnique(w[i], k, Count(Window(f, 0, d), i), 0);
    }
    ModUnique(total, k, d, 0);
    ExactQuotient(w[0], k);
    MulMonotone(k, 1, w[0] / k);
    assert CommonDivisor(k, w);
  }

  /** Consecutive windows that hold every value equally often differ in nothing but their ends, which are
      equal. */
  lemma EqualWindowsMeanPeriod(s: nat -> int, n: nat, t: nat)
    requires n > 0
    requires Count(Window(s, t, n), s(t)) == Count(Window(s, t + 1, n), s(t))
    ensures s(t + n) == s(t)
  {
    var middle, y := Window(s, t + 1, n - 1), s(t);
    WindowFromFront(s, t, n);
    CountPrepend(middle, y, y, n - 1);
    CountAppend(middle, s(t + n), y);
    assert t + 1 + (n - 1) == t + n;
    assert Window(s, t + 1, n) == middle + [s(t + n)];
  }

  lemma FairMeansPeriodic(w: seq<int>)
    requires |w| > 0 && 0 < Sum(w) && Uint32(Sum(w)) > 0 && FairForEver(w)
    ensures HasPeriod(ServedStream(w), Sum(w))
  {
    var s, n := ServedStream(w), Sum(w);
    forall t: nat ensures s(t + n) == s(t) {
      var y := s(t);
      assert Count(Window(s, t, n), y) == w[y] && Count(Window(s, t + 1, n), y) == w[y];
      EqualWindowsMeanPeriod(s, n, t);
    }
  }

  lemma FairMeansRefining(w: seq<int>)
    requires Schedulable(w) && 0 < Sum(w) && Uint32(Sum(w)) > 0 && FairForEver(w)
    ensures RefinesForEver(w)
  {
    TableFits(w);
    StreamIsPeriodic(w);
    FairMeansPeriodic(w);
    var f, s, n := Stream(w), ServedStream(w), Sum(w);
    forall m: nat ensures s(m) == f(m) {
      PeriodicByMod(s, n, m);
      PeriodicByMod(f, n, m);
      NextRefinesStream(w, m % n);
      assert s(m % n) == f(m % n);
    }
  }

  lemma FittingIsFair(w: seq<int>, first: nat, i: nat)
    requires Schedulable(w) && i < |w| && (first + Sum(w) <= TWO_TO_THE_32 || FitsWrap(w))
    ensures 0 < Sum(w) && Uint32(Sum(w)) > 0 && Count(Window(ServedStream(w), first, Sum(w)), i) == w[i]
  {
    TableFits(w);
    EveryWindowIsExact(w, first, i);
    var f, g, n := Stream(w), ServedStream(w), Sum(w);
    forall t: nat | first <= t < first + n ensures f(t) == g(t) {
      NextRefinesStream(w, t);
    }
    WindowsEqual(f, g, first, n);
  }

  /** Exactly the weights that, over a common divisor, add up to a power of two up to 2^32 survive the wrap:
      then every call serves the stream, otherwise some call does not. */
  lemma RefinesForEverIff(w: seq<int>)
    requires Schedulable(w)
    ensures 0 < Sum(w) && Uint32(Sum(w)) > 0 && (RefinesForEver(w) <==> FitsWrap(w))
  {
    TableFits(w);
    if FitsWrap(w) {
      forall m: nat ensures ServedStream(w)(m) == Stream(w)(m) {
        NextRefinesStream(w, m);
      }
    } else if RefinesForEver(w) {
      RefiningHasWrapPeriod(w);
      WrapPeriodMeansFit(w);
    }
  }

  /** The same weights are those for which every total-weight window of calls, wrap or not, is fair. */
  lemma FairForEverIff(w: seq<int>)
    requires Schedulable(w)
    ensures 0 < Sum(w) && Uint32(Sum(w)) > 0 && (FairForEver(w) <==> FitsWrap(w))
  {
    TableFits(w);
    if FitsWrap(w) {
      forall first: nat, i | 0 <= i < |w| ensures Count(Window(ServedStream(w), first, Sum(w)), i) == w[i] {
        FittingIsFair(w, first, i);
      }
    } else if FairForEver(w) {
      FairMeansRefining(w);
      RefinesForEverIff(w);
    }
  }

  /** With weights 1 and 2 the call that wraps the counter to 0 serves the first resource where the endless
      stream has the second. */
  lemma WrapCanSkip()
    ensures var w := [1, 2];
            && Sum(w) == 3 && TableIsExact(w)
            && Pick(w, ServedIndex(3, TWO_TO_THE_32)) == 0
            && Pick(w, TWO_TO_THE_32) == 1
  {
    var w := [1, 2];
    assert SumTo(w, 1) == 1 && Sum(w) == 3;
    ExactWhenFirstIsPositive(w);
    FirstTwoPicks();
    StreamIsPeriodic(w);
    assert TWO_TO_THE_32 % 3 == 1;
  }

  lemma FirstTwoPicks()
    ensures Pick([1, 2], 0) == 0 && Pick([1, 2], 1) == 1
  {
    var w := [1, 2];
    assert SumTo(w, 1) == 1 && Sum(w) == 3;
    assert Credits(w, 0) == [0, 0];
    assert Leader(w, [0, 0], 1) == 0;
    assert Credits(w, 1) == [-2, 2];
    assert Leader(w, [-2, 2], 1) == 0;
  }
}
