/** pkg/distributor/distributor.go: smooth weighted round robin and its precomputed table. */
module Distributor {
  import opened Arith
  import opened Sums
  import opened Widths

  // ---------------------------------------------------------------- the credit scheme on values

  /** The slot `got` points to after the first n iterations of the loop in calc: slot n-1 is compared with
      its credit from before the increment, the slot held so far with its credit from after it. */
  function Leader(w: seq<int>, c: seq<int>, n: nat): (g: nat)
    requires |w| == |c| && 1 <= n <= |w|
    ensures g < n
  {
    if n == 1 then 0
    else
      var g := Leader(w, c, n - 1);
      if c[n - 1] > c[g] + w[g] then n - 1 else g
  }

  function Winner(w: seq<int>, c: seq<int>): (g: nat)
    requires |w| == |c| > 0
    ensures g < |w|
  {
    Leader(w, c, |w|)
  }

  /** Credits after one calc. */
  function Advance(w: seq<int>, c: seq<int>): (d: seq<int>)
    requires |w| == |c| > 0
    ensures |d| == |w|
  {
    var g := Winner(w, c);
    var raised := seq(|w|, i requires 0 <= i < |w| => c[i] + w[i]);
    raised[g := raised[g] - Sum(w)]
  }

  /** Credits after t calls of calc on fresh resources. */
  function Credits(w: seq<int>, t: nat): (c: seq<int>)
    requires |w| > 0
    ensures |c| == |w|
  {
    if t == 0 then seq(|w|, _ => 0) else Advance(w, Credits(w, t - 1))
  }

  /** The resource calc number t (from 0) of the endless stream returns. */
  function Pick(w: seq<int>, t: nat): (g: nat)
    requires |w| > 0
    ensures g < |w|
  {
    Winner(w, Credits(w, t))
  }

  /** The endless stream of picks. */
  function Stream(w: seq<int>): nat -> int
    requires |w| > 0
  {
    (t: nat) => Pick(w, t)
  }

  /** n consecutive picks of the endless stream. */
  function Picks(w: seq<int>, from: nat, n: nat): (p: seq<int>)
    requires |w| > 0
    ensures |p| == n
  {
    Window(Stream(w), from, n)
  }

  ghost predicate NonNegative(w: seq<int>)
  {
    forall i :: 0 <= i < |w| ==> 0 <= w[i]
  }

  /** Credits never drift: they sum to 0 after every calc. */
  lemma {:induction false} CreditsSumToZero(w: seq<int>, t: nat)
    requires |w| > 0
    ensures Sum(Credits(w, t)) == 0
  {
    if t == 0 {
      SumOfZeros(Credits(w, 0), |w|);
    } else {
      var c := Credits(w, t - 1);
      CreditsSumToZero(w, t - 1);
      var raised := seq(|w|, i requires 0 <= i < |w| => c[i] + w[i]);
      SumPointwise(c, w, raised, |w|);
      var g := Winner(w, c);
      SumUpdate(raised, g, raised[g] - Sum(w));
    }
  }

  /** Although the comparison is stale, the leader's live credit bounds every stale credit seen so far. */
  lemma {:induction false} LeaderDominates(w: seq<int>, c: seq<int>, n: nat)
    requires |w| == |c| && 1 <= n <= |w| && NonNegative(w)
    ensures var g := Leader(w, c, n);
            forall i :: 0 <= i < n ==> c[i] <= c[g] + w[g]
  {
    if n > 1 {
      LeaderDominates(w, c, n - 1);
    }
  }

  // ---------------------------------------------------------------- which slot wins

  /** Slot b is ahead of slot a: its stale credit exceeds the live credit of a. */
  predicate Ahead(w: seq<int>, c: seq<int>, a: nat, b: nat)
    requires |w| == |c| && a < |w| && b < |w|
  {
    c[b] > c[a] + w[a]
  }

  /** After slot a no slot before `end` is ahead of it. */
  ghost predicate HoldsTo(w: seq<int>, c: seq<int>, a: nat, end: nat)
    requires |w| == |c| && a < |w| && end <= |w|
  {
    forall i: nat :: a < i < end ==> !Ahead(w, c, a, i)
  }

  /** Slot b is the first one after slot a that is ahead of it. */
  ghost predicate TakesOver(w: seq<int>, c: seq<int>, a: nat, b: nat)
    requires |w| == |c| && a < |w| && b < |w|
  {
    a < b && Ahead(w, c, a, b) && HoldsTo(w, c, a, b)
  }

  /** The slots that lead in turn among the first n: the first slot, then always the next slot that is ahead of the
      one before it, to one that nobody after it is ahead of. A tie takes nothing over. */
  ghost predicate Takeovers(w: seq<int>, c: seq<int>, n: nat, ks: seq<nat>)
    requires |w| == |c| && n <= |w|
  {
    && ks != [] && ks[0] == 0
    && (forall m :: 0 <= m < |ks| ==> ks[m] < n)
    && (forall m :: 0 < m < |ks| ==> TakesOver(w, c, ks[m - 1], ks[m]))
    && HoldsTo(w, c, ks[|ks| - 1], n)
  }

  lemma HoldsOn(w: seq<int>, c: seq<int>, n: nat, ks: seq<nat>)
    requires |w| == |c| && n < |w| && Takeovers(w, c, n, ks) && !Ahead(w, c, ks[|ks| - 1], n)
    ensures Takeovers(w, c, n + 1, ks)
  {
  }

  lemma IsTakenOver(w: seq<int>, c: seq<int>, n: nat, ks: seq<nat>)
    requires |w| == |c| && n < |w| && Takeovers(w, c, n, ks) && Ahead(w, c, ks[|ks| - 1], n)
    ensures Takeovers(w, c, n + 1, ks + [n])
  {
  }

  lemma {:induction false} LeaderHasTakeovers(w: seq<int>, c: seq<int>, n: nat) returns (ks: seq<nat>)
    requires |w| == |c| && 1 <= n <= |w|
    ensures Takeovers(w, c, n, ks) && ks[|ks| - 1] == Leader(w, c, n)
  {
    if n == 1 {
      ks := [0];
    } else {
      ks := LeaderHasTakeovers(w, c, n - 1);
      if Ahead(w, c, ks[|ks| - 1], n - 1) {
        IsTakenOver(w, c, n - 1, ks);
        ks := ks + [n - 1];
      } else {
        HoldsOn(w, c, n - 1, ks);
      }
    }
  }

  lemma {:induction false} HolderLeads(w: seq<int>, c: seq<int>, a: nat, end: nat, i: nat)
    requires |w| == |c| && a < i <= end <= |w| && HoldsTo(w, c, a, end) && Leader(w, c, a + 1) == a
    ensures Leader(w, c, i) == a
  {
    if i > a + 1 {
      HolderLeads(w, c, a, end, i - 1);
      assert !Ahead(w, c, a, i - 1);
    }
  }

  lemma {:induction false} EachLeads(w: seq<int>, c: seq<int>, n: nat, ks: seq<nat>, m: nat)
    requires |w| == |c| && n <= |w| && Takeovers(w, c, n, ks) && m < |ks|
    ensures Leader(w, c, ks[m] + 1) == ks[m]
  {
    if m > 0 {
      EachLeads(w, c, n, ks, m - 1);
      assert TakesOver(w, c, ks[m - 1], ks[m]);
      HolderLeads(w, c, ks[m - 1], ks[m], ks[m]);
    }
  }

  lemma TakeoversEndAtLeader(w: seq<int>, c: seq<int>, n: nat, ks: seq<nat>)
    requires |w| == |c| && 1 <= n <= |w| && Takeovers(w, c, n, ks)
    ensures ks[|ks| - 1] == Leader(w, c, n)
  {
    EachLeads(w, c, n, ks, |ks| - 1);
    HolderLeads(w, c, ks[|ks| - 1], n, n);
  }

  /** The winner is exactly the slot at the end of the takeovers. */
  lemma WinnerIff(w: seq<int>, c: seq<int>, g: nat)
    requires |w| == |c| > 0
    ensures g == Winner(w, c) <==> exists ks :: Takeovers(w, c, |w|, ks) && ks[|ks| - 1] == g
  {
    if g == Winner(w, c) {
      var ks := LeaderHasTakeovers(w, c, |w|);
    } else if ks :| Takeovers(w, c, |w|, ks) && ks[|ks| - 1] == g {
      TakeoversEndAtLeader(w, c, |w|, ks);
    }
  }

  /** When no credit differs from 0, the first resource leads. */
  lemma {:induction false} FlatLeader(w: seq<int>, c: seq<int>, n: nat)
    requires |w| == |c| && 1 <= n <= |w| && 0 <= w[0]
    requires forall i :: 0 <= i < |c| ==> c[i] == 0
    ensures Leader(w, c, n) == 0
  {
    if n > 1 {
      FlatLeader(w, c, n - 1);
    }
  }

  /** The chosen resource's credit is positive before the total is subtracted from it. */
  lemma WinnerIsPositive(w: seq<int>, c: seq<int>)
    requires |w| == |c| > 0 && NonNegative(w) && 0 < w[0]
    requires Sum(c) == 0
    ensures var g := Winner(w, c); 0 < c[g] + w[g]
  {
    var g := Winner(w, c);
    LeaderDominates(w, c, |w|);
    if c[g] + w[g] <= 0 {
      var zeros := seq(|w|, _ => 0);
      SumOfZeros(zeros, |w|);
      forall i | 0 <= i < |c| ensures c[i] == 0 {
        SumDominated(c, zeros, i);
      }
      FlatLeader(w, c, |w|);
      assert false;
    }
  }

  lemma {:induction false} TotalIsPositive(w: seq<int>)
    requires |w| > 0 && NonNegative(w) && 0 < w[0]
    ensures 0 < Sum(w)
  {
    OneIsAtMostSum(w, 0);
  }

  /** No credit ever reaches minus the total weight. */
  lemma {:induction false} CreditsAboveMinusTotal(w: seq<int>, t: nat, i: nat)
    requires |w| > 0 && NonNegative(w) && 0 < w[0] && i < |w|
    ensures -Sum(w) < Credits(w, t)[i]
  {
    TotalIsPositive(w);
    if t > 0 {
      CreditsAboveMinusTotal(w, t - 1, i);
      CreditsSumToZero(w, t - 1);
      WinnerIsPositive(w, Credits(w, t - 1));
    }
  }

  /** A credit is what the resource has earned minus what its picks have cost; no hypothesis on the weights. */
  lemma {:induction false} CreditIsEarnedMinusSpent(w: seq<int>, t: nat, i: nat)
    requires |w| > 0 && i < |w|
    ensures Credits(w, t)[i] == t * w[i] - Sum(w) * Count(Picks(w, 0, t), i)
  {
    if t > 0 {
      CreditIsEarnedMinusSpent(w, t - 1, i);
      CountAppend(Picks(w, 0, t - 1), Pick(w, t - 1), i);
      var n := Count(Picks(w, 0, t - 1), i);
      Distribute(w[i], t - 1, 1);
      Distribute(Sum(w), n, 1);
    }
  }

  /** No credit exceeds what the other credits, all above -W, can be short of. */
  lemma CreditsAreBounded(w: seq<int>, t: nat, i: nat)
    requires |w| > 0 && NonNegative(w) && 0 < w[0] && i < |w|
    ensures Credits(w, t)[i] <= (|w| - 1) * (Sum(w) - 1)
  {
    var c, lo := Credits(w, t), 1 - Sum(w);
    forall k | 0 <= k < |c| ensures lo <= c[k] {
      CreditsAboveMinusTotal(w, t, k);
    }
    CreditsSumToZero(w, t);
    OneAgainstRest(c, i, lo);
    MoveAcross(c[i], |w| - 1, Sum(w) - 1);
  }

  /** Fairness of every prefix of the schedule: nobody runs a full pick ahead, nobody starves. */
  lemma PrefixBounds(w: seq<int>, t: nat, i: nat)
    requires |w| > 0 && NonNegative(w) && 0 < w[0] && i < |w|
    ensures var n := Count(Picks(w, 0, t), i);
            && Sum(w) * n < t * w[i] + Sum(w)
            && t * w[i] - Sum(w) * n <= (|w| - 1) * (Sum(w) - 1)
  {
    CreditIsEarnedMinusSpent(w, t, i);
    CreditsAboveMinusTotal(w, t, i);
    CreditsAreBounded(w, t, i);
  }

  // ---------------------------------------------------------------- exactness

  /** The table built by NewWeightedRoundRobin holds every resource exactly Weight times. */
  ghost predicate TableIsExact(w: seq<int>)
    requires |w| > 0 && 0 <= Sum(w)
  {
    forall i {:trigger Count(Picks(w, 0, Sum(w)), i)} :: 0 <= i < |w| ==> Count(Picks(w, 0, Sum(w)), i) == w[i]
  }

  function Histogram(p: seq<int>, k: nat, n: nat): (h: seq<int>)
    requires n <= |p|
    ensures |h| == k
  {
    seq(k, i requires 0 <= i < k => CountTo(p, i, n))
  }

  lemma {:induction false} HistogramAddsUp(p: seq<int>, k: nat, n: nat)
    requires n <= |p| && forall j :: 0 <= j < n ==> 0 <= p[j] < k
    ensures Sum(Histogram(p, k, n)) == n
  {
    var h := Histogram(p, k, n);
    if n == 0 {
      SumOfZeros(h, k);
    } else {
      var before := Histogram(p, k, n - 1);
      HistogramAddsUp(p, k, n - 1);
      SumUpdate(before, p[n - 1], before[p[n - 1]] + 1);
      assert h == before[p[n - 1] := before[p[n - 1]] + 1];
    }
  }

  /** In one cycle nobody is picked more often than its weight. */
  lemma CycleCountIsBounded(w: seq<int>, i: nat)
    requires |w| > 0 && NonNegative(w) && 0 < w[0] && i < |w| && 0 < Sum(w)
    ensures Count(Picks(w, 0, Sum(w)), i) <= w[i]
  {
    var total := Sum(w);
    CreditIsEarnedMinusSpent(w, total, i);
    CreditsAboveMinusTotal(w, total, i);
    MulCancel(total, Count(Picks(w, 0, total), i), w[i]);
  }

  lemma ExactWhenFirstIsPositive(w: seq<int>)
    requires |w| > 0 && NonNegative(w) && 0 < w[0]
    ensures 0 < Sum(w) && TableIsExact(w)
  {
    TotalIsPositive(w);
    var total := Sum(w);
    var p := Picks(w, 0, total);
    var counts := Histogram(p, |w|, total);
    forall k | 0 <= k < total ensures 0 <= p[k] < |w| {
      WindowAt(Stream(w), 0, total, k);
    }
    HistogramAddsUp(p, |w|, total);
    forall i | 0 <= i < |w| ensures counts[i] <= w[i] {
      CycleCountIsBounded(w, i);
    }
    forall i | 0 <= i < |w| ensures Count(Picks(w, 0, Sum(w)), i) == w[i] {
      SumDominated(counts, w, i);
    }
  }

  /** For which weights the schedule is exact, both ways, over all weights the constructor accepts: every
      weight must be non-negative, and the first one positive unless the table is empty. A zero in a
      later slot does no harm; a zero in the first slot is picked all the same. */
  lemma ExactIffFirstIsPositive(w: seq<int>)
    requires |w| > 0 && 0 <= Sum(w)
    ensures TableIsExact(w) <==> NonNegative(w) && (Sum(w) == 0 || 0 < w[0])
  {
    if !NonNegative(w) {
      var i :| 0 <= i < |w| && w[i] < 0;
      assert 0 <= Count(Picks(w, 0, Sum(w)), i);
    } else if Sum(w) == 0 {
      forall i | 0 <= i < |w| ensures Count(Picks(w, 0, Sum(w)), i) == w[i] {
        OneIsAtMostSum(w, i);
      }
    } else if w[0] == 0 {
      FlatLeader(w, Credits(w, 0), |w|);
      WindowAt(Stream(w), 0, Sum(w), 0);
      CountOfMember(Picks(w, 0, Sum(w)), 0, Sum(w));
      assert 0 < Count(Picks(w, 0, Sum(w)), 0);
    } else {
      ExactWhenFirstIsPositive(w);
    }
  }

  // ---------------------------------------------------------------- the endless stream is periodic

  /** Whenever the table is exact, all credits are back to 0 after one cycle. */
  lemma CreditsReturnToZero(w: seq<int>)
    requires |w| > 0 && 0 <= Sum(w) && TableIsExact(w)
    ensures Credits(w, Sum(w)) == Credits(w, 0)
  {
    var total := Sum(w);
    forall i | 0 <= i < |w| ensures Credits(w, total)[i] == 0 {
      CreditIsEarnedMinusSpent(w, total, i);
      assert Count(Picks(w, 0, total), i) == w[i];
    }
  }

  /** Once credits repeat after p calls, they repeat for ever. */
  lemma {:induction false} CreditsRepeat(w: seq<int>, p: nat, t: nat)
    requires |w| > 0 && Credits(w, p) == Credits(w, 0)
    ensures Credits(w, t + p) == Credits(w, t)
  {
    if t > 0 {
      CreditsRepeat(w, p, t - 1);
      assert Credits(w, t + p) == Advance(w, Credits(w, t - 1 + p));
    }
  }

  /** The endless stream has period Sum(w), so the table, read cyclically, is the stream. */
  lemma StreamIsPeriodic(w: seq<int>)
    requires |w| > 0 && 0 < Sum(w) && TableIsExact(w)
    ensures forall t: nat :: Stream(w)(t + Sum(w)) == Stream(w)(t)
    ensures forall t: nat :: Pick(w, t % Sum(w)) == Pick(w, t)
  {
    var f, total := Stream(w), Sum(w);
    CreditsReturnToZero(w);
    forall t: nat ensures f(t + total) == f(t) {
      CreditsRepeat(w, total, t);
    }
    forall t: nat ensures Pick(w, t % total) == Pick(w, t) {
      PeriodicByMod(f, total, t);
      assert f(t) == Pick(w, t) && f(t % total) == Pick(w, t % total);
    }
  }

  /** Any Sum(w) consecutive positions of the stream hold each resource exactly Weight times. */
  lemma EveryWindowIsExact(w: seq<int>, from: nat, i: nat)
    requires |w| > 0 && 0 < Sum(w) && TableIsExact(w) && i < |w|
    ensures Count(Picks(w, from, Sum(w)), i) == w[i]
  {
    StreamIsPeriodic(w);
    WindowsOfPeriodAgree(Stream(w), Sum(w), from, i);
    assert Count(Picks(w, 0, Sum(w)), i) == w[i];
  }

  // ---------------------------------------------------------------- the Go types

  class RoundRobin<T> {
    const resources: seq<T>
    var next: nat

    ghost predicate Valid()
      reads this
    {
      next < TWO_TO_THE_32
    }

    constructor (resources: seq<T>)
      ensures Valid() && this.resources == resources && next == 0
    {
      this.resources := resources;
      next := 0;
    }

    /** Bumps the counter and serves the slot it now names. The length is cast to uint32; a list for which that
        gives 0 panics (division by zero). */
    method Next() returns (r: T)
      requires Valid() && Uint32(|resources|) > 0
      modifies this
      ensures Valid()
      ensures next == (old(next) + 1) % TWO_TO_THE_32
      ensures r == resources[next % Uint32(|resources|)]
    {
      next := (next + 1) % TWO_TO_THE_32;
      var size := Uint32(|resources|);
      r := resources[next % size];
    }
  }

  datatype WeightedResource<T> = WeightedResource(R: T, Weight: int, currentWeight: int)

  /** The array holds weights w and credits c. */
  ghost predicate Holds<T>(resources: array<WeightedResource<T>>, w: seq<int>, c: seq<int>)
    reads resources
  {
    && |w| == |c| == resources.Length
    && forall i :: 0 <= i < resources.Length ==> resources[i].Weight == w[i] && resources[i].currentWeight == c[i]
  }

  ghost predicate Named<T>(resources: array<WeightedResource<T>>, names: seq<T>)
    reads resources
  {
    |names| == resources.Length && forall i :: 0 <= i < resources.Length ==> resources[i].R == names[i]
  }

  /** calc: one pass that raises every credit in place and picks, then charges the pick. */
  method Calc<T>(resources: array<WeightedResource<T>>, ghost w: seq<int>, ghost c: seq<int>, ghost names: seq<T>)
    returns (r: T)
    requires resources.Length > 0 && Holds(resources, w, c) && Named(resources, names)
    modifies resources
    ensures Holds(resources, w, Advance(w, c)) && Named(resources, names)
    ensures r == names[Winner(w, c)]
    ensures exists ks :: Takeovers(w, c, |w|, ks) && r == names[ks[|ks| - 1]]
  {
    var total := 0;
    var leader := 0;
    var i := 0;
    while i < resources.Length
      invariant 0 <= i <= resources.Length && 0 <= leader < resources.Length
      invariant leader == if i == 0 then 0 else Leader(w, c, i)
      invariant total == SumTo(w, i)
      invariant Named(resources, names)
      invariant forall k :: 0 <= k < resources.Length ==> resources[k].Weight == w[k]
      invariant forall k :: 0 <= k < resources.Length ==>
        resources[k].currentWeight == if k < i then c[k] + w[k] else c[k]
    {
      var rr := resources[i];
      resources[i] := rr.(currentWeight := rr.currentWeight + rr.Weight);
      total := total + rr.Weight;
      if rr.currentWeight > resources[leader].currentWeight {
        leader := i;
      }
      i := i + 1;
    }
    resources[leader] := resources[leader].(currentWeight := resources[leader].currentWeight - total);
    r := resources[leader].R;
    ghost var ks := LeaderHasTakeovers(w, c, |w|);
  }

  /** The first loop of NewWeightedRoundRobin. */
  method TotalWeight<T>(resources: array<WeightedResource<T>>, ghost w: seq<int>, ghost c: seq<int>) returns (total: int)
    requires Holds(resources, w, c)
    ensures total == Sum(w)
  {
    total := 0;
    var j := 0;
    while j < resources.Length
      invariant 0 <= j <= resources.Length && total == SumTo(w, j)
    {
      total := total + resources[j].Weight;
      j := j + 1;
    }
  }

  /** Call number t of calc (from 0) moves the credits along the stream and returns its pick. */
  method CalcAt<T>(resources: array<WeightedResource<T>>, ghost t: nat, ghost w: seq<int>, ghost names: seq<T>)
    returns (r: T)
    requires resources.Length > 0 && |w| == resources.Length
    requires Holds(resources, w, Credits(w, t)) && Named(resources, names)
    modifies resources
    ensures Holds(resources, w, Credits(w, t + 1)) && Named(resources, names)
    ensures r == names[Pick(w, t)]
  {
    r := Calc(resources, w, Credits(w, t), names);
  }

  /** The first n resources of the endless calc stream. */
  ghost function Table<T>(w: seq<int>, names: seq<T>, n: nat): (rs: seq<T>)
    requires |w| == |names| > 0
    ensures |rs| == n && forall k :: 0 <= k < n ==> rs[k] == names[Pick(w, k)]
  {
    if n == 0 then [] else Table(w, names, n - 1) + [names[Pick(w, n - 1)]]
  }

  /** The second loop of NewWeightedRoundRobin: the table is the first stretch of the calc stream. */
  method Unroll<T>(resources: array<WeightedResource<T>>, totalWeight: nat, ghost w: seq<int>, ghost names: seq<T>)
    returns (rs: seq<T>)
    requires resources.Length > 0 && |w| == resources.Length
    requires Holds(resources, w, Credits(w, 0)) && Named(resources, names)
    modifies resources
    ensures Holds(resources, w, Credits(w, totalWeight)) && Named(resources, names)
    ensures rs == Table(w, names, totalWeight)
  {
    rs := [];
    var i := 0;
    while i < totalWeight
      invariant 0 <= i <= totalWeight && rs == Table(w, names, i)
      invariant Holds(resources, w, Credits(w, i)) && Named(resources, names)
    {
      var r := CalcAt(resources, i, w, names);
      rs := rs + [r];
      i := i + 1;
    }
  }

  class WeightedRoundRobin<T> {
    const rr: RoundRobin<T>
    ghost const w: seq<int>
    ghost const names: seq<T>

    /** The table is the first cycle of the calc stream. */
    ghost predicate Valid()
      reads rr
    {
      && rr.Valid()
      && |w| == |names| && |rr.resources| == Sum(w)
      && (w != [] ==> forall k :: 0 <= k < |rr.resources| ==> rr.resources[k] == names[Pick(w, k)])
    }

    /** NewWeightedRoundRobin: unrolls calc once per unit of weight. A negative total panics in make;
        currentWeight is private to the package, so every credit starts at 0. Without resources the table is
        empty. */
    constructor (resources: array<WeightedResource<T>>, ghost weights: seq<int>, ghost labels: seq<T>)
      requires Named(resources, labels)
      requires |weights| == resources.Length && 0 <= Sum(weights)
      requires Holds(resources, weights, seq(|weights|, _ => 0))
      modifies resources
      ensures Valid() && fresh(rr) && rr.next == 0
      ensures w == weights && names == labels
      ensures w != [] ==> Holds(resources, w, Credits(w, Sum(w))) && Named(resources, names)
    {
      var totalWeight := TotalWeight(resources, weights, seq(|weights|, _ => 0));
      var rs := [];
      if resources.Length > 0 {
        rs := Unroll(resources, totalWeight, weights, labels);
      }
      w := weights;
      names := labels;
      rr := new RoundRobin(rs);
    }

    /** Serves the table cyclically; an empty table panics (division by zero). */
    method Next() returns (r: T)
      requires Valid() && 0 < Sum(w) && Uint32(Sum(w)) > 0
      modifies rr
      ensures Valid() && w != [] && rr.next == (old(rr.next) + 1) % TWO_TO_THE_32
      ensures r == names[Pick(w, rr.next % Uint32(Sum(w)))]
    {
      r := rr.Next();
    }
  }
}
