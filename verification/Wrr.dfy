/** The weighted round robin of src/wrr.c, with its doubles as reals: bounded waiting, and
    exactly what it does with default weights. */
module Wrr {
  import opened Words

  /** The scan starts from this value, so an entry at 100 or more is never preferred. */
  const SENTINEL: real := 100.0

  // ---- One choice ----

  /** The index and the value kept by the scan after its first n entries. */
  function Scan(vals: seq<real>, n: nat): (o: (nat, real))
    requires n <= |vals|
    ensures o.0 == 0 || o.0 < n
  {
    if n == 0 then (0, SENTINEL)
    else
      var (m, least) := Scan(vals, n - 1);
      if vals[n - 1] < least then (n - 1, vals[n - 1]) else (m, least)
  }

  lemma {:induction false} ScanFindsLeast(vals: seq<real>, n: nat)
    requires n <= |vals|
    ensures var (m, least) := Scan(vals, n);
            && least <= SENTINEL && (forall i :: 0 <= i < n ==> least <= vals[i])
            && (least < SENTINEL ==> m < n && vals[m] == least && forall i :: 0 <= i < m ==> least < vals[i])
  {
    if n > 0 {
      ScanFindsLeast(vals, n - 1);
    }
  }

  function MinIndex(vals: seq<real>): (m: nat)
    requires vals != []
    ensures m < |vals|
  {
    Scan(vals, |vals|).0
  }

  /** If some entry is below the sentinel, the first of the least entries is chosen. */
  lemma MinIndexIsFirstLeast(vals: seq<real>, j: nat)
    requires j < |vals| && vals[j] < SENTINEL
    ensures var m := MinIndex(vals);
            && vals[m] <= vals[j]
            && (forall i :: 0 <= i < |vals| ==> vals[m] <= vals[i])
            && (forall i :: 0 <= i < m ==> vals[m] < vals[i])
  {
    ScanFindsLeast(vals, |vals|);
  }

  lemma {:induction false} ScanFindsNone(vals: seq<real>, n: nat)
    requires n <= |vals| && forall i :: 0 <= i < n ==> vals[i] >= SENTINEL
    ensures Scan(vals, n) == (0, SENTINEL)
  {
    if n > 0 {
      ScanFindsNone(vals, n - 1);
    }
  }

  /** If no entry is, the first one is chosen, whatever the values. */
  lemma FirstByDefault(vals: seq<real>)
    requires vals != [] && forall i :: 0 <= i < |vals| ==> vals[i] >= SENTINEL
    ensures MinIndex(vals) == 0
  {
    ScanFindsNone(vals, |vals|);
  }

  function Tick(v: real): real { if v > 0.0 then v - 1.0 else v }

  predicate Fits(vals: seq<real>, periods: seq<real>) { vals != [] && |periods| == |vals| }

  /** Every positive value drops by one, then the chosen entry restarts at its period 100/weight. */
  function Choose(vals: seq<real>, periods: seq<real>): (next: seq<real>)
    requires Fits(vals, periods)
    ensures |next| == |vals|
  {
    var m := MinIndex(vals);
    seq(|vals|, i requires 0 <= i < |vals| => if i == m then periods[i] else Tick(vals[i]))
  }

  /** The values of a table just built. */
  function Fresh(n: nat): (vals: seq<real>)
    ensures |vals| == n && forall i :: 0 <= i < n ==> vals[i] == 0.0
  {
    seq(n, _ => 0.0)
  }

  function After(vals: seq<real>, periods: seq<real>, k: nat): (next: seq<real>)
    requires Fits(vals, periods)
    ensures |next| == |vals|
  {
    if k == 0 then vals else Choose(After(vals, periods, k - 1), periods)
  }

  /** The k-th entry chosen, from 0, between two resets. */
  function Pick(vals: seq<real>, periods: seq<real>, k: nat): (m: nat)
    requires Fits(vals, periods)
    ensures m < |vals|
  {
    MinIndex(After(vals, periods, k))
  }

  // ---- Every value stays above -1 and at most its period ----

  ghost predicate Bounded(vals: seq<real>, periods: seq<real>) {
    && Fits(vals, periods)
    && (forall i :: 0 <= i < |periods| ==> periods[i] > 0.0)
    && forall i :: 0 <= i < |vals| ==> -1.0 < vals[i] <= periods[i]
  }

  lemma {:induction false} AfterBounded(vals: seq<real>, periods: seq<real>, k: nat)
    requires Bounded(vals, periods)
    ensures Bounded(After(vals, periods, k), periods)
  {
    if k > 0 {
      AfterBounded(vals, periods, k - 1);
    }
  }

  // ---- Bounded waiting ----

  /** How often each entry was chosen among the first k choices. */
  function Counts(vals: seq<real>, periods: seq<real>, k: nat): (c: seq<nat>)
    requires Fits(vals, periods)
    ensures |c| == |vals|
  {
    if k == 0 then seq(|vals|, _ => 0)
    else
      var c := Counts(vals, periods, k - 1);
      var m := Pick(vals, periods, k - 1);
      c[m := c[m] + 1]
  }

  ghost predicate Waits(vals: seq<real>, periods: seq<real>, j: nat, k: nat)
    requires Fits(vals, periods)
  {
    forall t :: 0 <= t < k ==> Pick(vals, periods, t) != j
  }

  lemma WaitsLess(vals: seq<real>, periods: seq<real>, j: nat, k: nat)
    requires Fits(vals, periods) && Bounded(vals, periods) && k > 0 && Waits(vals, periods, j, k)
    ensures Waits(vals, periods, j, k - 1) && Pick(vals, periods, k - 1) != j
  {
  }

  /** A waiting entry at or below zero does not move, so nothing above it is chosen. */
  lemma {:induction false} WaitingStays(vals: seq<real>, periods: seq<real>, j: nat, k: nat)
    requires Fits(vals, periods) && Bounded(vals, periods) && j < |vals| && vals[j] <= 0.0 && Waits(vals, periods, j, k)
    ensures var v := After(vals, periods, k); v[j] == vals[j] && v[MinIndex(v)] <= 0.0
  {
    if k > 0 {
      WaitingStays(vals, periods, j, k - 1);
      assert Pick(vals, periods, k - 1) != j;
    }
    MinIndexIsFirstLeast(After(vals, periods, k), j);
  }

  function Ceil(x: real): (c: int)
    ensures c as real - 1.0 < x <= c as real
  {
    -((-x).Floor)
  }

  lemma CeilIs(x: real, c: int)
    requires c as real - 1.0 < x <= c as real
    ensures Ceil(x) == c
  {
  }

  lemma CeilRises(x: real, y: real)
    requires x <= y
    ensures Ceil(x) <= Ceil(y)
  {
  }

  /** What `count` choices add to the potential of an entry. */
  function Gain(count: nat, period: real): (g: int)
    ensures count == 0 ==> g == 0
  {
    count * (Ceil(period) + 1)
  }

  /** One choice raises the rounded value plus time by the rounded period plus one for the entry chosen
      at or below zero. */
  lemma PotentialStep(v: real, next: real, chosen: bool, count: nat, period: real, start: int, time: nat)
    requires Ceil(v) + time >= start + Gain(count, period)
    requires if chosen then v <= 0.0 && next == period else next == Tick(v)
    ensures Ceil(next) + (time + 1) >= start + Gain(if chosen then count + 1 else count, period)
  {
    if chosen {
      CeilRises(v, 0.0);
      CeilIs(0.0, 0);
      assert (count + 1) * (Ceil(period) + 1) == count * (Ceil(period) + 1) + (Ceil(period) + 1);
    } else if v > 0.0 {
      CeilIs(v - 1.0, Ceil(v) - 1);
    }
  }

  /** The potential, the value rounded up plus time, never falls, and each choice of an entry while j
      waits raises it by at least that entry's period rounded up plus one. */
  lemma {:induction false} PotentialGrows(vals: seq<real>, periods: seq<real>, j: nat, k: nat, i: nat)
    requires Fits(vals, periods) && Bounded(vals, periods) && j < |vals| && vals[j] <= 0.0 && Waits(vals, periods, j, k)
    requires i < |vals|
    ensures Ceil(After(vals, periods, k)[i]) + k >= Ceil(vals[i]) + Gain(Counts(vals, periods, k)[i], periods[i])
  {
    hide Bounded, MinIndex, Waits, Gain, Ceil;
    if k > 0 {
      WaitsLess(vals, periods, j, k);
      PotentialGrows(vals, periods, j, k - 1, i);
      WaitingStays(vals, periods, j, k - 1);
      var v, c := After(vals, periods, k - 1), Counts(vals, periods, k - 1);
      var m := Pick(vals, periods, k - 1);
      PotentialStep(v[i], After(vals, periods, k)[i], i == m, c[i], periods[i], Ceil(vals[i]), k - 1);
    }
  }

  /** Sum over the first n indices except j. */
  function SumExcept(s: seq<real>, j: nat, n: nat): (r: real)
    requires n <= |s|
  {
    if n == 0 then 0.0 else SumExcept(s, j, n - 1) + (if n - 1 == j then 0.0 else s[n - 1])
  }

  lemma {:induction false} SumUpdate(s: seq<real>, j: nat, n: nat, m: nat, x: real)
    requires n <= |s| && m < |s|
    ensures SumExcept(s[m := x], j, n) == SumExcept(s, j, n) + (if m < n && m != j then x - s[m] else 0.0)
  {
    if n > 0 {
      SumUpdate(s, j, n - 1, m, x);
    }
  }

  lemma {:induction false} SumZero(s: seq<real>, j: nat, n: nat)
    requires n <= |s| && forall i :: 0 <= i < n ==> s[i] == 0.0
    ensures SumExcept(s, j, n) == 0.0
  {
    if n > 0 {
      SumZero(s, j, n - 1);
    }
  }

  /** While j waits, all choices are of the others. */
  lemma {:induction false} CountsSum(vals: seq<real>, periods: seq<real>, j: nat, k: nat)
    requires Fits(vals, periods) && Bounded(vals, periods) && j < |vals| && Waits(vals, periods, j, k)
    ensures SumExcept(Reals(Counts(vals, periods, k)), j, |vals|) == k as real
  {
    hide Bounded, MinIndex, After, SumExcept, Waits;
    if k == 0 {
      SumZero(Reals(Counts(vals, periods, 0)), j, |vals|);
    } else {
      WaitsLess(vals, periods, j, k);
      CountsSum(vals, periods, j, k - 1);
      var c, m := Counts(vals, periods, k - 1), Pick(vals, periods, k - 1);
      SumUpdate(Reals(c), j, |vals|, m, (c[m] + 1) as real);
      assert Reals(c[m := c[m] + 1]) == Reals(c)[m := (c[m] + 1) as real];
    }
  }

  /** Two choices of an entry are at least this far apart. */
  function Spacing(period: real): (d: real)
    requires period > 0.0
    ensures d >= period + 1.0 && d >= 2.0
  {
    CeilRises(0.0, period);
    Ceil(period) as real + 1.0
  }

  /** The share of entry i: 1/(ceil(T_i) + 1). */
  function Shares(periods: seq<real>): (r: seq<real>)
    requires forall i :: 0 <= i < |periods| ==> periods[i] > 0.0
    ensures |r| == |periods|
  {
    seq(|periods|, i requires 0 <= i < |periods| => 1.0 / Spacing(periods[i]))
  }

  function Load(periods: seq<real>, j: nat): (rho: real)
    requires forall i :: 0 <= i < |periods| ==> periods[i] > 0.0
  {
    SumExcept(Shares(periods), j, |periods|)
  }

  lemma ShareBound(count: nat, period: real, start: real, end: real, k: nat)
    requires period > 0.0 && -1.0 < start && end <= period
    requires Ceil(end) + k >= Ceil(start) + Gain(count, period)
    ensures count as real < 1.0 + k as real * (1.0 / Spacing(period))
  {
    CeilRises(end, period);
    assert Ceil(start) >= 0 by { assert Ceil(start) as real > -1.0; }
    var q := Ceil(period) + 1;
    assert count * q < q + k;
    ShareReal(count, q, k, Spacing(period));
  }

  lemma ShareReal(count: nat, q: int, k: nat, spacing: real)
    requires q > 0 && spacing == q as real && count * q < q + k
    ensures count as real < 1.0 + k as real * (1.0 / spacing)
  {
    var c, d := count as real, 1.0 / spacing;
    assert c * spacing == (count * q) as real < spacing + k as real;
    assert spacing * d == 1.0;
    if c >= 1.0 + k as real * d {
      assert c * spacing >= (1.0 + k as real * d) * spacing;
      assert (1.0 + k as real * d) * spacing == spacing + k as real * (d * spacing);
    }
  }

  lemma Distribute(k: real, a: real, b: real)
    ensures k * (a + b) == k * a + k * b
  {
  }

  lemma {:induction false} SumBelow(c: seq<real>, r: seq<real>, j: nat, n: nat, k: real)
    requires n <= |c| == |r| && j < |c|
    requires forall i :: 0 <= i < |c| ==> c[i] < 1.0 + k * r[i]
    ensures SumExcept(c, j, n) <= (if n <= j then n else n - 1) as real + k * SumExcept(r, j, n)
    ensures n > 1 || (n == 1 && j != 0) ==>
            SumExcept(c, j, n) < (if n <= j then n else n - 1) as real + k * SumExcept(r, j, n)
  {
    if n > 0 {
      SumBelow(c, r, j, n - 1, k);
      if n - 1 != j {
        Distribute(k, SumExcept(r, j, n - 1), r[n - 1]);
      }
    }
  }

  lemma ShareOf(vals: seq<real>, periods: seq<real>, j: nat, k: nat, i: nat)
    requires Fits(vals, periods) && Bounded(vals, periods) && j < |vals| && vals[j] <= 0.0
    requires Waits(vals, periods, j, k) && i < |vals|
    ensures Counts(vals, periods, k)[i] as real < 1.0 + k as real * (1.0 / Spacing(periods[i]))
  {
    hide Waits, Counts, After;
    AfterBounded(vals, periods, k);
    PotentialGrows(vals, periods, j, k, i);
    ShareBound(Counts(vals, periods, k)[i], periods[i], vals[i], After(vals, periods, k)[i], k);
  }

  /** No starvation: an entry at or below zero that is not chosen in k consecutive choices has
      k * (1 - rho) < n - 1, where rho adds up 1/(ceil(T_i) + 1) over the other entries. */
  lemma BoundedWait(vals: seq<real>, periods: seq<real>, j: nat, k: nat)
    requires Fits(vals, periods) && Bounded(vals, periods) && j < |vals| && vals[j] <= 0.0 && Waits(vals, periods, j, k)
    ensures |vals| == 1 ==> k == 0
    ensures |vals| > 1 ==> k as real * (1.0 - Load(periods, j)) < (|vals| - 1) as real
  {
    if |vals| == 1 {
      assert k > 0 ==> Pick(vals, periods, 0) == 0;
    } else {
      ManyWait(vals, periods, j, k);
    }
  }

  lemma ManyWait(vals: seq<real>, periods: seq<real>, j: nat, k: nat)
    requires Fits(vals, periods) && Bounded(vals, periods) && j < |vals| && vals[j] <= 0.0
    requires Waits(vals, periods, j, k) && |vals| > 1
    ensures k as real * (1.0 - Load(periods, j)) < (|vals| - 1) as real
  {
    hide Waits, Counts, After, SumExcept;
    forall i | 0 <= i < |vals|
      ensures Reals(Counts(vals, periods, k))[i] < 1.0 + k as real * Shares(periods)[i]
    {
      ShareOf(vals, periods, j, k, i);
    }
    SumBelow(Reals(Counts(vals, periods, k)), Shares(periods), j, |vals|, k as real);
    CountsSum(vals, periods, j, k);
    Rearrange(k as real, Load(periods, j), (|vals| - 1) as real);
  }

  lemma Rearrange(k: real, rho: real, bound: real)
    requires k < bound + k * rho
    ensures k * (1.0 - rho) < bound
  {
  }

  // ---- The gap between two choices of the same entry ----

  lemma {:induction false} AfterAfter(vals: seq<real>, periods: seq<real>, m: nat, t: nat)
    requires Fits(vals, periods)
    ensures After(After(vals, periods, m), periods, t) == After(vals, periods, m + t)
  {
    hide Choose;
    if t > 0 {
      AfterAfter(vals, periods, m, t - 1);
    }
  }

  lemma WaitsLater(vals: seq<real>, periods: seq<real>, j: nat, k: nat, m: nat)
    requires Fits(vals, periods) && Waits(vals, periods, j, k) && m <= k
    ensures Waits(After(vals, periods, m), periods, j, k - m)
  {
    hide After, MinIndex;
    forall t | 0 <= t < k - m
      ensures Pick(After(vals, periods, m), periods, t) != j
    {
      AfterAfter(vals, periods, m, t);
      assert Pick(vals, periods, m + t) != j;
    }
  }

  /** A positive value falls by one per choice, so it is at or below zero within value + 1 choices. */
  lemma {:induction false} Descends(vals: seq<real>, periods: seq<real>, j: nat, k: nat) returns (m: nat)
    requires Fits(vals, periods) && Bounded(vals, periods) && j < |vals| && Waits(vals, periods, j, k)
    ensures m <= k && (m == 0 || m as real < vals[j] + 1.0)
    ensures After(vals, periods, m)[j] <= 0.0 || (m == k && After(vals, periods, k)[j] == vals[j] - k as real)
  {
    hide MinIndex, Bounded;
    if k == 0 {
      m := 0;
    } else {
      WaitsLess(vals, periods, j, k);
      m := Descends(vals, periods, j, k - 1);
      if After(vals, periods, m)[j] > 0.0 {
        assert (k - 1) as real == k as real - 1.0;
        assert After(vals, periods, k)[j] == Tick(After(vals, periods, k - 1)[j]);
        m := k;
      }
    }
  }

  lemma Scale(a: real, b: real, free: real)
    requires a < b && free > 0.0
    ensures a * free < b * free
  {
  }

  lemma CombineGap(k: real, m: real, limit: real, free: real, others: real)
    requires free > 0.0 && others >= 0.0 && m < limit
    requires k <= m || (k - m) * free < others
    ensures k * free < others + limit * free
  {
    if k <= m {
      Scale(k, limit, free);
    } else {
      Scale(m, limit, free);
      Distribute(free, k - m, m);
    }
  }

  /** In every reachable state, an entry goes unchosen for fewer than T_j + 1 + (n-1)/(1-rho)
      consecutive choices. */
  lemma GapBounded(vals: seq<real>, periods: seq<real>, j: nat, k: nat)
    requires Fits(vals, periods) && Bounded(vals, periods) && j < |vals| && Waits(vals, periods, j, k)
    requires Load(periods, j) < 1.0
    ensures k as real * (1.0 - Load(periods, j))
            < (|vals| - 1) as real + (periods[j] + 1.0) * (1.0 - Load(periods, j))
  {
    hide Waits, After, Load;
    var m := Descends(vals, periods, j, k);
    var free, others := 1.0 - Load(periods, j), (|vals| - 1) as real;
    if m < k {
      AfterBounded(vals, periods, m);
      WaitsLater(vals, periods, j, k, m);
      BoundedWait(After(vals, periods, m), periods, j, k - m);
      assert (k - m) as real == k as real - m as real;
    }
    CombineGap(k as real, m as real, periods[j] + 1.0, free, others);
  }

  // ---- Weights from bandwidth ----

  function Total(bandwidths: seq<nat>): (t: nat) {
    if bandwidths == [] then 0 else Total(bandwidths[..|bandwidths| - 1]) + bandwidths[|bandwidths| - 1]
  }

  function WeightOf(bandwidth: nat, total: nat): (w: real)
    requires total > 0
  {
    bandwidth as real / total as real * 100.0
  }

  function PeriodOf(weight: real): (t: real)
    requires weight != 0.0
  {
    100.0 / weight
  }

  /** The periods of table entries whose weights were set from their bandwidths. */
  ghost predicate FromBandwidth(periods: seq<real>, bandwidths: seq<nat>, total: nat) {
    && |periods| == |bandwidths| && total > 0
    && forall i :: 0 <= i < |periods| ==>
         && bandwidths[i] > 0 && WeightOf(bandwidths[i], total) != 0.0
         && periods[i] == PeriodOf(WeightOf(bandwidths[i], total))
  }

  lemma PeriodIsRatio(bandwidth: nat, total: nat)
    requires 0 < bandwidth && 0 < total
    ensures WeightOf(bandwidth, total) > 0.0
    ensures PeriodOf(WeightOf(bandwidth, total)) == total as real / bandwidth as real
    ensures 1.0 / (PeriodOf(WeightOf(bandwidth, total)) + 1.0) < bandwidth as real / total as real
  {
    var b, t := bandwidth as real, total as real;
    var q := b / t;
    assert q * t == b && q > 0.0;
    var r := t / b;
    assert r * b == t && r > 0.0;
    assert q * r == 1.0 by { assert (q * r) * (b * t) == (q * t) * (r * b); }
    assert 100.0 / (q * 100.0) == r by { assert r * (q * 100.0) == 100.0; }
    var d := 1.0 / (r + 1.0);
    assert d * (r + 1.0) == 1.0;
    assert q * (r + 1.0) == 1.0 + q;
  }

  lemma Inverts(a: real, b: real)
    requires 0.0 < a <= b
    ensures 1.0 / b <= 1.0 / a
  {
    var x, y := 1.0 / a, 1.0 / b;
    assert x * a == 1.0 && y * b == 1.0;
    assert x * b >= x * a by { assert x * (b - a) >= 0.0; }
    if y > x {
      Scale(x, y, b);
      assert false;
    }
  }

  lemma AddRatios(x: nat, y: nat, total: nat, a: real, b: real)
    requires total > 0 && a <= x as real / total as real && b <= y as real / total as real
    ensures a + b <= (x + y) as real / total as real
  {
    var t := total as real;
    assert x as real / t + y as real / t == (x as real + y as real) / t;
  }

  /** The bandwidth of the first n entries except j. */
  function TotalExcept(bandwidths: seq<nat>, j: nat, n: nat): (t: nat)
    requires n <= |bandwidths|
  {
    if n == 0 then 0 else TotalExcept(bandwidths, j, n - 1) + (if n - 1 == j then 0 else bandwidths[n - 1])
  }

  lemma {:induction false} LoadBelow(periods: seq<real>, bandwidths: seq<nat>, total: nat, j: nat, n: nat)
    requires FromBandwidth(periods, bandwidths, total) && n <= |periods|
    requires forall i :: 0 <= i < |periods| ==> periods[i] > 0.0
    ensures SumExcept(Shares(periods), j, n) <= TotalExcept(bandwidths, j, n) as real / total as real
  {
    hide WeightOf, PeriodOf;
    if n > 0 {
      LoadBelow(periods, bandwidths, total, j, n - 1);
      var sum := SumExcept(Shares(periods), j, n - 1);
      if n - 1 != j {
        PeriodIsRatio(bandwidths[n - 1], total);
        Inverts(periods[n - 1] + 1.0, Spacing(periods[n - 1]));
        AddRatios(TotalExcept(bandwidths, j, n - 1), bandwidths[n - 1], total, sum, Shares(periods)[n - 1]);
      }
    }
  }

  lemma {:induction false} TotalExceptLess(bandwidths: seq<nat>, j: nat, n: nat)
    requires n <= |bandwidths| && j < |bandwidths|
    ensures TotalExcept(bandwidths, j, n) + (if j < n then bandwidths[j] else 0) == Total(bandwidths[..n])
  {
    if n > 0 {
      TotalExceptLess(bandwidths, j, n - 1);
      assert bandwidths[..n][..n - 1] == bandwidths[..n - 1];
    }
  }

  lemma PeriodsPositive(periods: seq<real>, bandwidths: seq<nat>, total: nat)
    requires FromBandwidth(periods, bandwidths, total)
    ensures forall i :: 0 <= i < |periods| ==> periods[i] > 0.0
  {
    forall i | 0 <= i < |periods|
      ensures periods[i] > 0.0
    {
      PeriodIsRatio(bandwidths[i], total);
      assert bandwidths[i] as real > 0.0 && total as real > 0.0;
    }
  }

  lemma BelowOne(part: nat, total: nat)
    requires part < total
    ensures part as real / total as real < 1.0
  {
    assert part as real < total as real;
  }

  /** With weights set from bandwidths whose total covers the table, the other entries always load
      the scheduler below one, so GapBounded applies and no entry starves. */
  lemma BandwidthLoad(periods: seq<real>, bandwidths: seq<nat>, total: nat, j: nat)
    requires FromBandwidth(periods, bandwidths, total) && j < |periods| && Total(bandwidths) <= total
    ensures forall i :: 0 <= i < |periods| ==> periods[i] > 0.0
    ensures Load(periods, j) < 1.0
  {
    hide WeightOf, PeriodOf;
    PeriodsPositive(periods, bandwidths, total);
    LoadBelow(periods, bandwidths, total, j, |periods|);
    TotalExceptLess(bandwidths, j, |periods|);
    assert bandwidths[..|periods|] == bandwidths;
    BelowOne(TotalExcept(bandwidths, j, |periods|), total);
  }
}
