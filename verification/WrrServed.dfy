/** From configured bandwidths to the choice of tunnels: a tunnel of the table is served within a
    bounded number of packets while the others load it below one, as they always do when the bandwidths
    add up inside 32 bits. */
module WrrServed {
  import opened Words
  import opened Wrr
  import S = Session

  /** The weights the tunnels have once they were computed from their bandwidths. */
  ghost predicate Weighted(list: seq<S.Tunnel>, bandwidth: seq<U32>, weight: map<nat, real>) {
    var total := Total(bandwidth) % TWO32;
    && |bandwidth| == |list| && total > 0
    && forall i :: 0 <= i < |list| ==> list[i].id in weight && weight[list[i].id] == WeightOf(bandwidth[i], total)
  }

  /** Where in the list the tunnels of the table are. */
  lemma {:induction false} TablePlaces(list: seq<S.Tunnel>, mode: nat, n: nat) returns (at: seq<nat>)
    requires n <= |list|
    ensures var ids := S.EligibleIds(list[n..], mode);
            && |at| == |ids| && (forall k :: 0 <= k < |at| ==> n <= at[k] < |list| && list[at[k]].id == ids[k])
            && forall k, l :: 0 <= k < l < |at| ==> at[k] < at[l]
    decreases |list| - n
  {
    S.EligibleStep(list, n, mode);
    at := [];
    if n < |list| {
      at := TablePlaces(list, mode, n + 1);
      if S.Eligible(list[n], mode) {
        at := [n] + at;
      }
    }
  }

  function Select(bandwidth: seq<nat>, at: seq<nat>): (bs: seq<nat>)
    requires forall k :: 0 <= k < |at| ==> at[k] < |bandwidth|
    ensures |bs| == |at| && forall k :: 0 <= k < |at| ==> bs[k] == bandwidth[at[k]]
  {
    seq(|at|, k requires 0 <= k < |at| => bandwidth[at[k]])
  }

  /** A part of the list has no more bandwidth than the whole. */
  lemma {:induction false} SelectLess(bandwidth: seq<nat>, at: seq<nat>)
    requires forall k :: 0 <= k < |at| ==> at[k] < |bandwidth|
    requires forall k, l :: 0 <= k < l < |at| ==> at[k] < at[l]
    ensures Total(Select(bandwidth, at)) <= Total(bandwidth)
    decreases |bandwidth|
  {
    if at != [] {
      var n, last := |bandwidth| - 1, |at| - 1;
      if at[last] == n {
        SelectLess(bandwidth[..n], at[..last]);
        assert Select(bandwidth, at)[..last] == Select(bandwidth[..n], at[..last]);
      } else {
        SelectLess(bandwidth[..n], at);
        assert Select(bandwidth, at) == Select(bandwidth[..n], at);
      }
    }
  }

  function PeriodsOf(ids: seq<nat>, weight: map<nat, real>): (ps: seq<real>)
    requires forall k :: 0 <= k < |ids| ==> ids[k] in weight && weight[ids[k]] != 0.0
    ensures |ps| == |ids|
  {
    seq(|ids|, k requires 0 <= k < |ids| => PeriodOf(weight[ids[k]]))
  }

  ghost predicate Served(periods: seq<real>, j: nat, m: nat, k: nat) {
    && j < |periods| && (forall i :: 0 <= i < |periods| ==> periods[i] > 0.0) && Load(periods, j) < 1.0
    && (Waits(After(Fresh(|periods|), periods, m), periods, j, k) ==>
          k as real * (1.0 - Load(periods, j))
          < (|periods| - 1) as real + (periods[j] + 1.0) * (1.0 - Load(periods, j)))
  }

  lemma LoadedServes(periods: seq<real>, j: nat, m: nat, k: nat)
    requires j < |periods| && (forall i :: 0 <= i < |periods| ==> periods[i] > 0.0) && Load(periods, j) < 1.0
    ensures Served(periods, j, m, k)
  {
    hide Load, Waits, After;
    var vals := Fresh(|periods|);
    AfterBounded(vals, periods, m);
    if Waits(After(vals, periods, m), periods, j, k) {
      GapBounded(After(vals, periods, m), periods, j, k);
    }
  }

  /** How many packets are sent from one packet over a tunnel to its next at the least: the total over
      the bandwidth, rounded up, and one. */
  function Cycle(bandwidth: nat, total: nat): (c: nat)
    requires bandwidth > 0
    ensures c > 0
  {
    (total + bandwidth - 1) / bandwidth + 1
  }

  lemma CeilRatio(bandwidth: nat, total: nat)
    requires 0 < bandwidth
    ensures Ceil(total as real / bandwidth as real) == (total + bandwidth - 1) / bandwidth
  {
    var q := (total + bandwidth - 1) / bandwidth;
    assert q * bandwidth <= total + bandwidth - 1 < q * bandwidth + bandwidth;
    var b, t, x := bandwidth as real, total as real, total as real / bandwidth as real;
    assert x * b == t;
    assert (q * bandwidth) as real == q as real * b;
    assert t <= q as real * b && (q as real - 1.0) * b < t;
    if x > q as real {
      Scale(q as real, x, b);
      assert false;
    }
    if x < q as real - 1.0 {
      Scale(x, q as real - 1.0, b);
      assert false;
    }
    CeilIs(x, q);
  }

  /** The spacing of an entry in terms of its bandwidth. */
  lemma SpacingIs(bandwidth: nat, total: nat)
    requires 0 < bandwidth && 0 < total
    ensures WeightOf(bandwidth, total) > 0.0 && PeriodOf(WeightOf(bandwidth, total)) > 0.0
    ensures Spacing(PeriodOf(WeightOf(bandwidth, total))) == Cycle(bandwidth, total) as real
  {
    hide WeightOf, PeriodOf, Ceil;
    PeriodIsRatio(bandwidth, total);
    assert total as real / bandwidth as real > 0.0;
    CeilRatio(bandwidth, total);
  }

  /** Where the tunnels of the table are in the list, and that their weights are positive. */
  lemma TableWeights(list: seq<S.Tunnel>, bandwidth: seq<U32>, weight: map<nat, real>, mode: nat) returns (at: seq<nat>)
    requires Weighted(list, bandwidth, weight) && 0 !in bandwidth
    ensures var ids, total := S.EligibleIds(list, mode), Total(bandwidth) % TWO32;
            && |at| == |ids| && (forall i :: 0 <= i < |at| ==> at[i] < |bandwidth|)
            && (forall i, k :: 0 <= i < k < |at| ==> at[i] < at[k])
            && forall i :: 0 <= i < |ids| ==>
                 bandwidth[at[i]] > 0 && ids[i] in weight && weight[ids[i]] == WeightOf(bandwidth[at[i]], total) > 0.0
  {
    hide Total, WeightOf;
    at := TablePlaces(list, mode, 0);
    assert list[0..] == list;
    var ids, total := S.EligibleIds(list, mode), Total(bandwidth) % TWO32;
    forall i | 0 <= i < |ids|
      ensures bandwidth[at[i]] > 0 && ids[i] in weight && weight[ids[i]] == WeightOf(bandwidth[at[i]], total) > 0.0
    {
      assert bandwidth[at[i]] in bandwidth;
      PeriodIsRatio(bandwidth[at[i]], total);
    }
  }

  ghost predicate Usable(ids: seq<nat>, weight: map<nat, real>) {
    forall i :: 0 <= i < |ids| ==> ids[i] in weight && weight[ids[i]] > 0.0
  }

  lemma UsablePositive(ids: seq<nat>, weight: map<nat, real>)
    requires Usable(ids, weight)
    ensures forall i :: 0 <= i < |ids| ==> PeriodsOf(ids, weight)[i] > 0.0
  {
  }

  /** A tunnel of bandwidth b loads the table with 1/(ceil(t/b)+1), t being the 32-bit total. */
  ghost predicate LoadedBy(list: seq<S.Tunnel>, bandwidth: seq<U32>, ids: seq<nat>, periods: seq<real>)
    requires |bandwidth| == |list| && |periods| == |ids| && forall i :: 0 <= i < |periods| ==> periods[i] > 0.0
  {
    forall i, n :: 0 <= i < |ids| && 0 <= n < |list| && list[n].id == ids[i] && bandwidth[n] > 0 ==>
      Shares(periods)[i] == 1.0 / Cycle(bandwidth[n], Total(bandwidth) % TWO32) as real
  }

  lemma ShareAt(periods: seq<real>, i: nat)
    requires i < |periods| && forall n :: 0 <= n < |periods| ==> periods[n] > 0.0
    ensures Shares(periods)[i] == 1.0 / Spacing(periods[i])
  {
  }

  lemma SharesAre(list: seq<S.Tunnel>, bandwidth: seq<U32>, weight: map<nat, real>, ids: seq<nat>)
    requires Weighted(list, bandwidth, weight) && 0 !in bandwidth && Usable(ids, weight)
    requires forall i :: 0 <= i < |ids| ==> PeriodsOf(ids, weight)[i] > 0.0
    ensures LoadedBy(list, bandwidth, ids, PeriodsOf(ids, weight))
  {
    hide Total, WeightOf, PeriodOf, Spacing, Cycle, Shares;
    forall i, n | 0 <= i < |ids| && 0 <= n < |list| && list[n].id == ids[i]
      ensures bandwidth[n] > 0
      ensures Shares(PeriodsOf(ids, weight))[i] == 1.0 / Cycle(bandwidth[n], Total(bandwidth) % TWO32) as real
    {
      assert bandwidth[n] in bandwidth;
      SpacingIs(bandwidth[n], Total(bandwidth) % TWO32);
      ShareAt(PeriodsOf(ids, weight), i);
    }
  }

  /** Weights from bandwidths that are all set, over a 32-bit total that may have wrapped: while the
      other tunnels of the table load it below one, after any number m of packets since the table was
      built, tunnel j waits for fewer than T_j + 1 + (n-1)/(1-rho) more. */
  lemma LoadServes(list: seq<S.Tunnel>, bandwidth: seq<U32>, weight: map<nat, real>, mode: nat,
                   j: nat, m: nat, k: nat)
    requires Weighted(list, bandwidth, weight) && 0 !in bandwidth
    requires j < |S.EligibleIds(list, mode)|
    ensures var ids := S.EligibleIds(list, mode);
            && Usable(ids, weight) && (forall i :: 0 <= i < |ids| ==> PeriodsOf(ids, weight)[i] > 0.0)
            && LoadedBy(list, bandwidth, ids, PeriodsOf(ids, weight))
            && (Load(PeriodsOf(ids, weight), j) < 1.0 ==> Served(PeriodsOf(ids, weight), j, m, k))
  {
    hide Total, WeightOf, PeriodOf, Load, Served;
    var _ := TableWeights(list, bandwidth, weight, mode);
    var ids := S.EligibleIds(list, mode);
    var periods := PeriodsOf(ids, weight);
    assert forall i :: 0 <= i < |ids| ==> periods[i] > 0.0 by { UsablePositive(ids, weight); }
    assert LoadedBy(list, bandwidth, ids, periods) by { SharesAre(list, bandwidth, weight, ids); }
    if Load(periods, j) < 1.0 {
      LoadedServes(periods, j, m, k);
    }
  }

  /** In particular when the bandwidths add up inside 32 bits, since the load is then below one. */
  lemma BandwidthServes(list: seq<S.Tunnel>, bandwidth: seq<U32>, weight: map<nat, real>, mode: nat,
                        j: nat, m: nat, k: nat)
    requires Weighted(list, bandwidth, weight) && 0 !in bandwidth && Total(bandwidth) < TWO32
    requires j < |S.EligibleIds(list, mode)|
    ensures var ids := S.EligibleIds(list, mode);
            Usable(ids, weight) && Served(PeriodsOf(ids, weight), j, m, k)
  {
    hide Total, WeightOf, PeriodOf, Load, Served;
    LoadServes(list, bandwidth, weight, mode, j, m, k);
    var at := TableWeights(list, bandwidth, weight, mode);
    var bs := Select(bandwidth, at);
    SelectLess(bandwidth, at);
    BandwidthLoad(PeriodsOf(S.EligibleIds(list, mode), weight), bs, Total(bandwidth), j);
  }

  // ---- A sum that wraps ----

  /** Two entries whose period is below one take turns for ever. */
  lemma {:induction false} TwoTakeTurns(t: real, u: real, k: nat)
    requires 0.0 < t < 1.0 && u > 0.0
    ensures var vals := After(Fresh(3), [t, t, u], k);
            && vals[2] == 0.0 && Pick(Fresh(3), [t, t, u], k) == k % 2
            && vals[k % 2] == (if k < 2 then 0.0 else t - 1.0) && vals[1 - k % 2] == (if k == 0 then 0.0 else t)
  {
    var vals := After(Fresh(3), [t, t, u], k);
    if k > 0 {
      TwoTakeTurns(t, u, k - 1);
    }
    ScanThree(vals);
  }

  /** And load the table with exactly one. */
  lemma TurnsLoad(t: real, u: real)
    requires 0.0 < t < 1.0 && u > 0.0
    ensures Load([t, t, u], 2) == 1.0
  {
    CeilIs(t, 1);
    var s := Shares([t, t, u]);
    assert s[0] == 1.0 / Spacing(t) == 0.5 && s[1] == 0.5;
    assert SumExcept(s, 2, 3) == SumExcept(s, 2, 2) == SumExcept(s, 2, 1) + s[1] == SumExcept(s, 2, 0) + s[0] + s[1];
  }

  lemma ScanThree(vals: seq<real>)
    requires |vals| == 3 && forall i :: 0 <= i < 3 ==> vals[i] < SENTINEL
    ensures MinIndex(vals) == if vals[0] <= vals[1] && vals[0] <= vals[2] then 0
                              else if vals[1] <= vals[2] then 1 else 2
  {
    MinIndexIsFirstLeast(vals, 0);
  }

  /** Three tunnels of 2^31, 2^31 and 1 bytes per second: the 32-bit total is 1, the first two load the
      table with exactly one, and the third is never chosen. */
  lemma WrappedStarves(k: nat)
    ensures var bandwidth := [0x8000_0000, 0x8000_0000, 1];
            var total := Total(bandwidth) % TWO32;
            && total == 1 && (forall i :: 0 <= i < 3 ==> WeightOf(bandwidth[i], total) != 0.0)
            && var periods := seq(3, i requires 0 <= i < 3 => PeriodOf(WeightOf(bandwidth[i], total)));
               && (forall i :: 0 <= i < 3 ==> periods[i] > 0.0) && Load(periods, 2) == 1.0
               && Pick(Fresh(3), periods, k) != 2
  {
    hide Pick, Load;
    var bandwidth := [0x8000_0000, 0x8000_0000, 1];
    assert bandwidth[..2] == [0x8000_0000, 0x8000_0000] && bandwidth[..2][..1] == [0x8000_0000];
    assert Total(bandwidth[..2][..1][..0]) == 0;
    assert Total(bandwidth[..2][..1]) == 0x8000_0000;
    assert Total(bandwidth) == 0x1_0000_0001;
    PeriodIsRatio(0x8000_0000, 1);
    PeriodIsRatio(1, 1);
    var t := PeriodOf(WeightOf(0x8000_0000, 1));
    var u := PeriodOf(WeightOf(1, 1));
    assert seq(3, i requires 0 <= i < 3 => PeriodOf(WeightOf(bandwidth[i], 1))) == [t, t, u];
    TwoTakeTurns(t, u, k);
    TurnsLoad(t, u);
  }
}
