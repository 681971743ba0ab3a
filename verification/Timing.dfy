/** The 16-bit timestamp echo of src/timestamp.c and src/mlvpn.c, the round-trip estimator of
    section 2 of RFC 6298, and the reorder timeout computed from it. */
module Timing {
  import opened Words

  const TWO16: nat := 65536
  const NO_STAMP: nat := 65535

  type U16 = n: nat | n < 65536

  // ---- Timestamps ----

  /** Milliseconds modulo 2^16; 65535 means "none", so that one value becomes 0. */
  function Stamp(now: nat): (ts: U16) {
    var ts := now % TWO16;
    if ts == NO_STAMP then 0 else ts
  }

  function StampDiff(later: U16, earlier: U16): (d: U16) {
    if later < earlier then later - earlier + TWO16 else later - earlier
  }

  /** The error a stamp makes: one millisecond ahead, once every 65536. */
  function Slip(now: nat): (e: nat)
    ensures e <= 1
  {
    if now % TWO16 == NO_STAMP then 1 else 0
  }

  lemma StampIsTime(now: nat)
    ensures Stamp(now) != NO_STAMP && Stamp(now) == (now + Slip(now)) % TWO16
  {
  }

  /** A timestamp held by the peer: the last one received and when. Never received is -1 at time 0. */
  datatype Echo = Echo(saved: U64, at: U64)

  const NOTHING := Echo(TWO64 - 1, 0)

  function OnReceive(e: Echo, stamp: U16, now: U64): (f: Echo) {
    if stamp == NO_STAMP then e else Echo(stamp, now)
  }

  /** The reply carried by a packet sent now, and what is held afterwards. */
  function OnSend(e: Echo, now: U64): (o: (Echo, U16)) {
    if Sub64(now, e.at) < 1000 then (NOTHING, (e.saved + Sub64(now, e.at)) % TWO16)
    else (e, NO_STAMP)
  }

  lemma ModOf(q: int, r: int)
    requires 0 <= r < TWO16
    ensures (q * TWO16 + r) % TWO16 == r
  {
  }

  /** Residues of a difference: reducing either side first changes nothing. */
  lemma ModMinus(x: nat, y: nat)
    ensures StampDiff(x % TWO16, y % TWO16) == (x - y) % TWO16
  {
    var p, q, r, s := x / TWO16, y / TWO16, x % TWO16, y % TWO16;
    assert x == p * TWO16 + r && y == q * TWO16 + s;
    if r < s {
      ModOf(p - q - 1, r - s + TWO16);
      assert x - y == (p - q - 1) * TWO16 + (r - s + TWO16);
    } else {
      ModOf(p - q, r - s);
      assert x - y == (p - q) * TWO16 + (r - s);
    }
  }

  lemma ModPlus(x: nat, y: nat)
    ensures (x % TWO16 + y) % TWO16 == (x + y) % TWO16
  {
    assert x + y == (x / TWO16) * TWO16 + (x % TWO16 + y);
  }

  /** A packet as the echo sees it: its stamp and when it came. */
  datatype Heard = Heard(stamp: U16, at: U64)

  function Hear(e: Echo, hs: seq<Heard>): (f: Echo)
    decreases |hs|
  {
    if hs == [] then e else Hear(OnReceive(e, hs[0].stamp, hs[0].at), hs[1..])
  }

  /** Whatever was held before, what is held is the last stamp received. */
  lemma {:induction false} LastHeld(e: Echo, hs: seq<Heard>, i: nat)
    requires i < |hs| && hs[i].stamp != NO_STAMP
    requires forall k :: i < k < |hs| ==> hs[k].stamp == NO_STAMP
    ensures Hear(e, hs) == Echo(hs[i].stamp, hs[i].at)
    decreases |hs|
  {
    var f := OnReceive(e, hs[0].stamp, hs[0].at);
    if i > 0 {
      LastHeld(f, hs[1..], i - 1);
    } else {
      NoneHeard(f, hs[1..]);
    }
  }

  lemma {:induction false} NoneHeard(e: Echo, hs: seq<Heard>)
    requires forall k :: 0 <= k < |hs| ==> hs[k].stamp == NO_STAMP
    ensures Hear(e, hs) == e
  {
    if hs != [] {
      NoneHeard(e, hs[1..]);
    }
  }

  /** A sends at its time a1; that is the last stamp the peer receives, at its own time b1, before it
      answers at b2; A receives at a2. The two clocks are unrelated. The sample is the round trip less
      the hold time, modulo 2^16, off by at most the slip of the two stamps, which is within one
      millisecond. */
  lemma EchoMeasures(e: Echo, hs: seq<Heard>, i: nat, a1: U64, b1: U64, b2: U64, a2: U64)
    requires i < |hs| && hs[i] == Heard(Stamp(a1), b1) && b1 <= b2 < b1 + 1000
    requires forall k :: i < k < |hs| ==> hs[k].stamp == NO_STAMP
    ensures var reply := OnSend(Hear(e, hs), b2).1;
            StampDiff(Stamp(a2), reply) == ((a2 - a1) - (b2 - b1) + (Slip(a2) - Slip(a1))) % TWO16
  {
    StampIsTime(a1);
    StampIsTime(a2);
    LastHeld(e, hs, i);
    var hold, sent, t2 := b2 - b1, a1 + Slip(a1), a2 + Slip(a2);
    assert OnSend(Echo(Stamp(a1), b1), b2).1 == (Stamp(a1) + hold) % TWO16;
    ModPlus(sent, hold);
    ModMinus(t2, sent + hold);
    assert t2 - (sent + hold) == (a2 - a1) - (b2 - b1) + (Slip(a2) - Slip(a1));
  }

  // ---- Each timestamp is echoed at most once ----

  /** How many of the packets sent at these times carry a reply. */
  function Replies(e: Echo, sends: seq<U64>): (n: nat)
    decreases |sends|
  {
    if sends == [] then 0
    else
      var (f, r) := OnSend(e, sends[0]);
      (if r != NO_STAMP then 1 else 0) + Replies(f, sends[1..])
  }

  lemma {:induction false} NothingToEcho(sends: seq<U64>)
    requires forall i :: 0 <= i < |sends| ==> sends[i] >= 1000
    ensures Replies(NOTHING, sends) == 0
  {
    if sends != [] {
      NothingToEcho(sends[1..]);
    }
  }

  /** Between two receptions a saved timestamp goes out at most once, provided the clock is past
      its first second; before that even "nothing saved" is sent as a reply. */
  lemma {:induction false} EchoedOnce(e: Echo, sends: seq<U64>)
    requires forall i :: 0 <= i < |sends| ==> sends[i] >= 1000
    ensures Replies(e, sends) <= 1
  {
    if sends != [] {
      if Sub64(sends[0], e.at) < 1000 {
        NothingToEcho(sends[1..]);
      } else {
        EchoedOnce(e, sends[1..]);
      }
    }
  }

  /** The condition is exact: with nothing saved a reply goes out if and only if the clock is in its
      first second, except at millisecond 0 where it happens to be 65535. */
  lemma FirstSecondReplies(now: U64)
    ensures OnSend(NOTHING, now).1 != NO_STAMP <==> 0 < now < 1000
  {
    if now < 1000 {
      assert OnSend(NOTHING, now).1 == (TWO64 - 1 + now) % TWO16;
      assert TWO64 - 1 + now == 0x1_0000_0000_0000 * TWO16 - 1 + now;
      if now > 0 {
        assert (0x1_0000_0000_0000 * TWO16 + (now - 1)) % TWO16 == now - 1;
      } else {
        assert TWO64 - 1 == 0xFFFF_FFFF_FFFF * TWO16 + NO_STAMP;
      }
    }
  }

  // ---- Round-trip estimator ----

  datatype Rtt = Rtt(hit: bool, srtt: real, rttvar: real)

  const UNMEASURED := Rtt(false, 1000.0, 500.0)

  function Abs(x: real): real { if x < 0.0 then -x else x }

  /** Samples of five seconds or more are ignored. */
  function Measure(r: Rtt, sample: nat): (s: Rtt) {
    var x := sample as real;
    if sample >= 5000 then r
    else if !r.hit then Rtt(true, x, x / 2.0)
    else Rtt(true, (1.0 - 1.0 / 8.0) * r.srtt + (1.0 / 8.0) * x,
             (1.0 - 1.0 / 4.0) * r.rttvar + (1.0 / 4.0) * Abs(r.srtt - x))
  }

  function MeasureAll(r: Rtt, samples: seq<nat>): (s: Rtt)
    decreases |samples|
  {
    if samples == [] then r else MeasureAll(Measure(r, samples[0]), samples[1..])
  }

  /** Every accepted sample lies between lo and hi. */
  ghost predicate Within(samples: seq<nat>, lo: nat, hi: nat) {
    forall i :: 0 <= i < |samples| && samples[i] < 5000 ==> lo <= samples[i] <= hi
  }

  ghost predicate Bounded(r: Rtt, lo: nat, hi: nat) {
    r.hit ==> lo as real <= r.srtt <= hi as real && 0.0 <= r.rttvar <= hi as real
  }

  /** The smoothed value stays between the least and the greatest sample accepted, and the
      variation between 0 and the greatest. */
  lemma {:induction false} EstimateBounded(r: Rtt, samples: seq<nat>, lo: nat, hi: nat)
    requires lo <= hi && Within(samples, lo, hi) && Bounded(r, lo, hi)
    ensures Bounded(MeasureAll(r, samples), lo, hi)
    decreases |samples|
  {
    if samples != [] {
      EstimateBounded(Measure(r, samples[0]), samples[1..], lo, hi);
    }
  }

  /** The samples below five seconds. */
  function Accepted(samples: seq<nat>): (xs: seq<nat>) {
    if samples == [] then [] else (if samples[0] < 5000 then [samples[0]] else []) + Accepted(samples[1..])
  }

  /** A sample of five seconds or more leaves no trace. */
  lemma {:induction false} LargeIgnored(r: Rtt, samples: seq<nat>)
    ensures MeasureAll(r, samples) == MeasureAll(r, Accepted(samples))
    decreases |samples|
  {
    if samples != [] {
      LargeIgnored(Measure(r, samples[0]), samples[1..]);
      if samples[0] < 5000 {
        assert Accepted(samples)[1..] == Accepted(samples[1..]);
      } else {
        assert Accepted(samples) == Accepted(samples[1..]);
      }
    }
  }

  // ---- The estimates in closed form ----

  function Power(x: real, n: nat): (p: real) { if n == 0 then 1.0 else x * Power(x, n - 1) }

  /** The sum of gain * (1 - gain)^(age) * x over the values, the newest having age 0, for the first
      n of them. */
  function Faded(xs: seq<real>, gain: real, n: nat): (sum: real)
    requires n <= |xs|
  {
    if n == 0 then 0.0 else Faded(xs, gain, n - 1) + gain * Power(1.0 - gain, |xs| - n) * xs[n - 1]
  }

  /** A start value and later values, each weighted by how long ago it came. */
  function Smoothed(start: real, xs: seq<real>, gain: real): (v: real) {
    Power(1.0 - gain, |xs|) * start + Faded(xs, gain, |xs|)
  }

  lemma {:induction false} FadedAges(xs: seq<real>, x: real, gain: real, n: nat)
    requires n <= |xs|
    ensures Faded(xs + [x], gain, n) == (1.0 - gain) * Faded(xs, gain, n)
  {
    hide Power;
    if n > 0 {
      FadedAges(xs, x, gain, n - 1);
      var q, p := 1.0 - gain, Power(1.0 - gain, |xs| - n);
      PowerStep(q, |xs| - n);
      Regroup(gain, q, p, xs[n - 1], Faded(xs, gain, n - 1));
    }
  }

  lemma PowerStep(x: real, n: nat)
    ensures Power(x, n + 1) == x * Power(x, n)
  {
  }

  lemma Regroup(gain: real, q: real, p: real, x: real, f: real)
    ensures q * f + gain * (q * p) * x == q * (f + gain * p * x)
  {
    assert gain * (q * p) * x == q * (gain * p * x);
  }

  /** One more value: the old result fades by the gain and the value takes its share. */
  lemma SmoothedStep(start: real, xs: seq<real>, x: real, gain: real)
    ensures Smoothed(start, xs + [x], gain) == (1.0 - gain) * Smoothed(start, xs, gain) + gain * x
  {
    hide Faded;
    FadedAges(xs, x, gain, |xs|);
    var q, p, f := 1.0 - gain, Power(1.0 - gain, |xs|), Faded(xs, gain, |xs|);
    assert Power(q, |xs| + 1) == q * p;
    FadedLast(xs, x, gain);
    assert q * (p * start + f) == q * p * start + q * f;
  }

  lemma FadedLast(xs: seq<real>, x: real, gain: real)
    ensures Faded(xs + [x], gain, |xs| + 1) == Faded(xs + [x], gain, |xs|) + gain * x
  {
    assert Power(1.0 - gain, 0) == 1.0;
  }

  /** How far each later sample was from the smoothed value before it. */
  function Deviations(first: nat, later: seq<nat>): (ds: seq<real>)
    ensures |ds| == |later|
  {
    seq(|later|, i requires 0 <= i < |later| =>
      Abs(Smoothed(first as real, Reals(later[..i]), 1.0 / 8.0) - later[i] as real))
  }

  lemma {:induction false} MeasureSnoc(r: Rtt, samples: seq<nat>, x: nat)
    ensures MeasureAll(r, samples + [x]) == Measure(MeasureAll(r, samples), x)
    decreases |samples|
  {
    hide Measure;
    if samples == [] {
      assert [x][1..] == [] && samples + [x] == [x];
    } else {
      MeasureSnoc(Measure(r, samples[0]), samples[1..], x);
      assert (samples + [x])[1..] == samples[1..] + [x];
    }
  }

  lemma DeviationsSnoc(first: nat, later: seq<nat>, x: nat)
    ensures Deviations(first, later + [x])
         == Deviations(first, later) + [Abs(Smoothed(first as real, Reals(later), 1.0 / 8.0) - x as real)]
  {
    hide Smoothed, Abs;
    var all := later + [x];
    assert forall i :: 0 <= i <= |later| ==> all[..i] == later[..i];
    assert later[..|later|] == later;
  }

  function Estimate(first: nat, later: seq<nat>): (r: Rtt) {
    Rtt(true, Smoothed(first as real, Reals(later), 1.0 / 8.0),
        Smoothed(first as real / 2.0, Deviations(first, later), 1.0 / 4.0))
  }

  lemma EstimateFirst(first: nat)
    requires first < 5000
    ensures MeasureAll(UNMEASURED, [first]) == Estimate(first, [])
  {
    assert [first][1..] == [];
    assert Power(1.0 - 1.0 / 8.0, 0) == 1.0 && Power(1.0 - 1.0 / 4.0, 0) == 1.0;
  }

  lemma EstimateStep(first: nat, later: seq<nat>, x: nat)
    requires x < 5000
    ensures Estimate(first, later + [x]) == Measure(Estimate(first, later), x)
  {
    hide Smoothed, Abs, Deviations;
    var d := Abs(Smoothed(first as real, Reals(later), 1.0 / 8.0) - x as real);
    assert Reals(later + [x]) == Reals(later) + [x as real];
    SmoothedStep(first as real, Reals(later), x as real, 1.0 / 8.0);
    DeviationsSnoc(first, later, x);
    SmoothedStep(first as real / 2.0, Deviations(first, later), d, 1.0 / 4.0);
  }

  /** Section 2 of RFC 6298 in closed form: the smoothed time weighs all samples with gain 1/8, and
      the variation weighs, with gain 1/4 from half the first sample, how far each sample was from
      the smoothed time before it. */
  lemma {:induction false} EstimateIs(first: nat, later: seq<nat>)
    requires first < 5000 && forall i :: 0 <= i < |later| ==> later[i] < 5000
    ensures MeasureAll(UNMEASURED, [first] + later) == Estimate(first, later)
    decreases |later|
  {
    hide Estimate, Measure, MeasureAll;
    if later == [] {
      assert [first] + later == [first];
      EstimateFirst(first);
    } else {
      var n := |later| - 1;
      var before, x := later[..n], later[n];
      assert later == before + [x] && [first] + later == [first] + before + [x];
      EstimateIs(first, before);
      MeasureSnoc(UNMEASURED, [first] + before, x);
      EstimateStep(first, before, x);
    }
  }

  // ---- The reorder timeout ----

  /** A tunnel as the timeout sees it: up, not a fallback, and its estimate. */
  datatype Link = Link(up: bool, fallback: bool, rtt: Rtt)

  predicate Counts(l: Link) { l.up && !l.fallback && l.rtt.hit }

  function Slowest(ls: seq<Link>): (m: real)
    ensures m >= 0.0
  {
    if ls == [] then 0.0
    else
      var l, m := ls[|ls| - 1], Slowest(ls[..|ls| - 1]);
      if Counts(l) && l.rtt.srtt + 4.0 * l.rtt.rttvar > m then l.rtt.srtt + 4.0 * l.rtt.rttvar else m
  }

  /** Seconds until held packets are released. */
  function DrainTimeout(ls: seq<Link>): (t: real) {
    var m := Slowest(ls);
    if m > 0.0 then m * 2.2 / 1000.0 else 0.8
  }

  lemma {:induction false} SlowestBounded(ls: seq<Link>)
    requires forall i :: 0 <= i < |ls| ==> Bounded(ls[i].rtt, 0, 4999)
    ensures Slowest(ls) <= 24995.0
    ensures forall i :: 0 <= i < |ls| && Counts(ls[i]) ==> ls[i].rtt.srtt + 4.0 * ls[i].rtt.rttvar <= Slowest(ls)
  {
    if ls != [] {
      SlowestBounded(ls[..|ls| - 1]);
    }
  }

  /** Whatever was measured on the tunnels, the timeout is positive, below 55 seconds, and covers
      2.2 times the worst estimate. */
  lemma TimeoutBounded(ls: seq<Link>, samples: seq<seq<nat>>)
    requires |samples| == |ls|
    requires forall i :: 0 <= i < |ls| ==> ls[i].rtt == MeasureAll(UNMEASURED, samples[i])
    ensures 0.0 < DrainTimeout(ls) < 55.0
    ensures forall i :: 0 <= i < |ls| && Counts(ls[i]) ==>
              (ls[i].rtt.srtt + 4.0 * ls[i].rtt.rttvar) * 2.2 / 1000.0 <= DrainTimeout(ls)
  {
    forall i | 0 <= i < |ls|
      ensures Bounded(ls[i].rtt, 0, 4999)
    {
      EstimateBounded(UNMEASURED, samples[i], 0, 4999);
    }
    SlowestBounded(ls);
  }

  function Estimated(l: Link): (ms: real) { l.rtt.srtt + 4.0 * l.rtt.rttvar }

  lemma {:induction false} SlowestReached(ls: seq<Link>)
    ensures forall i :: 0 <= i < |ls| && ls[i].up && !ls[i].fallback && ls[i].rtt.hit ==>
              Estimated(ls[i]) <= Slowest(ls)
    ensures Slowest(ls) > 0.0 ==>
            exists i :: 0 <= i < |ls| && ls[i].up && !ls[i].fallback && ls[i].rtt.hit && Estimated(ls[i]) == Slowest(ls)
  {
    if ls != [] {
      var n := |ls| - 1;
      var before := ls[..n];
      SlowestReached(before);
      assert forall i :: 0 <= i < n ==> ls[i] == before[i];
      if Slowest(ls) == Slowest(before) && Slowest(before) > 0.0 {
        var i :| && 0 <= i < n && before[i].up && !before[i].fallback && before[i].rtt.hit
                 && Estimated(before[i]) == Slowest(before);
        assert ls[i] == before[i];
      }
    }
  }

  /** The timeout is 2.2 times the largest estimate over the links that are up, ordinary and measured,
      or 0.8 seconds if none of them has a positive one. */
  lemma TimeoutIs(ls: seq<Link>)
    ensures if exists i :: 0 <= i < |ls| && ls[i].up && !ls[i].fallback && ls[i].rtt.hit && Estimated(ls[i]) > 0.0
            then exists i :: && 0 <= i < |ls| && ls[i].up && !ls[i].fallback && ls[i].rtt.hit
                             && DrainTimeout(ls) == Estimated(ls[i]) * 2.2 / 1000.0
                             && forall k :: 0 <= k < |ls| && ls[k].up && !ls[k].fallback && ls[k].rtt.hit ==>
                                  Estimated(ls[k]) <= Estimated(ls[i])
            else DrainTimeout(ls) == 0.8
  {
    hide Slowest;
    SlowestReached(ls);
  }

  method AdjustTimeout(ls: seq<Link>) returns (seconds: real)
    ensures seconds == DrainTimeout(ls)
  {
    var m := 0.0;
    for i := 0 to |ls|
      invariant m == Slowest(ls[..i])
    {
      assert ls[..i + 1][..i] == ls[..i];
      if Counts(ls[i]) {
        var x := ls[i].rtt.srtt + 4.0 * ls[i].rtt.rttvar;
        m := if m > x then m else x;
      }
    }
    assert ls[..|ls|] == ls;
    seconds := if m > 0.0 then m * 2.2 / 1000.0 else 0.8;
  }
}
