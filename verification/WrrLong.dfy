/** Links with small weights: their values stay at 100 or more, where the scan sees none of them, and
    the first entry takes every packet. */
module WrrLong {
  import opened Words
  import opened Wrr

  /** Periods so long that a whole round leaves every value at 100 or more. */
  ghost predicate Long(periods: seq<real>) {
    |periods| > 1 && forall i :: 0 <= i < |periods| ==> periods[i] >= SENTINEL + |periods| as real
  }

  /** The value of entry i when every entry was chosen once. */
  function AfterRound(periods: seq<real>, i: nat): (v: real)
    requires i < |periods|
  {
    periods[i] - (|periods| - 1 - i) as real
  }

  /** A new table is gone through once, entry by entry. */
  lemma {:induction false} FirstRound(periods: seq<real>, k: nat)
    requires Long(periods) && k <= |periods|
    ensures var vals := After(Fresh(|periods|), periods, k);
            forall i :: 0 <= i < |periods| ==> vals[i] == if i < k then periods[i] - (k - 1 - i) as real else 0.0
    ensures k < |periods| ==> Pick(Fresh(|periods|), periods, k) == k
  {
    var vals := After(Fresh(|periods|), periods, k);
    if k > 0 {
      FirstRound(periods, k - 1);
      var before := After(Fresh(|periods|), periods, k - 1);
      forall i | 0 <= i < |periods|
        ensures vals[i] == if i < k then periods[i] - (k - 1 - i) as real else 0.0
      {
        assert vals[i] == if i == k - 1 then periods[i] else Tick(before[i]);
        assert i < k - 1 ==> before[i] == periods[i] - (k - 2 - i) as real > 0.0;
      }
    }
    if k < |periods| {
      MinIndexIsFirstLeast(vals, k);
    }
  }

  /** No other entry has come below 100 in the s choices after the first round. */
  ghost predicate OthersAbove(periods: seq<real>, s: int) {
    forall i :: 1 <= i < |periods| ==> AfterRound(periods, i) - s as real >= SENTINEL
  }

  lemma LaterIsLower(periods: seq<real>, s: int)
    ensures OthersAbove(periods, s) ==> OthersAbove(periods, s - 1)
    ensures Long(periods) ==> OthersAbove(periods, -1)
  {
  }

  /** The values s choices after the first round, all of which the first entry took. */
  ghost predicate CountedDown(periods: seq<real>, s: nat, vals: seq<real>) {
    && Fits(vals, periods) && vals[0] >= SENTINEL
    && forall i :: 1 <= i < |periods| ==> vals[i] == AfterRound(periods, i) - s as real
  }

  lemma PickIs(periods: seq<real>, s: nat)
    requires Long(periods)
    ensures Pick(Fresh(|periods|), periods, |periods| + s) == MinIndex(After(Fresh(|periods|), periods, |periods| + s))
  {
  }

  lemma ChoosesFirst(vals: seq<real>, periods: seq<real>)
    requires Fits(vals, periods) && Long(periods) && forall i :: 0 <= i < |vals| ==> vals[i] >= SENTINEL
    ensures var next := Choose(vals, periods);
            next[0] == periods[0] && forall i :: 1 <= i < |vals| ==> next[i] == vals[i] - 1.0
  {
    FirstByDefault(vals);
  }

  lemma AllAbove(periods: seq<real>, s: nat, vals: seq<real>)
    requires CountedDown(periods, s, vals) && OthersAbove(periods, s)
    ensures forall i :: 0 <= i < |vals| ==> vals[i] >= SENTINEL
  {
  }

  lemma CountsOn(periods: seq<real>, s: nat, vals: seq<real>)
    requires Long(periods) && CountedDown(periods, s, vals) && OthersAbove(periods, s)
    ensures CountedDown(periods, s + 1, Choose(vals, periods))
  {
    hide Choose;
    AllAbove(periods, s, vals);
    ChoosesFirst(vals, periods);
  }

  lemma FirstIff(periods: seq<real>, s: nat, vals: seq<real>)
    requires CountedDown(periods, s, vals)
    ensures MinIndex(vals) == 0 <==> OthersAbove(periods, s)
  {
    hide MinIndex, AfterRound;
    if OthersAbove(periods, s) {
      AllAbove(periods, s, vals);
      FirstByDefault(vals);
    } else {
      var i :| 1 <= i < |periods| && AfterRound(periods, i) - s as real < SENTINEL;
      MinIndexIsFirstLeast(vals, i);
    }
  }

  lemma AfterNext(periods: seq<real>, k: nat)
    requires |periods| > 0
    ensures After(Fresh(|periods|), periods, k + 1) == Choose(After(Fresh(|periods|), periods, k), periods)
  {
  }

  lemma StartsDown(periods: seq<real>)
    requires Long(periods)
    ensures CountedDown(periods, 0, After(Fresh(|periods|), periods, |periods|))
  {
    hide After;
    FirstRound(periods, |periods|);
  }

  /** While that holds the first entry is chosen again and again, and the others count down. */
  lemma {:induction false} FirstAgain(periods: seq<real>, s: nat)
    requires Long(periods) && OthersAbove(periods, s - 1)
    ensures CountedDown(periods, s, After(Fresh(|periods|), periods, |periods| + s))
    ensures Pick(Fresh(|periods|), periods, |periods| + s) == 0 <==> OthersAbove(periods, s)
  {
    hide Pick, After, CountedDown, OthersAbove, Choose, MinIndex;
    if s == 0 {
      StartsDown(periods);
    } else {
      LaterIsLower(periods, s - 1);
      FirstAgain(periods, s - 1);
      CountsOn(periods, s - 1, After(Fresh(|periods|), periods, |periods| + (s - 1)));
      AfterNext(periods, |periods| + (s - 1));
    }
    PickIs(periods, s);
    FirstIff(periods, s, After(Fresh(|periods|), periods, |periods| + s));
  }

  /** After the first round of a new table the first entry takes packets t + 1 in a row exactly as long
      as no other period, less the entries after it and less t, has come below 100. */
  lemma {:induction false} FirstTakesAll(periods: seq<real>, t: nat)
    requires Long(periods)
    ensures OthersAbove(periods, t) <==>
            forall k :: |periods| <= k <= |periods| + t ==> Pick(Fresh(|periods|), periods, k) == 0
  {
    hide Pick, Long;
    LaterIsLower(periods, t);
    if t > 0 {
      FirstTakesAll(periods, t - 1);
    }
    if OthersAbove(periods, t - 1) {
      FirstAgain(periods, t);
    }
  }
}
