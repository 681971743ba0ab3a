/** Round robin with the default weight 1: plain rotation up to 101 entries, and beyond that a
    rotation over the first 101 that never reaches the others. */
module WrrDefault {
  import opened Wrr

  const ROTATION: nat := 101

  function Cycle(n: nat): (m: nat) { if n < ROTATION then n else ROTATION }

  /** The period 100/weight of a tunnel that keeps its initial weight. */
  function Hundreds(n: nat): (s: seq<real>)
    ensures |s| == n
  {
    seq(n, _ => PeriodOf(1.0))
  }

  /** An entry of the cycle counts down from 100 since it was last chosen. */
  function Value(k: nat, i: nat, m: nat): (v: real)
    requires m > 0
  {
    if i < m && i < k then 100.0 - ((k - 1 - i) % m) as real else 0.0
  }

  function Expected(n: nat, k: nat): (s: seq<real>)
    requires n > 0
    ensures |s| == n
  {
    seq(n, i requires 0 <= i < n => Value(k, i, Cycle(n)))
  }

  lemma AtLeastOnce(d: int, m: nat)
    requires d >= 1
    ensures d * m >= m
  {
  }

  lemma RemainderOf(q: nat, r: nat, m: nat)
    requires r < m
    ensures (q * m + r) % m == r
  {
    var x := q * m + r;
    var p := x / m;
    assert x == p * m + x % m;
    assert (q - p) * m == x % m - r;
    if q > p {
      AtLeastOnce(q - p, m);
    } else if p > q {
      AtLeastOnce(p - q, m);
    }
  }

  lemma NextRemainder(a: nat, m: nat)
    requires m > 0
    ensures (a + 1) % m == if a % m == m - 1 then 0 else a % m + 1
  {
    var q, r := a / m, a % m;
    assert a == q * m + r;
    if r == m - 1 {
      RemainderOf(q + 1, 0, m);
      assert a + 1 == (q + 1) * m + 0;
    } else {
      RemainderOf(q, r + 1, m);
      assert a + 1 == q * m + (r + 1);
    }
  }

  lemma SameRemainder(k: nat, i: nat, m: nat)
    requires i < m && i <= k
    ensures (k - i) % m == 0 <==> k % m == i
  {
    var q, c := k / m, k % m;
    assert k == q * m + c;
    if i <= c {
      RemainderOf(q, c - i, m);
      assert k - i == q * m + (c - i);
    } else {
      assert q >= 1;
      RemainderOf(q - 1, m + c - i, m);
      assert k - i == (q - 1) * m + (m + c - i);
    }
  }

  /** The age of an entry: it is due exactly when it is the turn of its index. */
  lemma Ages(k: nat, i: nat, m: nat)
    requires i < m && i < k
    ensures (k - 1 - i) % m == m - 1 <==> k % m == i
    ensures (k - i) % m == if k % m == i then 0 else (k - 1 - i) % m + 1
  {
    NextRemainder(k - 1 - i, m);
    SameRemainder(k, i, m);
  }

  lemma ExpectedOrder(n: nat, k: nat, i: nat)
    requires n > 0 && i < n
    ensures var m := Cycle(n);
            var c := k % m;
            && c < n && Value(k, c, m) <= Value(k, i, m)
            && (i < c ==> Value(k, c, m) < Value(k, i, m))
            && (m > 1 ==> Value(k, c, m) < SENTINEL)
  {
    var m := Cycle(n);
    var c := k % m;
    if k < m {
      RemainderOf(0, k, m);
      if i < k {
        RemainderOf(0, k - 1 - i, m);
      }
    } else {
      Ages(k, c, m);
      if i < m {
        Ages(k, i, m);
      }
    }
  }

  /** From the expected values the scan picks the entry whose turn it is. */
  lemma ExpectedPick(n: nat, k: nat)
    requires n > 0
    ensures MinIndex(Expected(n, k)) == k % Cycle(n)
  {
    hide Value;
    var vals, m := Expected(n, k), Cycle(n);
    var c := k % m;
    if n > 1 {
      forall i | 0 <= i < n
        ensures vals[c] <= vals[i] && (i < c ==> vals[c] < vals[i])
      {
        ExpectedOrder(n, k, i);
      }
      ExpectedOrder(n, k, 0);
      MinIndexIsFirstLeast(vals, c);
    }
  }

  lemma ExpectedStep(n: nat, k: nat, i: nat)
    requires n > 0 && i < n
    ensures Value(k + 1, i, Cycle(n)) == if i == k % Cycle(n) then 100.0 else Tick(Value(k, i, Cycle(n)))
  {
    var m := Cycle(n);
    if i < m && i < k {
      Ages(k, i, m);
    } else if i < m {
      if i == k {
        RemainderOf(0, k, m);
        RemainderOf(0, 0, m);
      } else {
        RemainderOf(0, k, m);
      }
    }
  }

  lemma {:induction false} DefaultValues(n: nat, k: nat)
    requires n > 0
    ensures After(Fresh(n), Hundreds(n), k) == Expected(n, k)
  {
    if k == 0 {
      assert Fresh(n) == Expected(n, 0);
    } else {
      DefaultValues(n, k - 1);
      ExpectedPick(n, k - 1);
      hide Value, MinIndex;
      var next := Choose(Expected(n, k - 1), Hundreds(n));
      forall i | 0 <= i < n
        ensures next[i] == Expected(n, k)[i]
      {
        ExpectedStep(n, k - 1, i);
      }
      assert next == Expected(n, k);
    }
  }

  /** For every table of n default-weight tunnels and every k, the k-th choice after a reset is
      entry k mod min(n, 101). */
  lemma DefaultChoice(n: nat, k: nat)
    requires n > 0
    ensures Pick(Fresh(n), Hundreds(n), k) == k % Cycle(n)
  {
    DefaultValues(n, k);
    ExpectedPick(n, k);
  }

  /** Plain rotation over all entries exactly up to 101 tunnels. */
  lemma RotatesIffFew(n: nat)
    requires n > 0
    ensures n <= ROTATION <==> forall k: nat :: Pick(Fresh(n), Hundreds(n), k) == k % n
  {
    if n <= ROTATION {
      forall k: nat
        ensures Pick(Fresh(n), Hundreds(n), k) == k % n
      {
        DefaultChoice(n, k);
      }
    } else {
      DefaultChoice(n, ROTATION);
      RemainderOf(0, ROTATION, n);
    }
  }

  /** With more, an entry is ever chosen exactly if it is among the first 101. */
  lemma StarvesIffBeyond(n: nat, i: nat)
    requires i < n
    ensures i < ROTATION <==> exists k: nat :: Pick(Fresh(n), Hundreds(n), k) == i
  {
    if i < ROTATION {
      DefaultChoice(n, i);
      RemainderOf(0, i, Cycle(n));
    } else {
      forall k: nat
        ensures Pick(Fresh(n), Hundreds(n), k) != i
      {
        DefaultChoice(n, k);
      }
    }
  }
}
