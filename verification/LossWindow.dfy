/** The 64-packet loss window of src/mlvpn.c: what its bits mean, exactly where the C shifts are
    defined, and what holds of every run all the same. */
module LossWindow {
  import opened Words
  import S = Session

  /** Bit i of seq_vect stands for sequence number seq_last - i. */
  type Bits = b: seq<bool> | |b| == 64 witness All(64)

  function All(n: nat): (b: seq<bool>)
    ensures |b| == n && forall i :: 0 <= i < n ==> b[i]
  {
    if n == 0 then [] else All(n - 1) + [true]
  }

  datatype Window = Window(last: U64, bits: Bits)

  const ONES: Bits := All(64)
  const NONE: Bits := ShiftLeft(ONES, 64)
  const FRESH := Window(0, ONES)

  function ShiftLeft(b: Bits, d: nat): (c: Bits) {
    seq(64, i requires 0 <= i < 64 => if i < d then false else b[i - d])
  }

  function Or(a: Bits, b: Bits): (c: Bits) {
    seq(64, i requires 0 <= i < 64 => a[i] || b[i])
  }

  function Only(k: nat): (c: Bits) { seq(64, i => i == k) }

  /** A 64-bit shift is defined below 64 and `1 << k` on an int below 31; `junk` is whatever the
      machine yields beyond that. */
  function Update(w: Window, seqn: U64, junk: Bits): (v: Window) {
    if seqn > Add64(w.last, 64) then Window(seqn, ONES)
    else if seqn > w.last then
      var shifted: Bits := if seqn - w.last < 64 then ShiftLeft(w.bits, seqn - w.last) else junk;
      Window(seqn, shifted[0 := true])
    else if seqn >= Sub64(w.last, 63) then
      w.(bits := Or(w.bits, if w.last - seqn < 31 then Only(w.last - seqn) else junk))
    else w
  }

  function Zeros(b: seq<bool>): (n: nat)
    ensures n <= |b|
  {
    if b == [] then 0 else (if b[|b| - 1] then 0 else 1) + Zeros(b[..|b| - 1])
  }

  function Ratio(w: Window): (percent: nat) { Zeros(w.bits) * 100 / 64 }

  // ---- What the bits mean ----

  /** The window, the number that last reset it, and the numbers received since. */
  datatype Track = Track(w: Window, origin: int, seen: set<int>)

  const BEGIN := Track(FRESH, 0, {0})

  predicate Resets(w: Window, seqn: U64) { seqn > Add64(w.last, 64) }

  function Receive(t: Track, seqn: U64, junk: Bits): (u: Track) {
    var w := Update(t.w, seqn, junk);
    if Resets(t.w, seqn) then Track(w, seqn, {seqn}) else Track(w, t.origin, t.seen + {seqn})
  }

  /** Bit i is set exactly if seq_last - i was received or predates the last reset. */
  ghost predicate Exact(t: Track) {
    && t.origin <= t.w.last && t.w.last in t.seen && (forall n :: n in t.seen ==> n <= t.w.last)
    && forall i :: 0 <= i < 64 ==> (t.w.bits[i] <==> t.w.last - i in t.seen || t.w.last - i < t.origin)
  }

  ghost predicate Full(b: Bits) { forall i :: 0 <= i < 64 ==> b[i] }

  /** The steps the window records faithfully, told from the window and the number alone: a reset, a
      jump of 1 to 63, a repeat of the newest, something too old to be in the window, a packet at
      most 30 late once 63 numbers have passed, or one that changes nothing because its bit is set
      before that point, or because no bit is clear. */
  ghost predicate InDomain(w: Window, seqn: U64) {
    if Resets(w, seqn) then true
    else if seqn > w.last then seqn - w.last <= 63
    else
      var late := w.last - seqn;
      || late == 0 || late > 63 || Full(w.bits)
      || (if w.last >= 63 then late <= 30 else w.bits[late])
  }

  lemma AdvanceExact(t: Track, seqn: U64, junk: Bits)
    requires Exact(t) && !Resets(t.w, seqn) && 0 < seqn - t.w.last <= 63
    ensures Exact(Receive(t, seqn, junk))
  {
    hide All;
    var d, u := seqn - t.w.last, Receive(t, seqn, junk);
    var bits := ShiftLeft(t.w.bits, d)[0 := true];
    assert u == Track(Window(seqn, bits), t.origin, t.seen + {seqn as int});
    forall i | 0 <= i < 64
      ensures bits[i] <==> seqn - i in u.seen || seqn - i < u.origin
    {
      var n: int := seqn - i;
      if i >= d {
        var k := i - d;
        assert bits[i] == t.w.bits[k] || i == 0;
        assert n == t.w.last - k;
      } else if i > 0 {
        assert !bits[i] && n > t.w.last;
      }
    }
  }

  lemma LateExact(t: Track, seqn: U64, junk: Bits)
    requires Exact(t) && !Resets(t.w, seqn) && seqn <= t.w.last && InDomain(t.w, seqn)
    ensures Exact(Receive(t, seqn, junk))
  {
    var late, u := t.w.last - seqn, Receive(t, seqn, junk);
    forall i | 0 <= i < 64
      ensures u.w.bits[i] <==> u.w.last - i in u.seen || u.w.last - i < u.origin
    {
      assert t.w.last - i == seqn <==> i == late;
    }
  }

  lemma InDomainExact(t: Track, seqn: U64, junk: Bits)
    requires Exact(t) && InDomain(t.w, seqn)
    ensures Exact(Receive(t, seqn, junk))
  {
    if Resets(t.w, seqn) {
    } else if seqn > t.w.last {
      AdvanceExact(t, seqn, junk);
    } else {
      LateExact(t, seqn, junk);
    }
  }

  lemma JumpBreaks(t: Track, seqn: U64)
    requires Exact(t) && !Resets(t.w, seqn) && seqn - t.w.last > 63
    ensures !Exact(Receive(t, seqn, ONES))
  {
    var u := Receive(t, seqn, ONES);
    assert u.w.bits[1] && u.w.last - 1 !in u.seen;
  }

  lemma LateBreaks(t: Track, seqn: U64, i: nat)
    requires Exact(t) && !Resets(t.w, seqn) && t.w.last >= 63 && 31 <= t.w.last - seqn <= 63
    requires i < 64 && !t.w.bits[i]
    ensures !Exact(Receive(t, seqn, if i == t.w.last - seqn then NONE else ONES))
  {
    var late := t.w.last - seqn;
    var u := Receive(t, seqn, if i == late then NONE else ONES);
    if i == late {
      assert !u.w.bits[late] && u.w.last - late in u.seen;
    } else {
      assert u.w.bits[i] && u.w.last - i !in u.seen;
    }
  }

  lemma EarlyBreaks(t: Track, seqn: U64, junk: Bits)
    requires Exact(t) && !Resets(t.w, seqn) && seqn <= t.w.last < 63 && !t.w.bits[t.w.last - seqn]
    ensures !Exact(Receive(t, seqn, junk))
  {
    var late, u := t.w.last - seqn, Receive(t, seqn, junk);
    assert !u.w.bits[late] && u.w.last - late in u.seen;
  }

  /** Outside the domain some outcome of the C shift, or the underflow of seq_last - 63, breaks it. */
  lemma OutsideInexact(t: Track, seqn: U64)
    requires Exact(t) && !InDomain(t.w, seqn)
    ensures exists junk: Bits :: !Exact(Receive(t, seqn, junk))
  {
    hide Receive, Exact, All;
    if seqn > t.w.last {
      JumpBreaks(t, seqn);
    } else if t.w.last < 63 {
      EarlyBreaks(t, seqn, ONES);
    } else {
      var i :| 0 <= i < 64 && !t.w.bits[i];
      LateBreaks(t, seqn, i);
    }
  }

  /** From any exact window, the next packet leaves it exact whatever undefined shifts yield, if and
      only if the packet is in the domain. */
  lemma ExactIffInDomain(t: Track, seqn: U64)
    requires Exact(t)
    ensures InDomain(t.w, seqn) <==> forall junk: Bits :: Exact(Receive(t, seqn, junk))
  {
    if InDomain(t.w, seqn) {
      forall junk: Bits
        ensures Exact(Receive(t, seqn, junk))
      {
        InDomainExact(t, seqn, junk);
      }
    } else {
      OutsideInexact(t, seqn);
    }
  }

  // ---- Whole runs ----

  datatype Arrival = Arrival(seqn: U64, junk: Bits)

  function Run(t: Track, es: seq<Arrival>): (u: Track)
    decreases |es|
  {
    if es == [] then t else Run(Receive(t, es[0].seqn, es[0].junk), es[1..])
  }

  ghost predicate DomainRun(t: Track, es: seq<Arrival>)
    decreases |es|
  {
    es != [] ==> InDomain(t.w, es[0].seqn) && DomainRun(Receive(t, es[0].seqn, es[0].junk), es[1..])
  }

  lemma {:induction false} RunExact(t: Track, es: seq<Arrival>)
    requires Exact(t) && DomainRun(t, es)
    ensures Exact(Run(t, es))
    decreases |es|
  {
    hide Exact, InDomain, Receive;
    if es != [] {
      InDomainExact(t, es[0].seqn, es[0].junk);
      RunExact(Receive(t, es[0].seqn, es[0].junk), es[1..]);
    }
  }

  /** From a new tunnel, every run inside the domain keeps the window exact. */
  lemma WindowExact(es: seq<Arrival>)
    requires DomainRun(BEGIN, es)
    ensures Exact(Run(BEGIN, es))
  {
    RunExact(BEGIN, es);
  }

  /** On a new tunnel 2 and then 1 are received, and the bit of 1 stays clear: seq_last - 63 wraps, so
      the late packet is taken for one too old. */
  lemma SecondPacketLate(a: Bits, b: Bits)
    ensures var t := Run(BEGIN, [Arrival(2, a), Arrival(1, b)]);
            t.w.last == 2 && 1 in t.seen && !t.w.bits[1] && !Exact(t)
    ensures !InDomain(Run(BEGIN, [Arrival(2, a)]).w, 1)
  {
    var x, y := Arrival(2, a), Arrival(1, b);
    assert [x, y][1..] == [y] && [y][1..] == [] && [x][1..] == [];
    var t := Receive(BEGIN, 2, a);
    var u := Receive(t, 1, b);
    assert Run(BEGIN, [x]) == Run(t, []) == t;
    assert Run(BEGIN, [x, y]) == Run(t, [y]) == Run(u, []) == u;
    assert !t.w.bits[1];
    assert u.w.last - 1 in u.seen;
  }

  lemma {:induction false} RunKeepsNewest(t: Track, es: seq<Arrival>)
    requires t.w.bits[0]
    ensures Run(t, es).w.bits[0]
    decreases |es|
  {
    if es != [] {
      RunKeepsNewest(Receive(t, es[0].seqn, es[0].junk), es[1..]);
    }
  }

  lemma {:induction false} SomeOne(b: seq<bool>)
    requires b != [] && b[0]
    ensures Zeros(b) <= |b| - 1
  {
    if |b| > 1 {
      SomeOne(b[..|b| - 1]);
    }
  }

  /** In every run, undefined shifts included, bit 0 is set, so the ratio is at most 98 percent and a
      tolerance of 99 or 100 never marks the link lossy. */
  lemma NeverAllLost(es: seq<Arrival>, s: S.Session, t: S.Tunnel)
    ensures Run(BEGIN, es).w.bits[0] && Ratio(Run(BEGIN, es).w) <= 98
    ensures t.lossTolerance >= 99 && t.status.AuthOk? ==> S.CheckLossy(s, t, Ratio(Run(BEGIN, es).w)) == Words.Some(s)
  {
    hide Run;
    RunKeepsNewest(BEGIN, es);
    SomeOne(Run(BEGIN, es).w.bits);
  }

  /** How many of the numbers last, last - 1, ... last - (k - 1) were sent since the reset and did not
      arrive. */
  ghost function Missed(t: Track, k: nat): (s: set<int>) {
    set n: int | t.w.last - k < n <= t.w.last && n >= t.origin && n !in t.seen
  }

  lemma {:induction false} ZerosAreMissed(t: Track, k: nat)
    requires Exact(t) && k <= 64
    ensures Zeros(t.w.bits[..k]) == |Missed(t, k)|
  {
    if k == 0 {
      assert Missed(t, 0) == {};
    } else {
      ZerosAreMissed(t, k - 1);
      var n: int := t.w.last - (k - 1);
      assert t.w.bits[..k][..k - 1] == t.w.bits[..k - 1];
      assert Missed(t, k) == Missed(t, k - 1) + (if t.w.bits[k - 1] then {} else {n});
      assert n !in Missed(t, k - 1);
    }
  }

  /** The loss ratio of an exact window is the percentage, rounded down, of the last 64 numbers that
      were sent since the reset and did not arrive. */
  lemma RatioIs(t: Track)
    requires Exact(t)
    ensures Ratio(t.w) == |Missed(t, 64)| * 100 / 64
  {
    ZerosAreMissed(t, 64);
    assert t.w.bits[..64] == t.w.bits;
  }

  // ---- As the source keeps it ----

  class Meter {
    var last: U64
    var bits: Bits

    constructor ()
      ensures State() == FRESH
    {
      last, bits := 0, ONES;
    }

    ghost function State(): (w: Window)
      reads this
    {
      Window(last, bits)
    }

    method Record(seqn: U64, junk: Bits)
      modifies this
      ensures State() == Update(old(State()), seqn, junk)
    {
      if seqn > Add64(last, 64) {
        bits, last := ONES, seqn;
      } else if seqn > last {
        bits := if seqn - last < 64 then ShiftLeft(bits, seqn - last) else junk;
        bits := bits[0 := true];
        last := seqn;
      } else if seqn >= Sub64(last, 63) {
        bits := Or(bits, if last - seqn < 31 then Only(last - seqn) else junk);
      }
    }

    method LossRatio() returns (percent: nat)
      ensures percent == Ratio(State())
    {
      var loss := 0;
      for i := 0 to 64
        invariant loss == Zeros(bits[..i])
      {
        assert bits[..i + 1][..i] == bits[..i];
        if !bits[i] {
          loss := loss + 1;
        }
      }
      assert bits[..64] == bits;
      percent := loss * 100 / 64;
    }
  }
}
