/** Exact recovery: a stream shuffled by less than a window reaches the tun device in its own order. */
module ReceiveExact {
  import opened Words
  import opened Window
  import opened Reorder
  import opened ReorderLoss
  import H = ReorderHeld
  import P = Pool
  import R = Receive
  import O = ReceiveOrder
  import Runs = ReorderRuns

  /** A sender's stream from its first packet on, the positions in the order of their arrival, and how
      far the arrivals are shuffled. */
  datatype Trip = Trip(size: nat, stream: seq<Frame>, order: seq<nat>, skew: nat)
  {
    /** Frame i is at position i and carries its low 64 bits; every position arrives once. */
    ghost predicate Sent() {
      && order != []
      && (forall i :: 0 <= i < |stream| ==> stream[i].index == i && stream[i].seqn == i % TWO64)
      && (forall k :: 0 <= k < |order| ==> order[k] < |stream|)
      && (forall p :: 0 <= p < |stream| ==> p in order)
      && forall i, k :: 0 <= i < k < |order| ==> order[i] != order[k]
    }

    /** From the first arrival's position on, no packet comes `skew` or more ahead of a missing one. */
    ghost predicate Timely()
      requires order != []
    {
      forall k, p :: 0 <= k < |order| && order[0] <= p && p + skew <= order[k] ==> p in order[..k]
    }

    ghost predicate Fair() {
      && Sent() && Timely() && 0 < size <= MAX_SIZE && PowerOfTwo(size)
      && 0 < skew <= size && order[0] + skew <= R.POOL_SIZE && (order[0] > 0 ==> |stream| + 2 * size <= TWO64)
    }

    /** The frames in the order of their arrival. */
    ghost function Arriving(): (fs: seq<Frame>)
      requires Sent()
      ensures |fs| == |order| && forall k :: 0 <= k < |order| ==> fs[k] == stream[order[k]]
    {
      seq(|order|, k requires 0 <= k < |order| => stream[order[k]])
    }
  }

  // ---- Positions ----

  /** Strictly increasing positions from a on, as many as there are below the bound, are all of them. */
  lemma AllInBetween(fs: seq<Frame>, a: nat, bound: nat, i: nat)
    requires O.Ascending(fs) && fs != [] && fs[0].index == a && |fs| + a == bound && i < |fs|
    requires forall k :: 0 <= k < |fs| ==> fs[k].index < bound
    ensures fs[i].index == a + i
  {
    AtLeast(fs, a, i);
    AtMost(fs, bound, |fs| - 1 - i);
  }

  lemma {:induction false} AtLeast(fs: seq<Frame>, a: nat, i: nat)
    requires O.Ascending(fs) && fs != [] && fs[0].index == a && i < |fs|
    ensures fs[i].index >= a + i
  {
    if i > 0 {
      AtLeast(fs, a, i - 1);
    }
  }

  lemma {:induction false} AtMost(fs: seq<Frame>, bound: nat, i: nat)
    requires O.Ascending(fs) && i < |fs| && forall k :: 0 <= k < |fs| ==> fs[k].index < bound
    ensures fs[|fs| - 1 - i].index < bound - i
  {
    if i > 0 {
      AtMost(fs, bound, i - 1);
    }
  }

  lemma {:induction false} PacketAt(s: Slots, p: Packet) returns (i: nat)
    requires p in Packets(s)
    ensures i < |s| && s[i] == Some(p)
  {
    if s[0] == Some(p) {
      i := 0;
    } else {
      var k := PacketAt(s[1..], p);
      i := k + 1;
    }
  }

  lemma {:induction false} PacketIn(s: Slots, i: nat)
    requires i < |s| && s[i].Some?
    ensures s[i].value in Packets(s)
  {
    if i > 0 {
      PacketIn(s[1..], i - 1);
    }
  }

  /** Few packets fit below a position if all are different. */
  lemma {:induction false} Pigeonhole(xs: seq<nat>, n: nat)
    requires forall i :: 0 <= i < |xs| ==> xs[i] < n
    requires forall i, k :: 0 <= i < k < |xs| ==> xs[i] != xs[k]
    ensures |xs| <= n
    decreases n
  {
    if xs != [] {
      assert xs[0] < n;
      if i :| 0 <= i < |xs| && xs[i] == n - 1 {
        Pigeonhole(xs[..i] + xs[i + 1..], n - 1);
      } else {
        Pigeonhole(xs, n - 1);
      }
    }
  }

  // ---- The state between two arrivals ----

  /** What the earlier results keep. */
  ghost predicate Steady(g: O.Log, size: nat) {
    && g.Shaped() && R.Sound(g.h, R.POOL_SIZE) && O.Together(g) && PowerOfTwo(size)
    && g.h.now.rings.size == size && g.h.now.rings.initialized
  }

  /** All from the first arrival's position up to the window was released and nothing else. */
  ghost predicate Gapless(g: O.Log, first: nat) {
    |g.released| + first == g.trace.base && g.released != [] && g.released[0].index == first
  }

  /** Late packets were injected at once; of each a copy stays in use. */
  ghost predicate Lately(g: O.Log, first: nat, late: seq<Packet>) {
    && H.InSpan(g.h.now.rings) && multiset(g.h.now.injected) == multiset(g.released) + g.h.strays
    && (first == 0 ==> g.h.now.injected == g.released)
    && g.h.strays == multiset(P.Frames(late))
    && multiset(g.h.now.pool.used) == H.Inside(g.h.now.rings) + multiset(late)
    && (forall i :: 0 <= i < |late| ==> late[i].frame.index < first)
    && forall i, k :: 0 <= i < k < |late| ==> late[i].frame.index != late[k].frame.index
  }

  lemma SteadyBasics(g: O.Log, size: nat)
    requires Steady(g, size)
    ensures R.Inv(g.h.now, R.POOL_SIZE) && Drained(g.h.now.rings) && Runs.InOrder(g.trace)
    ensures H.InSpan(g.h.now.rings) && g.trace.rings == g.h.now.rings
  {
  }

  lemma ReleasedAre(g: O.Log, size: nat, first: nat, i: nat)
    requires Steady(g, size) && Gapless(g, first) && i < |g.released|
    ensures g.released[i].index == first + i
  {
    hide R.Sound, PowerOfTwo, Runs.InOrder, Packets;
    SteadyBasics(g, size);
    O.DrainedRises(g.trace);
    ReleasedBelow(g.trace);
    AllInBetween(g.released, first, g.trace.base, i);
  }

  lemma ReleasedBelow(t: Runs.Trace)
    requires Runs.InOrder(t)
    ensures forall i :: 0 <= i < |P.Frames(Packets(t.out))| ==> P.Frames(Packets(t.out))[i].index < t.base
  {
    hide PowerOfTwo, SlotSeq, ReadySeq, Packets;
    var all := t.out + View(t.rings).ready;
    assert forall i :: 0 <= i < |t.out| ==> t.out[i] == all[i];
    O.PacketsOfSolid(t.out);
  }

  /** What is held is in the window's slots, each packet at its own position. */
  lemma HeldInSlots(g: O.Log, size: nat)
    requires Steady(g, size)
    ensures H.InSpan(g.h.now.rings) && H.Inside(g.h.now.rings) == multiset(Packets(SlotSeq(g.h.now.rings)))
    ensures SlotSeq(g.h.now.rings)[0].None? && Placed(SlotSeq(g.h.now.rings), g.trace.base)
  {
    hide R.Sound, R.Inv, PowerOfTwo, SlotSeq, ReadySeq, Packets, H.Inside, H.InSpan, O.Together;
    SteadyBasics(g, size);
    H.InsideIsHeld(g.h.now.rings);
    NoPacketsInNone();
    assert Held(View(g.h.now.rings)) == Packets(SlotSeq(g.h.now.rings));
  }

  lemma HeldBeyond(g: O.Log, size: nat, p: Packet)
    requires Steady(g, size) && H.InSpan(g.h.now.rings) && p in H.Inside(g.h.now.rings)
    ensures g.trace.base < p.frame.index
  {
    hide R.Sound, R.Inv, O.Together, SlotSeq, Packets, H.Inside, H.InSpan;
    HeldInSlots(g, size);
    var i := PacketAt(SlotSeq(g.h.now.rings), p);
  }

  lemma SlotHeld(g: O.Log, size: nat, i: nat)
    requires Steady(g, size) && i < size && SlotSeq(g.h.now.rings)[i].Some?
    ensures H.InSpan(g.h.now.rings)
    ensures var p := SlotSeq(g.h.now.rings)[i].value; p in H.Inside(g.h.now.rings) && p.frame.index == g.trace.base + i
  {
    hide R.Sound, R.Inv, O.Together, SlotSeq, Packets, H.Inside, H.InSpan;
    HeldInSlots(g, size);
    PacketIn(SlotSeq(g.h.now.rings), i);
  }

  /** After the first k arrivals. */
  ghost predicate Going(t: Trip, g: O.Log, k: nat, late: seq<Packet>) {
    && t.Fair() && 0 < k <= |t.order| && Steady(g, t.size)
    && Gapless(g, t.order[0]) && Lately(g, t.order[0], late)
    && g.h.arrived == multiset(t.Arriving()[..k])
  }

  lemma SoundAccounts(h: R.History, entries: nat)
    requires R.Sound(h, entries)
    ensures multiset(h.now.injected) + multiset(P.Frames(h.now.pool.used)) == h.arrived + h.strays
  {
  }

  /** A frame that arrived has arrived at some time, and its position is among those. */
  lemma ArrivedAt(t: Trip, k: nat, f: Frame)
    requires t.Sent() && k <= |t.order| && f in multiset(t.Arriving()[..k])
    ensures f.index in t.order[..k] && f.index < |t.stream| && f == t.stream[f.index]
  {
    assert f in t.Arriving()[..k];
    var i :| 0 <= i < k && t.Arriving()[..k][i] == f;
    assert f == t.stream[t.order[i]] && t.order[..k][i] == f.index;
  }

  lemma FrameUsed(ps: seq<Packet>, f: Frame) returns (p: Packet)
    requires f in P.Frames(ps)
    ensures p in ps && p.frame == f
  {
    var i :| 0 <= i < |ps| && P.Frames(ps)[i] == f;
    p := ps[i];
  }

  /** What was released or is held from the first position on has arrived. */
  lemma KnownArrived(t: Trip, g: O.Log, k: nat, late: seq<Packet>, f: Frame)
    requires Going(t, g, k, late) && f.index >= t.order[0]
    requires f in multiset(g.h.now.injected) + multiset(P.Frames(g.h.now.pool.used))
    ensures f.index in t.order[..k] && f.index < |t.stream| && f == t.stream[f.index]
  {
    hide R.Sound, R.Inv, O.Together, PowerOfTwo, H.Inside, H.InSpan, P.Frames;
    SoundAccounts(g.h, R.POOL_SIZE);
    if f in g.h.strays {
      var p := FrameUsed(late, f);
      assert false;
    }
    assert f in g.h.arrived;
    ArrivedAt(t, k, f);
  }

  lemma ReleasedArrived(t: Trip, g: O.Log, k: nat, late: seq<Packet>, i: nat)
    requires Going(t, g, k, late) && i < |g.released|
    ensures t.order[0] + i in t.order[..k] && t.order[0] + i < |t.stream|
    ensures g.released[i] == t.stream[t.order[0] + i]
  {
    hide R.Sound, R.Inv, O.Together, PowerOfTwo, H.Inside, H.InSpan, P.Frames;
    ReleasedAre(g, t.size, t.order[0], i);
    assert g.released[i] in multiset(g.released);
    KnownArrived(t, g, k, late, g.released[i]);
  }

  lemma HeldArrived(t: Trip, g: O.Log, k: nat, late: seq<Packet>, p: Packet)
    requires Going(t, g, k, late) && p in H.Inside(g.h.now.rings) && p.frame.index >= t.order[0]
    ensures p.frame.index in t.order[..k] && p.frame.index < |t.stream|
  {
    hide R.Sound, R.Inv, O.Together, PowerOfTwo, H.Inside, H.InSpan, P.Frames;
    assert p in multiset(g.h.now.pool.used);
    P.EntryOf(g.h.now.pool.used, p);
    KnownArrived(t, g, k, late, p.frame);
  }

  /** No frame injected or in use is at the window's first position. */
  lemma NotBase(t: Trip, g: O.Log, k: nat, late: seq<Packet>, f: Frame)
    requires Going(t, g, k, late) && t.order[0] <= g.trace.base
    requires f in multiset(g.h.now.injected) + multiset(P.Frames(g.h.now.pool.used))
    ensures f.index != g.trace.base
  {
    hide R.Sound, R.Inv, O.Together, PowerOfTwo, H.Inside, P.Frames;
    if f in P.Frames(g.h.now.pool.used) {
      var p := FrameUsed(g.h.now.pool.used, f);
      assert p in multiset(g.h.now.pool.used);
      if p in H.Inside(g.h.now.rings) {
        HeldBeyond(g, t.size, p);
      } else {
        assert p in multiset(late);
      }
    } else {
      assert f in multiset(g.h.now.injected);
      if f in g.released {
        var i :| 0 <= i < |g.released| && g.released[i] == f;
        ReleasedAre(g, t.size, t.order[0], i);
      } else {
        assert f in g.h.strays;
        var p := FrameUsed(late, f);
      }
    }
  }

  /** The window's first position has not arrived. */
  lemma FirstMissing(t: Trip, g: O.Log, k: nat, late: seq<Packet>)
    requires Going(t, g, k, late)
    ensures g.trace.base !in t.order[..k] && t.order[0] < g.trace.base <= |t.stream|
  {
    hide R.Sound, R.Inv, O.Together, PowerOfTwo, H.Inside, H.InSpan, P.Frames;
    var base := g.trace.base;
    ReleasedArrived(t, g, k, late, |g.released| - 1);
    if base in t.order[..k] {
      var i :| 0 <= i < k && t.order[i] == base;
      var f := t.stream[base];
      assert t.Arriving()[..k][i] == f;
      SoundAccounts(g.h, R.POOL_SIZE);
      assert f in g.h.arrived;
      NotBase(t, g, k, late, f);
      assert false;
    }
  }

  // ---- Room in the pool ----

  lemma MissingLimits(t: Trip, i: nat, p: nat)
    requires t.Fair() && i < |t.order| && t.order[0] <= p && p !in t.order[..i]
    ensures t.order[i] < p + t.skew
  {
  }

  /** Nothing is held `skew` or more beyond the window's first position, which is missing. */
  lemma HeldNear(t: Trip, g: O.Log, k: nat, late: seq<Packet>, p: Packet)
    requires Going(t, g, k, late) && p in H.Inside(g.h.now.rings)
    ensures g.trace.base < p.frame.index < g.trace.base + t.skew
  {
    hide R.Sound, R.Inv, O.Together, PowerOfTwo, H.Inside, H.InSpan, P.Frames;
    HeldBeyond(g, t.size, p);
    FirstMissing(t, g, k, late);
    HeldArrived(t, g, k, late, p);
    var i :| 0 <= i < k && t.order[i] == p.frame.index;
    assert t.order[..i] == t.order[..k][..i];
    MissingLimits(t, i, g.trace.base);
  }

  lemma FewPackets(slots: Slots, n: nat)
    requires 0 < n <= |slots| && slots[0].None? && forall i :: n <= i < |slots| ==> slots[i].None?
    ensures |Packets(slots)| < n
  {
    assert slots == slots[..n] + slots[n..];
    PacketsAppend(slots[..n], slots[n..]);
    NoPackets(slots[n..]);
    assert |Packets(slots[..n])| == |Packets(slots[..n][1..])| <= n - 1;
  }

  lemma FewHeld(t: Trip, g: O.Log, k: nat, late: seq<Packet>)
    requires Going(t, g, k, late)
    ensures |H.Inside(g.h.now.rings)| < t.skew
  {
    hide R.Sound, R.Inv, O.Together, PowerOfTwo, SlotSeq, H.Inside, H.InSpan, Packets, Lately;
    HeldInSlots(g, t.size);
    var slots := SlotSeq(g.h.now.rings);
    forall i | t.skew <= i < |slots|
      ensures slots[i].None?
    {
      if slots[i].Some? {
        SlotHeld(g, t.size, i);
        HeldNear(t, g, k, late, slots[i].value);
        assert false;
      }
    }
    FewPackets(slots, t.skew);
  }

  /** There is always a free entry: fewer than `skew` packets are held, and the late ones are few. */
  lemma HasRoom(t: Trip, g: O.Log, k: nat, late: seq<Packet>)
    requires Going(t, g, k, late)
    ensures g.h.now.pool.free != []
  {
    hide PowerOfTwo, Packets, H.Inside, P.Valid, P.Subsequence;
    FewHeld(t, g, k, late);
    SteadyBasics(g, t.size);
    R.InvBasics(g.h.now, R.POOL_SIZE);
    P.ValidDistinct(g.h.now.pool, R.POOL_SIZE);
    Pigeonhole(seq(|late|, i requires 0 <= i < |late| => late[i].frame.index), t.order[0]);
    assert |multiset(g.h.now.pool.used)| == |H.Inside(g.h.now.rings)| + |late|;
  }

  // ---- One arrival ----

  /** The next packet is late, or it falls into the window. */
  lemma NextPosition(t: Trip, g: O.Log, k: nat, late: seq<Packet>)
    requires Going(t, g, k, late) && k < |t.order|
    ensures var q := t.order[k];
            q !in t.order[..k] && (q < t.order[0] || g.trace.base <= q < g.trace.base + t.size)
  {
    hide R.Sound, R.Inv, O.Together, PowerOfTwo, H.Inside, H.InSpan, P.Frames, Steady, Lately;
    var q, base := t.order[k], g.trace.base;
    FirstMissing(t, g, k, late);
    if t.order[0] <= q < base {
      ReleasedArrived(t, g, k, late, q - t.order[0]);
    }
    if base + t.skew <= q {
      assert false;
    }
  }

  ghost function EventOf(t: Trip, k: nat): (e: R.Event)
    requires t.Sent() && k < |t.order|
  {
    R.Data(t.stream[t.order[k]], true)
  }

  /** A packet of the window: its slot is free, and it is stored there. */
  lemma FallsIntoSlot(t: Trip, g: O.Log, k: nat, late: seq<Packet>, p: Packet)
    requires Going(t, g, k, late) && k < |t.order| && p.frame == t.stream[t.order[k]]
    requires g.trace.base <= t.order[k] < g.trace.base + t.size && t.order[k] !in t.order[..k]
    ensures Insert(g.h.now.rings, p) == (Place(g.h.now.rings, p), Stored)
    ensures Sub64(p.frame.seqn, g.h.now.rings.minSeqn) == t.order[k] - g.trace.base
    ensures Displaced(g.h.now.rings, p) == None && Runs.Near(g.trace, Runs.Arrive(p))
  {
    hide R.Sound, R.Inv, PowerOfTwo, H.Inside, H.InSpan, P.Frames, SlotSeq, ReadySeq, Packets, Lately, Flow, Place;
    var r, d := g.h.now.rings, t.order[k] - g.trace.base;
    SteadyBasics(g, t.size);
    AdvanceDistance(g.trace.base, d);
    if SlotSeq(r)[d].Some? {
      SlotHeld(g, t.size, d);
      HeldArrived(t, g, k, late, SlotSeq(r)[d].value);
      assert false;
    }
  }

  lemma Backwards(m: U64, k: nat)
    requires k < TWO64
    ensures Sub64(Add64(m, k), m) == k
  {
    AdvanceDistance(m, k);
  }

  /** With nothing ready, draining moves the window by as much as comes out. */
  lemma DrainMoves(r: Rings, max: nat)
    requires Good(r) && ReadySeq(r) == [] && max > 0
    ensures var (s, out) := Reorder.Drain(r, max); Sub64(s.minSeqn, r.minSeqn) == |out|
  {
    hide PowerOfTwo, SlotSeq, ReadySeq, DrainSlots, Reorder.Drain, Add64, Sub64;
    DrainViews(r, max);
    DrainShifts(View(r), max);
    assert [] + DrainSlots(SlotSeq(r), max).1 == DrainSlots(SlotSeq(r), max).1;
    Backwards(r.minSeqn, Popped(View(r), max));
  }

  /** The buffer's side: what is held, and where the window goes. */
  lemma StoreMoves(t: Trip, g: O.Log, k: nat, late: seq<Packet>, p: Packet)
    requires Going(t, g, k, late) && k < |t.order| && p.frame == t.stream[t.order[k]]
    requires g.trace.base <= t.order[k] < g.trace.base + t.size && t.order[k] !in t.order[..k]
    ensures var r := g.h.now.rings;
            var (s, out) := Reorder.Drain(Insert(r, p).0, R.DRAIN_MAX);
            && H.InSpan(s) && s.size == t.size && s.initialized
            && multiset(Packets(out)) + H.Inside(s) == H.Inside(r) + multiset{p} && |Packets(out)| == |out|
            && O.Both(g.trace, p).base == g.trace.base + |out|
  {
    hide R.Sound, R.Inv, PowerOfTwo, H.Inside, P.Frames, SlotSeq, ReadySeq, Packets, Lately, Flow;
    hide Insert, Reorder.Drain, Runs.Near, Place, Aligned, Held, H.Span, Solid;
    var r := g.h.now.rings;
    SteadyBasics(g, t.size);
    FallsIntoSlot(t, g, k, late, p);
    var s := Insert(r, p).0;
    InsertTakes(r, p);
    H.InsideIsHeld(r);
    H.InsideIsHeld(s);
    H.InsertKeeps(r, p);
    H.DrainSplits(s, R.DRAIN_MAX);
    PlaceReady(r, p);
    DrainMoves(s, R.DRAIN_MAX);
  }

  lemma PlaceReady(r: Rings, p: Packet)
    requires Good(r) && Sub64(p.frame.seqn, r.minSeqn) < r.size
    ensures ReadySeq(Place(r, p)) == ReadySeq(r) && Place(r, p).minSeqn == r.minSeqn
  {
  }

  lemma OneMore(t: Trip, k: nat)
    requires t.Sent() && k < |t.order|
    ensures multiset(t.Arriving()[..k + 1]) == multiset(t.Arriving()[..k]) + multiset{t.stream[t.order[k]]}
  {
    assert t.Arriving()[..k + 1] == t.Arriving()[..k] + [t.stream[t.order[k]]];
  }

  /** The pool's side of a packet of the window: what is in use stays what is held and the late ones. */
  lemma UsedMoves(used: multiset<Packet>, inside: multiset<Packet>, late: multiset<Packet>, p: Packet,
                  out: multiset<Packet>, left: multiset<Packet>)
    requires used == inside + late && out + left == inside + multiset{p}
    ensures used + multiset{p} - out == left + late
  {
    assert used + multiset{p} == (inside + multiset{p}) + late == (out + left) + late == out + (left + late);
  }

  lemma StoredLately(g: O.Log, u: O.Log, first: nat, late: seq<Packet>, p: Packet, out: seq<Packet>)
    requires Lately(g, first, late) && H.InSpan(u.h.now.rings) && u.h.strays == g.h.strays
    requires u.h.now.injected == g.h.now.injected + P.Frames(out) && u.released == g.released + P.Frames(out)
    requires multiset(out) + H.Inside(u.h.now.rings) == H.Inside(g.h.now.rings) + multiset{p}
    requires multiset(u.h.now.pool.used) == multiset(g.h.now.pool.used) + multiset{p} - multiset(out)
    ensures Lately(u, first, late)
  {
    hide H.Inside, H.InSpan, P.Frames;
    var inside, left := H.Inside(g.h.now.rings), H.Inside(u.h.now.rings);
    UsedMoves(multiset(g.h.now.pool.used), inside, multiset(late), p, multiset(out), left);
  }

  lemma OnTimeGoes(t: Trip, g: O.Log, k: nat, late: seq<Packet>)
    requires Going(t, g, k, late) && k < |t.order|
    requires g.trace.base <= t.order[k] < g.trace.base + t.size && t.order[k] !in t.order[..k]
    ensures O.Next(g, EventOf(t, k)).Some? && Going(t, O.Next(g, EventOf(t, k)).value, k + 1, late)
  {
    hide R.Inv, PowerOfTwo, H.Inside, H.InSpan, P.Frames, P.Get, P.Subsequence, Packets, Lately, Insert, Reorder.Drain;
    hide Runs.Near, Runs.InOrder, R.RecvData, R.Accounted, O.Both;
    var r, f, e := g.h.now, t.stream[t.order[k]], EventOf(t, k);
    assert r.pool.free != [] by { HasRoom(t, g, k, late); }
    var p := O.PacketFor(r, f);
    assert p.frame == f by { GotFrame(r.pool, f); }
    FallsIntoSlot(t, g, k, late, p);
    StoreMoves(t, g, k, late, p);
    R.StoredKeeps(r, f, R.POOL_SIZE, g.h.order);
    O.StoredTogether(g, e, R.POOL_SIZE);
    R.NextSound(g.h, e, R.POOL_SIZE);
    var u := O.Next(g, e).value;
    var out := Packets(Reorder.Drain(Insert(r.rings, p).0, R.DRAIN_MAX).1);
    assert (r.injected + P.Frames(out))[|r.injected|..] == P.Frames(out);
    assert !R.Stray(r, f, true);
    StoredLately(g, u, t.order[0], late, p, out);
    OneMore(t, k);
  }

  lemma GotFrame(pool: P.Pool, f: Frame)
    requires pool.free != []
    ensures P.Get(pool, f).value.1.frame == f
  {
  }

  /** A late packet: out of range, injected at once, and a copy kept. */
  lemma LateGoes(t: Trip, g: O.Log, k: nat, late: seq<Packet>) returns (later: seq<Packet>)
    requires Going(t, g, k, late) && k < |t.order| && t.order[k] < t.order[0] && t.order[k] !in t.order[..k]
    ensures O.Next(g, EventOf(t, k)).Some? && Going(t, O.Next(g, EventOf(t, k)).value, k + 1, later)
  {
    hide R.Inv, PowerOfTwo, H.Inside, H.InSpan, P.Frames, P.Get, P.Subsequence, Packets, Lately, Insert;
    hide Runs.InOrder, R.RecvData, R.Accounted, O.Both;
    var r, f, e := g.h.now, t.stream[t.order[k]], EventOf(t, k);
    assert r.pool.free != [] by { HasRoom(t, g, k, late); }
    FirstMissing(t, g, k, late);
    assert R.Stray(r, f, true) by { LateStrays(t, g, k, late); }
    R.StrayIsOutOfRange(r, f, R.POOL_SIZE);
    R.StrayKeeps(r, f, R.POOL_SIZE, g.h.order);
    O.DataTogether(g, e, R.POOL_SIZE);
    R.NextSound(g.h, e, R.POOL_SIZE);
    var u := O.Next(g, e).value;
    var p := O.PacketFor(r, f);
    later := late + [p];
    GotIs(r.pool, f);
    LateNew(t, g, k, late, p);
    LateLately(g, u, t.order[0], late, p);
    OneMore(t, k);
  }

  lemma GotIs(pool: P.Pool, f: Frame)
    requires pool.free != []
    ensures var (q, p) := P.Get(pool, f).value; p.frame == f && q.used == pool.used + [p]
  {
  }

  lemma LateStrays(t: Trip, g: O.Log, k: nat, late: seq<Packet>)
    requires Going(t, g, k, late) && k < |t.order| && t.order[k] < t.order[0] && g.h.now.pool.free != []
    requires t.order[0] < g.trace.base <= |t.stream|
    ensures R.Stray(g.h.now, t.stream[t.order[k]], true)
  {
    hide R.Sound, R.Inv, PowerOfTwo, H.Inside, H.InSpan, Lately, Flow, SlotSeq, ReadySeq, Packets;
    SteadyBasics(g, t.size);
    Runs.OffsetIsDistance(g.trace.base, t.order[k], t.size);
  }

  lemma LateArrived(t: Trip, g: O.Log, k: nat, late: seq<Packet>, i: nat)
    requires Going(t, g, k, late) && i < |late|
    ensures late[i].frame.index in t.order[..k]
  {
    hide R.Sound, R.Inv, O.Together, PowerOfTwo, H.Inside, H.InSpan;
    var f := late[i].frame;
    assert late[i] in multiset(late);
    assert late[i] in multiset(g.h.now.pool.used);
    P.EntryOf(g.h.now.pool.used, late[i]);
    SoundAccounts(g.h, R.POOL_SIZE);
    assert multiset(P.Frames(g.h.now.pool.used))[f] > 0;
    assert (multiset(g.h.now.injected) + multiset(P.Frames(g.h.now.pool.used)))[f] == (g.h.arrived + g.h.strays)[f];
    assert multiset(g.h.now.injected)[f] == multiset(g.released)[f] + g.h.strays[f];
    assert g.h.arrived[f] == multiset(g.released)[f] + multiset(P.Frames(g.h.now.pool.used))[f];
    ArrivedAt(t, k, f);
  }

  /** None of the late packets before had this position. */
  lemma LateNew(t: Trip, g: O.Log, k: nat, late: seq<Packet>, p: Packet)
    requires Going(t, g, k, late) && k < |t.order| && t.order[k] !in t.order[..k] && p.frame == t.stream[t.order[k]]
    ensures forall i :: 0 <= i < |late| ==> late[i].frame.index != p.frame.index
  {
    hide R.Sound, R.Inv, O.Together, PowerOfTwo, H.Inside, H.InSpan, P.Frames;
    forall i | 0 <= i < |late|
      ensures late[i].frame.index != p.frame.index
    {
      LateArrived(t, g, k, late, i);
    }
  }

  lemma LateLately(g: O.Log, u: O.Log, first: nat, late: seq<Packet>, p: Packet)
    requires Lately(g, first, late) && p.frame.index < first
    requires forall i :: 0 <= i < |late| ==> late[i].frame.index != p.frame.index
    requires u.h.now.rings == g.h.now.rings && u.released == g.released
    requires u.h.now.injected == g.h.now.injected + [p.frame] && u.h.now.pool.used == g.h.now.pool.used + [p]
    requires u.h.strays == g.h.strays + multiset{p.frame}
    ensures Lately(u, first, late + [p])
  {
    hide H.Inside, H.InSpan, P.Frames;
    P.FramesAppend(late, [p]);
    assert P.Frames([p]) == [p.frame];
    var inside := H.Inside(g.h.now.rings);
    assert multiset(u.h.now.pool.used) == inside + multiset(late) + multiset{p} == inside + multiset(late + [p]);
    assert multiset(u.h.now.injected) == multiset(g.released) + g.h.strays + multiset{p.frame};
  }

  // ---- The whole trip ----

  lemma StartAtHead(size: nat, f: Frame)
    requires 0 < size <= MAX_SIZE
    ensures O.Lined(O.Start(size)) && O.AtHead(O.Start(size).h.now, f)
    ensures !O.Start(size).h.now.rings.initialized
  {
    O.InitIdle(size);
  }

  lemma StartSteady(size: nat)
    requires 0 < size <= MAX_SIZE
    ensures R.Sound(O.Start(size).h, R.POOL_SIZE) && O.Together(O.Start(size))
  {
    hide R.Sound, PowerOfTwo, Runs.InOrder, R.Begin, Reorder.Init;
    R.BeginSound(size);
    O.StartTogether(size);
    O.BeginRings(size);
  }

  /** The first packet's history, and that it is near. */
  lemma FirstHistory(t: Trip)
    requires t.Fair()
    ensures var g, f := O.Start(t.size), t.stream[t.order[0]];
            && O.Answer(g.h.now, EventOf(t, 0)) == Some(Stored) && g.h.now.pool.free != []
            && Runs.Near(g.trace, Runs.Arrive(O.PacketFor(g.h.now, f)))
    ensures var o := O.Next(O.Start(t.size), EventOf(t, 0));
            && o.Some? && o.value.h.arrived == multiset{t.stream[t.order[0]]} && o.value.h.strays == multiset{}
  {
    hide R.RecvData, PowerOfTwo, BitAnd, O.Both;
    var g, f := O.Start(t.size), t.stream[t.order[0]];
    StartAtHead(t.size, f);
    O.PassesThrough(g.h.now, f);
    GotFrame(g.h.now.pool, f);
  }

  /** Where the first packet leaves everything. */
  lemma FirstPasses(t: Trip)
    requires t.Fair()
    ensures var o, f := O.Next(O.Start(t.size), EventOf(t, 0)), t.stream[t.order[0]];
            && o.Some? && O.Idle(o.value.h.now) && o.value.h.now.rings.size == t.size && o.value.h.now.rings.initialized
            && o.value.released == o.value.h.now.injected == [f] && o.value.trace.base == t.order[0] + 1
  {
    hide R.RecvData, PowerOfTwo, BitAnd, O.Next, O.Idle;
    var g, f := O.Start(t.size), t.stream[t.order[0]];
    StartAtHead(t.size, f);
    O.PassesLogged(g, f);
    assert [] + [f] == [f];
  }

  lemma FirstSteady(t: Trip)
    requires t.Fair()
    ensures var o := O.Next(O.Start(t.size), EventOf(t, 0));
            o.Some? && R.Sound(o.value.h, R.POOL_SIZE) && O.Together(o.value)
  {
    hide R.Sound, PowerOfTwo, O.Start, O.Next, O.Together, O.Answer, O.Idle, Runs.Near, R.Next;
    var g, e := O.Start(t.size), EventOf(t, 0);
    StartAtHead(t.size, e.frame);
    FirstHistory(t);
    StartSteady(t.size);
    O.StoredTogether(g, e, R.POOL_SIZE);
    O.LogNext(g, e);
    R.NextSound(g.h, e, R.POOL_SIZE);
  }

  /** The first packet goes straight through and sets the window. */
  lemma FirstGoes(t: Trip)
    requires t.Fair()
    ensures var o := O.Next(O.Start(t.size), EventOf(t, 0)); o.Some? && Going(t, o.value, 1, [])
  {
    hide R.Sound, PowerOfTwo, O.Start, O.Next, O.Together, O.Idle, H.Inside, H.InSpan;
    StartAtHead(t.size, EventOf(t, 0).frame);
    FirstHistory(t);
    FirstPasses(t);
    FirstSteady(t);
    var u := O.Next(O.Start(t.size), EventOf(t, 0)).value;
    FirstInside(u.h);
    assert Lately(u, t.order[0], []) by { assert P.Frames([]) == []; }
    OneMore(t, 0);
    assert t.Arriving()[..0] == [];
  }

  lemma FirstInside(h: R.History)
    requires R.Sound(h, R.POOL_SIZE) && O.Idle(h.now)
    ensures H.InSpan(h.now.rings) && H.Inside(h.now.rings) == multiset{} && h.now.pool.used == []
  {
    R.InvBasics(h.now, R.POOL_SIZE);
    NothingInside(h.now);
  }

  lemma NothingInside(r: R.Receiver)
    requires O.Idle(r) && H.Sane(r.rings)
    ensures H.Inside(r.rings) == multiset{} && r.pool.used == []
  {
    hide LowestClear;
    NoPackets(r.rings.order);
    NoPacketsInNone();
    assert H.Queued(r.rings) == [];
  }

  lemma {:induction false} RunGoes(t: Trip, g: O.Log, k: nat, late: seq<Packet>) returns (u: O.Log, later: seq<Packet>)
    requires Going(t, g, k, late)
    ensures O.Run(g, R.Arrivals(t.Arriving())[k..]) == Some(u) && R.Run(g.h, R.Arrivals(t.Arriving())[k..]) == Some(u.h)
    ensures Going(t, u, |t.order|, later)
    decreases |t.order| - k
  {
    hide Steady, Gapless, Lately, O.Next, R.Next, R.Sound, PowerOfTwo;
    var es := R.Arrivals(t.Arriving())[k..];
    assert g.Shaped() by { SteadyShaped(g, t.size); }
    if k == |t.order| {
      u, later := g, late;
    } else {
      NextPosition(t, g, k, late);
      later := late;
      if t.order[k] < t.order[0] {
        later := LateGoes(t, g, k, late);
      } else {
        OnTimeGoes(t, g, k, late);
      }
      assert es[0] == EventOf(t, k) && es[1..] == R.Arrivals(t.Arriving())[k + 1..];
      O.LogNext(g, es[0]);
      u, later := RunGoes(t, O.Next(g, es[0]).value, k + 1, later);
    }
  }

  lemma SteadyShaped(g: O.Log, size: nat)
    requires Steady(g, size)
    ensures g.Shaped()
  {
  }

  lemma FramesDrop(ps: seq<Packet>, i: nat)
    requires i < |ps|
    ensures var rest := ps[..i] + ps[i + 1..];
            && multiset(rest) == multiset(ps) - multiset{ps[i]}
            && multiset(P.Frames(ps)) == multiset(P.Frames(rest)) + multiset{ps[i].frame}
  {
    hide P.Frames;
    P.DropCounts(ps, i);
    P.DropMaps(ps, i);
    P.DropCounts(P.Frames(ps), i);
    assert ps[i].frame == P.Frames(ps)[i] && P.Frames(ps)[i] in P.Frames(ps);
  }

  lemma {:induction false} FramesBag(a: seq<Packet>, b: seq<Packet>)
    requires multiset(a) == multiset(b)
    ensures multiset(P.Frames(a)) == multiset(P.Frames(b))
    decreases |a|
  {
    hide P.Frames;
    if a == [] {
      assert |multiset(b)| == 0;
      assert b == [];
    } else {
      assert a[0] in multiset(b);
      var i :| 0 <= i < |b| && b[i] == a[0];
      var x, y := a[..0] + a[1..], b[..i] + b[i + 1..];
      FramesDrop(a, 0);
      FramesDrop(b, i);
      assert multiset(x) == multiset(y);
      FramesBag(x, y);
    }
  }

  /** At the end nothing is held, and the copies in use are those of the late packets. */
  lemma AllOut(t: Trip, g: O.Log, late: seq<Packet>)
    requires Going(t, g, |t.order|, late)
    ensures g.trace.base == |t.stream| && H.Inside(g.h.now.rings) == multiset{}
    ensures multiset(P.Frames(g.h.now.pool.used)) == g.h.strays && multiset(g.h.now.injected) == g.h.arrived
  {
    hide R.Sound, R.Inv, O.Together, PowerOfTwo, H.Inside, H.InSpan, P.Frames;
    FirstMissing(t, g, |t.order|, late);
    assert t.order[..|t.order|] == t.order;
    if H.Inside(g.h.now.rings) != multiset{} {
      var p :| p in H.Inside(g.h.now.rings);
      HeldBeyond(g, t.size, p);
      HeldArrived(t, g, |t.order|, late, p);
      assert false;
    }
    FramesBag(g.h.now.pool.used, late);
    SoundAccounts(g.h, R.POOL_SIZE);
    var injected, arrived, strays := multiset(g.h.now.injected), g.h.arrived, g.h.strays;
    assert injected == (injected + strays) - strays == (arrived + strays) - strays == arrived;
  }

  /** A stream whose packets, from the first arrival's position on, come less than a window ahead of any
      that is missing, and no further ahead than the pool has room for: the buffer releases exactly the
      stream from that position on, in order. Packets before that position are injected as they come.
      Every packet is injected exactly once, nothing is held at the end, and if the first to arrive is
      the first of the stream, the tun device gets the stream itself. */
  lemma ExactRecovery(t: Trip)
    requires t.Fair()
    ensures var o := O.Run(O.Start(t.size), R.Arrivals(t.Arriving()));
            && o.Some? && R.Run(R.Begin(t.size, R.POOL_SIZE), R.Arrivals(t.Arriving())) == Some(o.value.h)
            && o.value.released == t.stream[t.order[0]..]
            && multiset(o.value.h.now.injected) == multiset(t.Arriving())
            && (t.order[0] == 0 ==> o.value.h.now.injected == t.stream)
            && H.InSpan(o.value.h.now.rings) && H.Inside(o.value.h.now.rings) == multiset{}
  {
    hide R.Sound, R.Inv, O.Together, PowerOfTwo, H.Inside, H.InSpan, P.Frames, O.Next, R.Next, Steady;
    var es := R.Arrivals(t.Arriving());
    FirstGoes(t);
    assert es[0] == EventOf(t, 0);
    O.LogNext(O.Start(t.size), es[0]);
    var u, late := RunGoes(t, O.Next(O.Start(t.size), es[0]).value, 1, []);
    AllOut(t, u, late);
    assert t.Arriving()[..|t.order|] == t.Arriving();
    forall i | 0 <= i < |u.released|
      ensures t.order[0] + i < |t.stream| && u.released[i] == t.stream[t.order[0] + i]
    {
      ReleasedArrived(t, u, |t.order|, late, i);
    }
    assert u.released == t.stream[t.order[0]..];
  }
}
