/** Whole runs of the reorder buffer: packets come out in stream order, whatever the
    interleaving of insertions and partial drains, exactly when the size is a power of two. */
module ReorderRuns {
  import opened Words
  import opened Ring
  import opened Reorder
  import W = Window

  datatype Event = Arrive(packet: Packet) | Take(max: nat)

  /** The rings, the unwrapped value of min_seqn, and everything drained so far. */
  datatype Trace = Trace(rings: Rings, base: nat, out: Slots)

  function Start(size: nat): (t: Trace) { Trace(Init(size), 0, []) }

  function Step(t: Trace, e: Event): (u: Trace)
    requires t.rings.Shaped()
    ensures u.rings.Shaped()
  {
    match e
    case Arrive(p) =>
      var s := Started(t.rings, p);
      var base := if t.rings.initialized then t.base else p.frame.index;
      var r := Insert(t.rings, p).0;
      Trace(r, base + Sub64(r.minSeqn, s.minSeqn), t.out)
    case Take(max) =>
      var (r, out) := Drain(t.rings, max);
      Trace(r, t.base + Sub64(r.minSeqn, t.rings.minSeqn), t.out + out)
  }

  function Run(t: Trace, es: seq<Event>): (u: Trace)
    requires t.rings.Shaped()
    ensures u.rings.Shaped()
    decreases |es|
  {
    if es == [] then t else Run(Step(t, es[0]), es[1..])
  }

  /** The packet carries the low 64 bits of its stream position, and that position is less than
      2^64 ahead of the window and more than two windows short of 2^64 behind it. */
  ghost predicate Near(t: Trace, e: Event) {
    e.Arrive? ==>
      && W.Labelled(e.packet)
      && (t.rings.initialized ==>
            && e.packet.frame.index < t.base + TWO64
            && t.base + 2 * t.rings.size <= e.packet.frame.index + TWO64)
  }

  ghost predicate NearRun(t: Trace, es: seq<Event>)
    requires t.rings.Shaped()
    decreases |es|
  {
    es != [] ==> Near(t, es[0]) && NearRun(Step(t, es[0]), es[1..])
  }

  // ---- Every step keeps one rising stream ----

  ghost predicate InOrder(t: Trace) {
    && Good(t.rings)
    && W.Flow(View(t.rings), t.base, t.out)
    && (t.rings.initialized ==> t.rings.minSeqn == t.base % TWO64)
    && (!t.rings.initialized ==> W.Packets(SlotSeq(t.rings)) == [] && ReadySeq(t.rings) == [] && t.out == [])
  }

  /** The wrapped distance of a near packet is its true distance, or far outside the window. */
  lemma OffsetIsDistance(base: nat, index: nat, size: nat)
    requires 0 < size <= MAX_SIZE
    requires index < base + TWO64 && base + 2 * size <= index + TWO64
    ensures var offset := Sub64(index % TWO64, base % TWO64);
            if base <= index then offset == index - base else offset >= 2 * size
  {
    if base <= index {
      AdvanceDistance(base, index - base);
    } else {
      AdvanceDistance(index, base - index);
      AdvanceDistance(base, TWO64 - (base - index));
      assert base + (TWO64 - (base - index)) == index + TWO64;
      assert (index + TWO64) % TWO64 == index % TWO64;
    }
  }

  /** Placing a packet at its distance from the base keeps every slot at its own position. */
  lemma PlaceFlows(r: Rings, base: nat, past: Slots, p: Packet)
    requires Good(r) && W.Flow(View(r), base, past) && r.minSeqn == base % TWO64
    requires W.Labelled(p) && base <= p.frame.index < base + r.size
    ensures W.Flow(View(Place(r, p)), base, past)
    ensures Place(r, p) == r.(order := Place(r, p).order)
  {
    hide BitAnd, PowerOfTwo, Unroll, Queue;
    AdvanceDistance(base, p.frame.index - base);
    PlaceViews(r, p);
  }

  lemma OverflowFlows(r: Rings, base: nat, past: Slots, n: nat)
    requires Good(r) && W.Flow(View(r), base, past) && r.minSeqn == base % TWO64 && n <= r.size
    ensures var (s, adv) := FillOverflow(r, n);
            && Good(s) && s.size == r.size && s.initialized == r.initialized && adv <= r.size
            && s.minSeqn == (base + adv) % TWO64 && Sub64(s.minSeqn, r.minSeqn) == adv
            && W.Flow(View(s), base + adv, past)
  {
    hide BitAnd, PowerOfTwo, Unroll, Queue, W.Flow, Slide, W.Slide;
    SlideViews(r, n, 0);
    W.SlideFlows(View(r), base, past, n);
    var (s, adv) := Slide(r, n, 0);
    AdvanceDistance(base, adv);
    assert View(FillOverflow(r, n).0) == View(s);
  }

  lemma InsertFlows(r: Rings, base: nat, past: Slots, p: Packet)
    requires Good(r) && r.initialized && W.Flow(View(r), base, past) && r.minSeqn == base % TWO64
    requires W.Labelled(p)
    requires p.frame.index < base + TWO64 && base + 2 * r.size <= p.frame.index + TWO64
    ensures var s := Insert(r, p).0;
            var adv := Sub64(s.minSeqn, r.minSeqn);
            && Good(s) && s.initialized && s.minSeqn == (base + adv) % TWO64
            && W.Flow(View(s), base + adv, past)
  {
    hide BitAnd, PowerOfTwo, W.Flow, View, FillOverflow, Place;
    OffsetIsDistance(base, p.frame.index, r.size);
    AdvanceDistance(base, 0);
    var offset := Sub64(p.frame.seqn, r.minSeqn);
    if offset < r.size {
      PlaceFlows(r, base, past, p);
    } else if offset < 2 * r.size {
      var n := offset + 1 - r.size;
      OverflowFlows(r, base, past, n);
      var (s, adv) := FillOverflow(r, n);
      if adv >= n {
        PlaceFlows(s, base + adv, past, p);
      }
    }
  }

  lemma FirstFlows(r: Rings, p: Packet)
    requires Good(r) && !r.initialized && W.Labelled(p)
    requires W.Packets(SlotSeq(r)) == [] && ReadySeq(r) == []
    ensures Good(Started(r, p)) && W.Flow(View(Started(r, p)), p.frame.index, [])
  {
    hide BitAnd, PowerOfTwo, Unroll, Queue, W.Packets;
    var s := Started(r, p);
    W.NoPackets(SlotSeq(r));
    assert SlotSeq(s) == SlotSeq(r) && ReadySeq(s) == ReadySeq(r);
  }

  lemma StepFlows(t: Trace, e: Event)
    requires InOrder(t) && Near(t, e)
    ensures InOrder(Step(t, e))
  {
    hide BitAnd, PowerOfTwo, Unroll, Queue, W.Flow, Insert, Drain;
    match e
    case Arrive(p) =>
      var s := Started(t.rings, p);
      if !t.rings.initialized {
        FirstFlows(t.rings, p);
        assert Insert(t.rings, p) == Insert(s, p) by { InsertStarts(t.rings, p); }
        InsertFlows(s, p.frame.index, t.out, p);
      } else {
        InsertFlows(t.rings, t.base, t.out, p);
      }
    case Take(max) =>
      TakeFlows(t, max);
  }

  lemma InsertStarts(r: Rings, p: Packet)
    requires r.Shaped()
    ensures Insert(r, p) == Insert(Started(r, p), p)
  {
  }

  lemma TakeFlows(t: Trace, max: nat)
    requires InOrder(t)
    ensures InOrder(Step(t, Take(max)))
  {
    hide BitAnd, PowerOfTwo, Unroll, Queue, W.Flow, W.Drain, W.Popped, W.Shifted, Drain;
    DrainViews(t.rings, max);
    W.DrainFlows(View(t.rings), t.base, t.out, max);
    var k := W.Popped(View(t.rings), max);
    W.DrainShifts(View(t.rings), max);
    AdvanceDistance(t.base, k);
    if !t.rings.initialized {
      W.NoPackets(SlotSeq(t.rings));
      W.DrainNothing(View(t.rings), max);
    }
  }

  /** Between two resets, any interleaving of arrivals and full or partial drains delivers
      packets at strictly increasing stream positions, across any number of 64-bit wraps. */
  lemma {:induction false} RunFlows(t: Trace, es: seq<Event>)
    requires t.rings.Shaped() && InOrder(t) && NearRun(t, es)
    ensures InOrder(Run(t, es))
    decreases |es|
  {
    hide InOrder, Near, Step;
    if es != [] {
      StepFlows(t, es[0]);
      RunFlows(Step(t, es[0]), es[1..]);
    }
  }

  ghost predicate Ordered(out: Slots) {
    && (forall i :: 0 <= i < |out| ==> out[i].Some?)
    && forall i, j :: 0 <= i < j < |out| ==> out[i].value.frame.index < out[j].value.frame.index
  }

  lemma DeliversInOrder(size: nat, es: seq<Event>)
    requires 0 < size <= MAX_SIZE && PowerOfTwo(size) && NearRun(Start(size), es)
    ensures Ordered(Run(Start(size), es).out)
  {
    hide Run, NearRun, InOrder, PowerOfTwo, Init;
    StartInOrder(size);
    RunFlows(Start(size), es);
    InOrderDelivers(Run(Start(size), es));
  }

  lemma StartInOrder(size: nat)
    requires 0 < size <= MAX_SIZE
    ensures Start(size).rings.Shaped() && (PowerOfTwo(size) ==> InOrder(Start(size)))
  {
    hide PowerOfTwo;
    var t := Start(size);
    W.NoPackets(SlotSeq(t.rings));
    assert t.out + View(t.rings).ready == [];
  }

  lemma InOrderDelivers(u: Trace)
    requires InOrder(u)
    ensures Ordered(u.out)
  {
    hide PowerOfTwo, SlotSeq, ReadySeq, W.Packets;
    var all := u.out + View(u.rings).ready;
    assert forall i :: 0 <= i < |u.out| ==> u.out[i] == all[i];
  }

  function Probe(index: U64): (p: Packet) { W.Packet(index, W.Frame(index, index, [])) }

  /** With any other size some mask bit is missing, so two positions of one window share a slot. */
  function Collision(size: nat): (es: seq<Event>)
    requires 1 < size <= MAX_SIZE && !PowerOfTwo(size)
  {
    LowestClearInside(size - 1);
    var p := LowestClear(size - 1);
    [Arrive(Probe(0)), Arrive(Probe(p)), Take(1), Arrive(Probe(1)), Take(1)]
  }

  lemma CollisionMasks(m: nat)
    ensures BitAnd(0, m) == 0 && BitAnd(1, m) == m % 2 && BitAnd(m % 2, m) == m % 2
  {
    if m != 0 {
      assert BitAnd(1, m) == 2 * BitAnd(0, m / 2) + m % 2;
    }
  }

  /** An arrival inside the window, written out. */
  lemma ArriveInside(t: Trace, p: Packet, offset: nat)
    requires t.rings.Shaped() && t.rings.initialized
    requires offset == Sub64(p.frame.seqn, t.rings.minSeqn) < t.rings.size
    ensures var at := t.rings.Masked(t.rings.oHead + offset);
            Step(t, Arrive(p)) == t.(rings := t.rings.(order := t.rings.order[at := Some(p)]))
  {
  }

  /** Taking one packet with nothing ready, written out. */
  lemma TakeOne(t: Trace)
    requires t.rings.Shaped() && t.rings.rTail == t.rings.rHead
    requires t.rings.order[t.rings.oHead].Some? && t.rings.minSeqn + 1 < TWO64
    ensures Step(t, Take(1)) ==
            Trace(TakeHead(t.rings), t.base + 1, t.out + [t.rings.order[t.rings.oHead]])
  {
    hide BitAnd;
    var r := t.rings;
    assert DrainReady(r, 1) == (r, []);
    assert DrainOrder(TakeHead(r), 0) == (TakeHead(r), []);
    assert [r.order[r.oHead]] + [] == [r.order[r.oHead]] == [] + [r.order[r.oHead]];
    assert DrainOrder(r, 1) == (TakeHead(r), [r.order[r.oHead]]);
    assert Drain(r, 1) == (TakeHead(r), [r.order[r.oHead]]);
  }

  lemma RunCons(t: Trace, e: Event, es: seq<Event>)
    requires t.rings.Shaped()
    ensures Run(t, [e] + es) == Run(Step(t, e), es)
    ensures NearRun(t, [e] + es) <==> Near(t, e) && NearRun(Step(t, e), es)
    ensures Run(t, []) == t && NearRun(t, [])
  {
    assert ([e] + es)[1..] == es;
  }

  /** The second half of the collision: position 1 is delivered after position p. */
  lemma CollisionEnds(t: Trace, m: nat)
    requires t.rings.Shaped() && t.rings.initialized && t.rings.size == m + 1 > 1
    requires t.rings.oHead == m % 2 && t.rings.minSeqn == 1 && t.base == 1
    requires t.rings.rTail == t.rings.rHead
    ensures NearRun(t, [Arrive(Probe(1)), Take(1)])
    ensures Run(t, [Arrive(Probe(1)), Take(1)]).out == t.out + [Some(Probe(1))]
  {
    hide Step, BitAnd, Run, NearRun, Add64;
    assert Add64(1, 1) == 2 by { AdvanceDistance(1, 1); }
    CollisionMasks(m);
    ArriveInside(t, Probe(1), 0);
    var u := Step(t, Arrive(Probe(1)));
    TakeOne(u);
    RunCons(Step(u, Take(1)), Take(1), []);
    RunCons(u, Take(1), []);
    RunCons(t, Arrive(Probe(1)), [Take(1)]);
    assert [Arrive(Probe(1))] + [Take(1)] == [Arrive(Probe(1)), Take(1)] && [Take(1)] + [] == [Take(1)];
  }

  lemma CollisionMiddle(t: Trace, p: U64, m: nat)
    requires t.rings.Shaped() && t.rings.initialized && t.rings.size == m + 1 > 1
    requires t.rings.oHead == 0 && t.rings.minSeqn == 0 && t.base == 0 && t.out == []
    requires t.rings.rTail == t.rings.rHead && p <= m && BitAnd(p, m) == 0
    ensures Near(t, Arrive(Probe(p)))
    ensures var u := Step(Step(t, Arrive(Probe(p))), Take(1));
            && u == Trace(u.rings, 1, [Some(Probe(p))]) && u.rings.initialized && u.rings.size == m + 1
            && u.rings.oHead == m % 2 && u.rings.minSeqn == 1 && u.rings.rTail == u.rings.rHead
  {
    hide Step, BitAnd;
    CollisionMasks(m);
    ArriveInside(t, Probe(p), p);
    TakeOne(Step(t, Arrive(Probe(p))));
  }

  lemma CollisionBegins(size: nat)
    requires 0 < size <= MAX_SIZE
    ensures var t := Step(Start(size), Arrive(Probe(0)));
            && t == Trace(t.rings, 0, []) && t.rings.initialized && t.rings.size == size
            && t.rings.oHead == 0 && t.rings.minSeqn == 0 && t.rings.rTail == t.rings.rHead
  {
  }

  lemma CollisionDisorders(size: nat)
    requires 1 < size <= MAX_SIZE && !PowerOfTwo(size)
    ensures NearRun(Start(size), Collision(size)) && !Ordered(Run(Start(size), Collision(size)).out)
  {
    hide Step, BitAnd, LowestClear, PowerOfTwo, Run, NearRun;
    var p := LowestClear(size - 1);
    LowestClearInside(size - 1);
    LowestClearMasksOut(size - 1);
    var t0 := Start(size);
    var t1 := Step(t0, Arrive(Probe(0)));
    CollisionBegins(size);
    CollisionMiddle(t1, p, size - 1);
    var t2 := Step(t1, Arrive(Probe(p)));
    var t3 := Step(t2, Take(1));
    CollisionEnds(t3, size - 1);
    var rest := [Arrive(Probe(1)), Take(1)];
    RunCons(t2, Take(1), rest);
    RunCons(t1, Arrive(Probe(p)), [Take(1)] + rest);
    RunCons(t0, Arrive(Probe(0)), [Arrive(Probe(p))] + ([Take(1)] + rest));
    assert Collision(size) == [Arrive(Probe(0))] + ([Arrive(Probe(p))] + ([Take(1)] + rest));
    var out := Run(t0, Collision(size)).out;
    assert out == [Some(Probe(p)), Some(Probe(1))];
    assert !(out[0].value.frame.index < out[1].value.frame.index);
  }

  /** The mask of src/reorder.c orders packets exactly when the configured size is a power of two. */
  lemma InOrderIffPowerOfTwo(size: nat)
    requires 0 < size <= MAX_SIZE
    ensures PowerOfTwo(size) <==>
            forall es :: NearRun(Start(size), es) ==> Ordered(Run(Start(size), es).out)
  {
    if PowerOfTwo(size) {
      forall es | NearRun(Start(size), es)
        ensures Ordered(Run(Start(size), es).out)
      {
        DeliversInOrder(size, es);
      }
    } else {
      CollisionDisorders(size);
    }
  }
}
