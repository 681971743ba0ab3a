/** The reorder buffer with its rings unrolled: the slots from the head on, and the
    ready packets oldest first. No masks and no indices to wrap. */
module Window {
  import opened Words

  /** What a packet carries. `index` is its position in the sender's stream; no operation reads it. */
  datatype Frame = Frame(seqn: U64, index: nat, data: seq<Byte>)

  /** A pointer to a pool entry, together with what that entry holds. */
  datatype Packet = Packet(entry: nat, frame: Frame)

  type Slots = seq<Option<Packet>>

  datatype Window = Window(slots: Slots, ready: Slots)
  {
    /** The ready ring keeps one place free. */
    ghost predicate Valid() { 0 < |slots| && |ready| < |slots| }
    predicate Full() { |ready| + 1 == |slots| }
  }

  /** One position forward: the slot left behind becomes the empty last one. */
  function Pass(slots: Slots): (t: Slots)
    requires slots != []
    ensures |t| == |slots|
  {
    slots[1..] + [None]
  }

  /** Passing the head packet, which is lost if the ready ring has no place for it. */
  function Move(w: Window): (v: Window)
    requires w.Valid()
    ensures v.Valid() && |v.slots| == |w.slots|
  {
    Window(Pass(w.slots), if w.Full() then w.ready else w.ready + [w.slots[0]])
  }

  function MoveRun(w: Window, adv: nat): (o: (Window, nat))
    requires w.Valid()
    ensures o.0.Valid() && |o.0.slots| == |w.slots| && o.1 >= adv
    ensures w.slots[0].Some? ==> o.1 > adv
    decreases |w.slots| - |w.ready|
  {
    if w.slots[0].None? then (w, adv)
    else if w.Full() then (Move(w), adv + 1)
    else MoveRun(Move(w), adv + 1)
  }

  function Slide(w: Window, n: nat, adv: nat): (o: (Window, nat))
    requires w.Valid()
    ensures o.0.Valid() && |o.0.slots| == |w.slots| && o.1 >= adv
    decreases n - adv
  {
    if adv >= n || w.Full() then (w, adv)
    else
      var (v, a) := if w.slots[0].None? then (w.(slots := Pass(w.slots)), adv + 1) else (w, adv);
      var (u, b) := MoveRun(v, a);
      Slide(u, n, b)
  }

  // ---- Order ----

  predicate Labelled(p: Packet) { p.frame.seqn == p.frame.index % TWO64 }

  /** Slot i is empty or holds the packet at stream position base + i. */
  ghost predicate Placed(slots: Slots, base: nat) {
    forall i :: 0 <= i < |slots| && slots[i].Some? ==>
      slots[i].value.frame.index == base + i && Labelled(slots[i].value)
  }

  /** Packets at strictly increasing stream positions, all below `bound`. */
  ghost predicate Rising(s: Slots, bound: nat) {
    && (forall i :: 0 <= i < |s| ==>
          s[i].Some? && s[i].value.frame.index < bound && Labelled(s[i].value))
    && forall i, j :: 0 <= i < j < |s| ==> s[i].value.frame.index < s[j].value.frame.index
  }

  /** What was delivered, then what is ready, then what is in the window: one rising stream. */
  ghost predicate Flow(w: Window, base: nat, past: Slots) {
    w.Valid() && Placed(w.slots, base) && Rising(past + w.ready, base)
  }

  /** `slots` is `from` with the first adv positions passed: shifted down, empty at the end. */
  ghost predicate Shifted(from: Slots, slots: Slots, adv: nat) {
    && |slots| == |from| && adv <= |from|
    && forall i :: 0 <= i < |slots| ==> slots[i] == if i + adv < |from| then from[i + adv] else None
  }

  lemma PassShifts(from: Slots, slots: Slots, adv: nat)
    requires slots != [] && Shifted(from, slots, adv)
    ensures adv < |from| ==> Shifted(from, Pass(slots), adv + 1)
    ensures slots[0].Some? ==> adv < |from| && slots[0] == from[adv]
  {
    assert forall i :: 0 <= i < |slots| - 1 ==> Pass(slots)[i] == slots[i + 1];
  }

  lemma ShiftedPlaced(from: Slots, slots: Slots, adv: nat, base: nat)
    requires Shifted(from, slots, adv) && Placed(from, base)
    ensures Placed(slots, base + adv)
  {
    assert forall i :: 0 <= i < |slots| && i + adv < |from| ==> slots[i] == from[i + adv];
  }

  lemma RisingExtends(s: Slots, base: nat, x: Option<Packet>)
    requires Rising(s, base) && x.Some? && x.value.frame.index == base && Labelled(x.value)
    ensures Rising(s + [x], base + 1)
  {
  }

  /** The stream delivered so far, extended by the window `from`, is in order up to adv. */
  ghost predicate Streams(from: Slots, base: nat, sent: Slots, adv: nat) {
    Placed(from, base) ==> Rising(sent, base + adv)
  }

  lemma StreamsExtend(from: Slots, base: nat, sent: Slots, adv: nat)
    requires Streams(from, base, sent, adv) && adv < |from| && from[adv].Some?
    ensures Streams(from, base, sent + [from[adv]], adv + 1)
  {
    if Placed(from, base) {
      RisingExtends(sent, base + adv, from[adv]);
    }
  }

  lemma MoveShifts(from: Slots, w: Window, base: nat, past: Slots, adv: nat)
    requires w.Valid() && Shifted(from, w.slots, adv) && w.slots[0].Some?
    requires Streams(from, base, past + w.ready, adv)
    ensures Shifted(from, Move(w).slots, adv + 1) && Streams(from, base, past + Move(w).ready, adv + 1)
  {
    PassShifts(from, w.slots, adv);
    StreamsExtend(from, base, past + w.ready, adv);
    assert past + w.ready + [w.slots[0]] == past + (w.ready + [w.slots[0]]);
  }

  lemma {:induction false} MoveRunShifts(from: Slots, w: Window, base: nat, past: Slots, adv: nat)
    requires w.Valid() && Shifted(from, w.slots, adv) && Streams(from, base, past + w.ready, adv)
    ensures var (v, a) := MoveRun(w, adv);
            Shifted(from, v.slots, a) && Streams(from, base, past + v.ready, a)
    decreases |w.slots| - |w.ready|
  {
    hide Shifted, Streams;
    if w.slots[0].Some? {
      MoveShifts(from, w, base, past, adv);
      if !w.Full() {
        MoveRunShifts(from, Move(w), base, past, adv + 1);
      }
    }
  }

  /** Sliding shifts the window by exactly the positions it reports, at most the whole window,
      and what it makes ready continues the delivered stream in order. */
  lemma {:induction false} SlideShifts(from: Slots, w: Window, base: nat, past: Slots, n: nat, adv: nat)
    requires w.Valid() && Shifted(from, w.slots, adv) && Streams(from, base, past + w.ready, adv)
    requires n <= |from|
    ensures var (v, a) := Slide(w, n, adv);
            Shifted(from, v.slots, a) && Streams(from, base, past + v.ready, a)
    decreases n - adv
  {
    if adv < n && !w.Full() {
      var (v, a) := if w.slots[0].None? then (w.(slots := Pass(w.slots)), adv + 1) else (w, adv);
      PassShifts(from, w.slots, adv);
      assert Shifted(from, v.slots, a) && Streams(from, base, past + v.ready, a);
      MoveRunShifts(from, v, base, past, a);
      var (u, b) := MoveRun(v, a);
      SlideShifts(from, u, base, past, n, b);
    }
  }

  lemma SlideFlows(w: Window, base: nat, past: Slots, n: nat)
    requires Flow(w, base, past) && n <= |w.slots|
    ensures var (v, a) := Slide(w, n, 0); a <= |w.slots| && Flow(v, base + a, past)
  {
    hide Slide;
    SlideShifts(w.slots, w, base, past, n, 0);
    var (v, a) := Slide(w, n, 0);
    ShiftedPlaced(w.slots, v.slots, a, base);
  }

  // ---- Draining ----

  /** Takes packets from the head of the window; the count is how far the window moved. */
  function DrainSlots(slots: Slots, max: nat): (o: (Slots, Slots))
    requires slots != []
    ensures |o.0| == |slots| && |o.1| <= max
    decreases max
  {
    if max == 0 || slots[0].None? then (slots, [])
    else
      var (t, out) := DrainSlots(Pass(slots), max - 1);
      (t, [slots[0]] + out)
  }

  function Drain(w: Window, max: nat): (o: (Window, Slots))
    requires w.Valid()
    ensures o.0.Valid() && |o.0.slots| == |w.slots| && |o.1| <= max
  {
    if |w.ready| >= max then (w.(ready := w.ready[max..]), w.ready[..max])
    else
      var (t, out) := DrainSlots(w.slots, max - |w.ready|);
      (Window(t, []), w.ready + out)
  }

  /** How far draining moves the window: the packets that did not come from the ready ring. */
  function Popped(w: Window, max: nat): (n: nat)
    requires w.Valid()
  {
    if |w.ready| >= max then 0 else |DrainSlots(w.slots, max - |w.ready|).1|
  }

  /** Draining the window shifts it by the packets taken, which continue the stream in order. */
  lemma {:induction false} DrainSlotsShifts(from: Slots, slots: Slots, base: nat, past: Slots, max: nat, adv: nat)
    requires slots != [] && Shifted(from, slots, adv) && Streams(from, base, past, adv)
    ensures var (t, out) := DrainSlots(slots, max);
            Shifted(from, t, adv + |out|) && Streams(from, base, past + out, adv + |out|)
    decreases max
  {
    hide Placed, Rising;
    if max > 0 && slots[0].Some? {
      PassShifts(from, slots, adv);
      var more := past + [slots[0]];
      assert Streams(from, base, more, adv + 1) by { StreamsExtend(from, base, past, adv); }
      DrainSlotsShifts(from, Pass(slots), base, more, max - 1, adv + 1);
      assert more + DrainSlots(Pass(slots), max - 1).1 == past + DrainSlots(slots, max).1;
    } else {
      assert past + [] == past;
    }
  }

  lemma DrainShifts(w: Window, max: nat)
    requires w.Valid()
    ensures Popped(w, max) <= |w.slots| && Shifted(w.slots, Drain(w, max).0.slots, Popped(w, max))
  {
    hide Placed, DrainSlots;
    if |w.ready| < max {
      DrainSlotsShifts(w.slots, w.slots, 0, [], max - |w.ready|, 0);
    }
  }

  lemma DrainNothing(w: Window, max: nat)
    requires w.Valid() && w.ready == [] && w.slots[0].None?
    ensures Drain(w, max) == (w, []) && Popped(w, max) == 0
  {
  }

  /** A drain, complete or partial, takes a front piece of the rising stream. */
  lemma DrainFlows(w: Window, base: nat, past: Slots, max: nat)
    requires Flow(w, base, past)
    ensures var (v, out) := Drain(w, max); Flow(v, base + Popped(w, max), past + out)
  {
    hide Placed, Rising, DrainSlots;
    if |w.ready| >= max {
      assert past + w.ready[..max] + w.ready[max..] == past + w.ready;
    } else {
      var (t, out) := DrainSlots(w.slots, max - |w.ready|);
      DrainSlotsShifts(w.slots, w.slots, base, past + w.ready, max - |w.ready|, 0);
      ShiftedPlaced(w.slots, t, |out|, base);
      assert past + w.ready + out == past + (w.ready + out) == past + (w.ready + out) + [];
    }
  }

  // ---- Conservation ----

  /** The packets among some pointers, in order. */
  function Packets(s: Slots): (ps: seq<Packet>)
    ensures |ps| <= |s|
  {
    if s == [] then [] else (if s[0].Some? then [s[0].value] else []) + Packets(s[1..])
  }

  ghost predicate Solid(s: Slots) { |Packets(s)| == |s| }

  /** Everything the buffer holds, in the order it would come out. */
  function Held(w: Window): (ps: seq<Packet>) { Packets(w.ready) + Packets(w.slots) }

  lemma {:induction false} PacketsAppend(a: Slots, b: Slots)
    ensures Packets(a + b) == Packets(a) + Packets(b)
  {
    if a == [] {
      assert a + b == b;
    } else {
      PacketsAppend(a[1..], b);
      var head: seq<Packet> := if a[0].Some? then [a[0].value] else [];
      assert (a + b)[1..] == a[1..] + b && (a + b)[0] == a[0];
      assert head + (Packets(a[1..]) + Packets(b)) == (head + Packets(a[1..])) + Packets(b);
    }
  }

  lemma PassPackets(slots: Slots)
    requires slots != []
    ensures Packets(slots) == (if slots[0].Some? then [slots[0].value] else []) + Packets(Pass(slots))
  {
    PacketsAppend(slots[1..], [None]);
  }

  lemma MoveConserves(w: Window)
    requires w.Valid() && Solid(w.ready) && |Held(w)| < |w.slots| && w.slots[0].Some?
    ensures !w.Full() && Held(Move(w)) == Held(w) && Solid(Move(w).ready)
  {
    PassPackets(w.slots);
    PacketsAppend(w.ready, [w.slots[0]]);
  }

  lemma {:induction false} MoveRunConserves(w: Window, adv: nat)
    requires w.Valid() && Solid(w.ready) && |Held(w)| < |w.slots|
    ensures var (v, a) := MoveRun(w, adv);
            Held(v) == Held(w) && Solid(v.ready) && |v.ready| - |w.ready| == a - adv
    decreases |w.slots| - |w.ready|
  {
    if w.slots[0].Some? {
      MoveConserves(w);
      MoveRunConserves(Move(w), adv + 1);
    }
  }

  /** As long as fewer packets than slots are held, sliding loses none of them, and when the
      head was a gap it always passes the n positions asked for. */
  lemma {:induction false} SlideConserves(w: Window, n: nat, adv: nat)
    requires w.Valid() && Solid(w.ready) && |Held(w)| < |w.slots| && n <= |w.slots|
    requires |w.ready| < adv || (|w.ready| == adv == 0 && w.slots[0].None? && |w.slots| > 1)
    ensures var (v, a) := Slide(w, n, adv); Held(v) == Held(w) && Solid(v.ready) && a >= n
    decreases n - adv
  {
    if adv < n && !w.Full() {
      var (v, a) := if w.slots[0].None? then (w.(slots := Pass(w.slots)), adv + 1) else (w, adv);
      PassPackets(w.slots);
      MoveRunConserves(v, a);
      var (u, b) := MoveRun(v, a);
      SlideConserves(u, n, b);
    }
  }

  lemma {:induction false} DrainSlotsConserves(slots: Slots, max: nat)
    requires slots != []
    ensures var (t, out) := DrainSlots(slots, max);
            && Packets(slots) == Packets(out) + Packets(t) && Solid(out)
            && (|out| < max ==> t[0].None?)
    decreases max
  {
    if max > 0 && slots[0].Some? {
      PassPackets(slots);
      DrainSlotsConserves(Pass(slots), max - 1);
    }
  }

  lemma NoPacketsInNone()
    ensures Packets([]) == []
  {
  }

  /** Draining takes a front piece of what is held, and all that is deliverable when it may take enough. */
  lemma DrainConserves(w: Window, max: nat)
    requires w.Valid() && Solid(w.ready)
    ensures var (v, out) := Drain(w, max);
            && Held(w) == Packets(out) + Held(v) && Solid(out) && Solid(v.ready)
            && (|Held(w)| < max ==> v.ready == [] && v.slots[0].None?)
  {
    hide Packets, DrainSlots;
    if |w.ready| >= max {
      PacketsAppend(w.ready[..max], w.ready[max..]);
      assert w.ready == w.ready[..max] + w.ready[max..];
    } else {
      var (t, out) := DrainSlots(w.slots, max - |w.ready|);
      DrainSlotsConserves(w.slots, max - |w.ready|);
      PacketsAppend(w.ready, out);
      NoPacketsInNone();
      assert Packets(w.ready) + (Packets(out) + Packets(t)) == (Packets(w.ready) + Packets(out)) + Packets(t);
    }
  }

  function Bag(o: Option<Packet>): (b: multiset<Packet>) {
    if o.Some? then multiset{o.value} else multiset{}
  }

  lemma OnePacket(x: Option<Packet>)
    ensures multiset(Packets([x])) == Bag(x)
  {
    assert [x][1..] == [];
  }

  /** Writing one slot adds what is written and displaces what the slot held. */
  lemma WritePackets(slots: Slots, i: nat, x: Option<Packet>)
    requires i < |slots|
    ensures multiset(Packets(slots[i := x])) + Bag(slots[i]) == multiset(Packets(slots)) + Bag(x)
  {
    hide Packets, Bag;
    var t := slots[i := x];
    assert slots == slots[..i] + ([slots[i]] + slots[i + 1..]);
    assert t == slots[..i] + ([x] + slots[i + 1..]);
    PacketsAppend(slots[..i], [slots[i]] + slots[i + 1..]);
    PacketsAppend([slots[i]], slots[i + 1..]);
    PacketsAppend(slots[..i], [x] + slots[i + 1..]);
    PacketsAppend([x], slots[i + 1..]);
    OnePacket(x);
    OnePacket(slots[i]);
  }

  lemma {:induction false} NoPackets(s: Slots)
    ensures Packets(s) == [] <==> forall i :: 0 <= i < |s| ==> s[i] == None
  {
    if s != [] {
      NoPackets(s[1..]);
      assert s == [s[0]] + s[1..];
    }
  }
}
