/** The receive path against a simple play-out buffer over stream positions: how far a packet moves the
    window, and what comes out, in every run. */
module ReceivePlayout {
  import opened Words
  import opened W = Window
  import opened Reorder
  import opened ReorderLoss
  import H = ReorderHeld
  import P = Pool
  import R = Receive
  import O = ReceiveOrder
  import Runs = ReorderRuns

  // ---- The reference ----

  /** The lowest position still waited for, and the frames kept beyond it. */
  datatype Playout = Playout(base: nat, held: map<nat, Frame>)

  function FirstGap(held: map<nat, Frame>, from: nat, limit: nat): (g: nat)
    requires from <= limit
    ensures from <= g <= limit && (forall p :: from <= p < g ==> p in held) && (g < limit ==> g !in held)
    decreases limit - from
  {
    if from < limit && from in held then FirstGap(held, from + 1, limit) else from
  }

  /** The frames kept at positions from lo up to hi, in order. */
  function Between(held: map<nat, Frame>, lo: nat, hi: nat): (fs: seq<Frame>) {
    if hi <= lo then [] else Between(held, lo, hi - 1) + (if hi - 1 in held then [held[hi - 1]] else [])
  }

  function From(held: map<nat, Frame>, lo: nat): (rest: map<nat, Frame>) { map p | p in held && p >= lo :: held[p] }

  /** The first position that is not given up for a packet at q: its window reaches no further back. */
  function Low(size: nat, s: Playout, q: nat): (low: nat)
    requires s.base <= q
    ensures low >= s.base && q < low + size + (if size == 0 then 1 else 0)
  {
    if q < s.base + size then s.base else q + 1 - size
  }

  /** A packet of the two windows ahead is kept; positions before its own window are given up; and what
      is kept up to the next gap is played. Any other packet changes nothing. */
  function Play(size: nat, s: Option<Playout>, f: Frame): (o: (Playout, seq<Frame>)) {
    var t := if s.Some? then s.value else Playout(f.index, map[]);
    if f.index < t.base || f.index >= t.base + 2 * size then (t, [])
    else
      var held, low := t.held[f.index := f], Low(size, t, f.index);
      var next := FirstGap(held, low, low + size);
      (Playout(next, From(held, next)), Between(held, t.base, next))
  }

  /** No position is given up but those before the packet's own window: one at or after that is played,
      or still waited for, or kept. */
  lemma GivesUpLeast(size: nat, s: Playout, f: Frame, p: nat)
    requires s.base <= f.index < s.base + 2 * size && Low(size, s, f.index) <= p
    ensures var held := s.held[f.index := f];
            var next := Play(size, Some(s), f).0;
            if p < next.base then p in held && held[p] in Play(size, Some(s), f).1
            else p in held ==> p in next.held && next.held[p] == held[p]
  {
    var held, low := s.held[f.index := f], Low(size, s, f.index);
    var next := FirstGap(held, low, low + size);
    if p < next {
      BetweenHas(held, s.base, next, p);
    }
  }

  lemma {:induction false} BetweenHas(held: map<nat, Frame>, lo: nat, hi: nat, p: nat)
    requires lo <= p < hi && p in held
    ensures held[p] in Between(held, lo, hi)
    decreases hi
  {
    if p < hi - 1 {
      BetweenHas(held, lo, hi - 1, p);
    }
  }

  lemma {:induction false} BetweenSplit(held: map<nat, Frame>, lo: nat, mid: nat, hi: nat)
    requires lo <= mid <= hi
    ensures Between(held, lo, hi) == Between(held, lo, mid) + Between(held, mid, hi)
    decreases hi
  {
    if mid < hi {
      BetweenSplit(held, lo, mid, hi - 1);
    }
  }

  lemma {:induction false} BetweenSame(a: map<nat, Frame>, b: map<nat, Frame>, lo: nat, hi: nat)
    requires forall p :: lo <= p < hi ==> (p in a <==> p in b) && (p in a ==> a[p] == b[p])
    ensures Between(a, lo, hi) == Between(b, lo, hi)
    decreases hi
  {
    if lo < hi {
      BetweenSame(a, b, lo, hi - 1);
    }
  }

  lemma GapIs(held: map<nat, Frame>, from: nat, limit: nat, g: nat)
    requires from <= g <= limit && (forall p :: from <= p < g ==> p in held) && (g < limit ==> g !in held)
    ensures FirstGap(held, from, limit) == g
  {
  }

  // ---- How far the window slides ----

  ghost predicate AllSet(s: Slots, lo: nat, hi: nat) { hi <= |s| && forall i :: lo <= i < hi ==> s[i].Some? }

  /** The inner loop stops at the first gap. */
  lemma {:induction false} MoveRunTo(from: Slots, w: Window, adv: nat)
    requires w.Valid() && Solid(w.ready) && |Held(w)| < |w.slots| && Shifted(from, w.slots, adv)
    ensures var (v, b) := W.MoveRun(w, adv);
            && Shifted(from, v.slots, b) && AllSet(from, adv, b) && (b < |from| ==> from[b].None?)
    decreases |w.slots| - |w.ready|
  {
    PassShifts(from, w.slots, adv);
    if w.slots[0].Some? {
      MoveConserves(w);
      MoveRunTo(from, Move(w), adv + 1);
    }
  }

  /** The outer loop ends at the first gap at or after the n positions it has to pass. */
  lemma {:induction false} SlideTo(from: Slots, w: Window, n: nat, adv: nat)
    requires w.Valid() && Solid(w.ready) && |Held(w)| < |w.slots| && n <= |w.slots| && Shifted(from, w.slots, adv)
    requires |w.ready| < adv || (|w.ready| == adv == 0 && w.slots[0].None? && |w.slots| > 1)
    requires adv >= n ==> AllSet(from, n, adv) && (adv < |from| ==> from[adv].None?)
    ensures var (v, a) := W.Slide(w, n, adv); AllSet(from, n, a) && (a < |from| ==> from[a].None?)
    decreases n - adv
  {
    if adv < n && !w.Full() {
      var (v, a) := if w.slots[0].None? then (w.(slots := Pass(w.slots)), adv + 1) else (w, adv);
      PassShifts(from, w.slots, adv);
      PassPackets(w.slots);
      MoveRunConserves(v, a);
      MoveRunTo(from, v, a);
      var (u, b) := W.MoveRun(v, a);
      SlideTo(from, u, n, b);
    } else if adv < n {
      assert false;
    }
  }

  // ---- The window shows the reference ----

  /** Slot i shows position base + i. */
  ghost predicate Shows(slots: Slots, base: nat, held: map<nat, Frame>) {
    && (forall i :: 0 <= i < |slots| ==> (slots[i].Some? <==> base + i in held))
    && (forall i :: 0 <= i < |slots| && slots[i].Some? ==> held[base + i] == slots[i].value.frame)
    && forall p :: p in held ==> base <= p < base + |slots|
  }

  lemma ShowsBounds(slots: Slots, base: nat, held: map<nat, Frame>)
    requires Shows(slots, base, held)
    ensures forall p :: p in held ==> base <= p < base + |slots|
  {
  }

  lemma ShowsAt(slots: Slots, base: nat, held: map<nat, Frame>, i: nat)
    requires Shows(slots, base, held) && i < |slots|
    ensures slots[i].Some? <==> base + i in held
  {
  }

  lemma {:induction false} FrontFrames(slots: Slots, base: nat, held: map<nat, Frame>, m: nat)
    requires Shows(slots, base, held) && m <= |slots|
    ensures P.Frames(Packets(slots[..m])) == Between(held, base, base + m)
  {
    hide P.Frames;
    if m == 0 {
      assert P.Frames([]) == [] && slots[..0] == [];
    } else {
      FrontFrames(slots, base, held, m - 1);
      var x := slots[m - 1];
      assert slots[..m] == slots[..m - 1] + [x];
      PacketsAppend(slots[..m - 1], [x]);
      assert Packets([x]) == if x.Some? then [x.value] else [] by { assert [x][1..] == []; }
      P.FramesAppend(Packets(slots[..m - 1]), Packets([x]));
      assert P.Frames(Packets([x])) == if x.Some? then [x.value.frame] else [];
      assert (base + m) - 1 == base + (m - 1);
    }
  }

  /** A window moved on shows what is left. */
  lemma ShiftShows(slots: Slots, moved: Slots, adv: nat, base: nat, held: map<nat, Frame>)
    requires Shows(slots, base, held) && Shifted(slots, moved, adv)
    ensures Shows(moved, base + adv, From(held, base + adv))
  {
    forall i | 0 <= i < |moved|
      ensures moved[i].Some? <==> base + adv + i in From(held, base + adv)
      ensures moved[i].Some? ==> From(held, base + adv)[base + adv + i] == moved[i].value.frame
    {
      assert moved[i] == if i + adv < |slots| then slots[i + adv] else None;
      assert base + adv + i == base + (i + adv);
    }
  }

  /** A packet put into its slot. */
  lemma PlaceShows(slots: Slots, base: nat, held: map<nat, Frame>, p: Packet)
    requires Shows(slots, base, held) && base <= p.frame.index < base + |slots|
    ensures Shows(slots[p.frame.index - base := Some(p)], base, held[p.frame.index := p.frame])
  {
  }

  lemma DrainStep(slots: Slots, t: Slots, out: Slots)
    requires slots != [] && slots[0].Some? && Shifted(Pass(slots), t, |out|) && |out| <= |slots|
    requires out == Pass(slots)[..|out|] && AllSet(Pass(slots), 0, |out|)
    requires |out| < |slots| ==> Pass(slots)[|out|].None?
    ensures |out| < |slots|
    ensures [slots[0]] + out == slots[..|out| + 1] && AllSet(slots, 0, |out| + 1) && Shifted(slots, t, |out| + 1)
    ensures |out| + 1 < |slots| ==> slots[|out| + 1].None?
  {
    var n := |slots|;
    assert Pass(slots)[n - 1].None?;
    assert forall i :: 0 <= i < n - 1 ==> Pass(slots)[i] == slots[i + 1];
    if |out| == n {
      assert false;
    }
  }

  lemma NothingFront(slots: Slots)
    ensures [] == slots[..0] && AllSet(slots, 0, 0) && Shifted(slots, slots, 0)
  {
  }

  /** Draining the window takes its front up to the first gap. */
  lemma {:induction false} DrainSlotsFront(slots: Slots, max: nat)
    requires slots != [] && |Packets(slots)| < max
    ensures var (t, out) := DrainSlots(slots, max);
            && |out| <= |slots| && out == slots[..|out|] && AllSet(slots, 0, |out|) && Shifted(slots, t, |out|)
            && (|out| < |slots| ==> slots[|out|].None?)
    decreases max
  {
    hide Packets, Shifted, AllSet, Pass;
    if slots[0].None? {
      NothingFront(slots);
    } else {
      PassPackets(slots);
      DrainSlotsFront(Pass(slots), max - 1);
      var (t, out) := DrainSlots(Pass(slots), max - 1);
      DrainStep(slots, t, out);
    }
  }

  // ---- One packet ----

  predicate InReach(size: nat, s: Playout, q: nat) { s.base <= q < s.base + 2 * size }

  /** After an insertion: the window is at base1, everything before it is ready, and between the
      positions given up and base1 nothing is missing. */
  ghost predicate Inserted(w: Window, size: nat, s: Playout, f: Frame, base1: nat)
    requires InReach(size, s, f.index)
  {
    var held, low := s.held[f.index := f], Low(size, s, f.index);
    && w.Valid() && |w.slots| == size && Solid(w.ready)
    && low <= base1 <= low + size && (forall p :: low <= p < base1 ==> p in held)
    && (forall p :: p in held ==> s.base <= p < low + size)
    && Shows(w.slots, base1, From(held, base1)) && P.Frames(Packets(w.ready)) == Between(held, s.base, base1)
  }

  /** How many come out of the window, and where that leaves it. */
  lemma PlayedTo(w: Window, size: nat, s: Playout, f: Frame, base1: nat, m: nat)
    requires InReach(size, s, f.index) && Inserted(w, size, s, f, base1)
    requires m <= size && AllSet(w.slots, 0, m) && (m < size ==> w.slots[m].None?)
    ensures Play(size, Some(s), f).0.base == base1 + m
  {
    var held, low := s.held[f.index := f], Low(size, s, f.index);
    forall p | low <= p < base1 + m
      ensures p in held
    {
      if p >= base1 {
        assert w.slots[p - base1].Some?;
        assert base1 + (p - base1) == p;
      }
    }
    if m > 0 {
      assert base1 + m - 1 in held;
    }
    if m < size {
      assert base1 + m !in From(held, base1);
    }
    GapIs(held, low, low + size, base1 + m);
  }

  lemma PlayedFrames(w: Window, size: nat, s: Playout, f: Frame, base1: nat, m: nat)
    requires InReach(size, s, f.index) && Inserted(w, size, s, f, base1) && m <= size
    requires Play(size, Some(s), f).0.base == base1 + m
    ensures P.Frames(Packets(w.ready + w.slots[..m])) == Play(size, Some(s), f).1
  {
    hide P.Frames, Packets, Between;
    var held := s.held[f.index := f];
    PacketsAppend(w.ready, w.slots[..m]);
    P.FramesAppend(Packets(w.ready), Packets(w.slots[..m]));
    FrontFrames(w.slots, base1, From(held, base1), m);
    BetweenSame(From(held, base1), held, base1, base1 + m);
    BetweenSplit(held, s.base, base1, base1 + m);
  }

  lemma FromTwice(held: map<nat, Frame>, a: nat, b: nat)
    requires a <= b
    ensures From(From(held, a), b) == From(held, b)
  {
  }

  /** A drain after the insertion plays exactly what the reference plays. */
  lemma DrainPlays(w: Window, size: nat, s: Playout, f: Frame, base1: nat, max: nat)
    requires InReach(size, s, f.index) && Inserted(w, size, s, f, base1) && |Held(w)| < max
    ensures var (v, out) := W.Drain(w, max);
            var (t, played) := Play(size, Some(s), f);
            && P.Frames(Packets(out)) == played && t.base == base1 + Popped(w, max)
            && Shows(v.slots, t.base, t.held)
  {
    hide P.Frames, Packets, Between, DrainSlots, FirstGap, Shows;
    assert |w.ready| < max;
    DrainSlotsFront(w.slots, max - |w.ready|);
    var (t, out) := DrainSlots(w.slots, max - |w.ready|);
    var m := |out|;
    PlayedTo(w, size, s, f, base1, m);
    PlayedFrames(w, size, s, f, base1, m);
    var held := s.held[f.index := f];
    ShiftShows(w.slots, t, m, base1, From(held, base1));
    FromTwice(held, base1, base1 + m);
  }

  /** A packet of the window itself. */
  lemma InsideInserted(slots: Slots, size: nat, s: Playout, p: Packet)
    requires Shows(slots, s.base, s.held) && |slots| == size > 0 && s.base <= p.frame.index < s.base + size
    ensures InReach(size, s, p.frame.index)
    ensures Inserted(Window(slots[p.frame.index - s.base := Some(p)], []), size, s, p.frame, s.base)
  {
    hide P.Frames, Packets;
    PlaceShows(slots, s.base, s.held, p);
    var held := s.held[p.frame.index := p.frame];
    assert From(held, s.base) == held;
    NoPacketsInNone();
    assert P.Frames([]) == [];
  }

  lemma {:induction false} ReadyIsFront(front: Slots, back: Slots, moved: Slots, ready: Slots)
    requires Packets(ready) + Packets(moved) == Packets(front + back) && Packets(moved) == Packets(back)
    ensures Packets(ready) == Packets(front)
  {
    PacketsAppend(front, back);
    var a, b, c := Packets(ready), Packets(front), Packets(back);
    assert a + c == b + c;
    assert |a| == |b|;
    assert a == (a + c)[..|a|] && b == (b + c)[..|b|];
  }

  lemma MovedPackets(slots: Slots, moved: Slots, a: nat)
    requires Shifted(slots, moved, a)
    ensures Packets(moved) == Packets(slots[a..])
  {
    var tail := moved[|slots| - a..];
    assert moved == slots[a..] + tail;
    PacketsAppend(slots[a..], tail);
    NoPackets(tail);
    assert Packets(slots[a..]) + [] == Packets(slots[a..]);
  }

  /** A packet beyond the window: sliding makes room, and no more than that. */
  lemma OverflowInserted(w: Window, size: nat, s: Playout, p: Packet)
    requires w.Valid() && w.ready == [] && w.slots[0].None? && |w.slots| == size >= 2
    requires Shows(w.slots, s.base, s.held) && s.base + size <= p.frame.index < s.base + 2 * size
    ensures var (v, a) := W.Slide(w, p.frame.index - s.base + 1 - size, 0);
            var at := p.frame.index - s.base - a;
            && 0 <= at < size && InReach(size, s, p.frame.index)
            && Inserted(v.(slots := v.slots[at := Some(p)]), size, s, p.frame, s.base + a)
  {
    hide P.Frames, Packets, W.Slide, Between;
    var n := p.frame.index - s.base + 1 - size;
    SlideDrained(w, n);
    assert |Packets(w.slots)| < |w.slots| by { HeadIsGap(w.slots); }
    NoPacketsInNone();
    SlideTo(w.slots, w, n, 0);
    var (v, a) := W.Slide(w, n, 0);
    SlidInserted(w, size, s, p, v, a);
  }

  lemma HeadIsGap(slots: Slots)
    requires slots != [] && slots[0].None?
    ensures |Packets(slots)| < |slots|
  {
  }

  lemma SlidInserted(w: Window, size: nat, s: Playout, p: Packet, v: Window, a: nat)
    requires w.Valid() && w.ready == [] && |w.slots| == size && v.Valid() && |v.slots| == size && Solid(v.ready)
    requires Shows(w.slots, s.base, s.held) && s.base + size <= p.frame.index < s.base + 2 * size
    requires p.frame.index - s.base + 1 - size <= a <= size && Shifted(w.slots, v.slots, a) && Held(v) == Held(w)
    requires AllSet(w.slots, p.frame.index - s.base + 1 - size, a)
    ensures InReach(size, s, p.frame.index)
    ensures Inserted(v.(slots := v.slots[p.frame.index - s.base - a := Some(p)]), size, s, p.frame, s.base + a)
  {
    hide P.Frames, Packets, Between, Solid, Shows, Shifted;
    var q, held := p.frame.index, s.held[p.frame.index := p.frame];
    assert forall x :: x in s.held ==> s.base <= x < s.base + size by { ShowsBounds(w.slots, s.base, s.held); }
    ShiftShows(w.slots, v.slots, a, s.base, s.held);
    PlaceShows(v.slots, s.base + a, From(s.held, s.base + a), p);
    assert From(s.held, s.base + a)[q := p.frame] == From(held, s.base + a);
    forall x | q + 1 - size <= x < s.base + a
      ensures x in held
    {
      ShowsAt(w.slots, s.base, s.held, x - s.base);
    }
    NoPacketsInNone();
    MovedPackets(w.slots, v.slots, a);
    assert w.slots == w.slots[..a] + w.slots[a..];
    ReadyIsFront(w.slots[..a], w.slots[a..], v.slots, v.ready);
    FrontFrames(w.slots, s.base, s.held, a);
    BetweenSame(s.held, held, s.base, s.base + a);
  }

  // ---- The rings ----

  /** The rings stand at the reference's position and show what it keeps. */
  ghost predicate Stands(r: Rings, s: Playout) {
    Good(r) && r.initialized && r.minSeqn == s.base % TWO64 && Shows(SlotSeq(r), s.base, s.held)
  }

  lemma InsertInside(r: Rings, s: Playout, p: Packet)
    requires Stands(r, s) && ReadySeq(r) == [] && Labelled(p) && s.base <= p.frame.index < s.base + r.size
    ensures var (t, verdict) := Insert(r, p);
            && verdict == Stored && Good(t) && t.size == r.size && t.initialized && t.minSeqn == r.minSeqn
            && InReach(r.size, s, p.frame.index) && Inserted(View(t), r.size, s, p.frame, s.base)
  {
    hide PowerOfTwo, SlotSeq, ReadySeq, Packets, Shows, Inserted, BitAnd;
    AdvanceDistance(s.base, p.frame.index - s.base);
    PlaceViews(r, p);
    InsideInserted(SlotSeq(r), r.size, s, p);
  }

  /** What the overflow routine leaves for a packet at this distance. */
  lemma OverflowLeaves(r: Rings, base: nat, p: Packet, offset: nat) returns (adv: nat)
    requires Good(r) && r.minSeqn == base % TWO64 && ReadySeq(r) == [] && SlotSeq(r)[0].None? && r.size >= 2
    requires p.frame.seqn == (base + offset) % TWO64 && r.size <= offset < 2 * r.size
    ensures var n := offset + 1 - r.size;
            var f := FillOverflow(r, n).0;
            && FillOverflow(r, n).1 == adv && n <= adv <= r.size
            && Good(f) && f.size == r.size && f.initialized == r.initialized
            && (View(f), adv) == W.Slide(View(r), n, 0)
            && f.minSeqn == (base + adv) % TWO64 && Sub64(p.frame.seqn, f.minSeqn) == offset - adv
  {
    hide PowerOfTwo, SlotSeq, ReadySeq, Packets, BitAnd, Reorder.Slide, W.Slide, Shifted, Solid, Held;
    var n := offset + 1 - r.size;
    SlideViews(r, n, 0);
    SlideDrained(View(r), n);
    adv := Reorder.Slide(r, n, 0).1;
    AdvanceDistance(base, adv);
    AdvanceDistance(base + adv, offset - adv);
    ViewSame(Reorder.Slide(r, n, 0).0, FillOverflow(r, n).0);
  }

  lemma InsertBeyond(r: Rings, s: Playout, p: Packet) returns (base1: nat)
    requires Stands(r, s) && ReadySeq(r) == [] && SlotSeq(r)[0].None? && Labelled(p) && r.size >= 2
    requires s.base + r.size <= p.frame.index < s.base + 2 * r.size
    ensures var (t, verdict) := Insert(r, p);
            && verdict == Stored && Good(t) && t.size == r.size && t.initialized && t.minSeqn == base1 % TWO64
            && InReach(r.size, s, p.frame.index) && Inserted(View(t), r.size, s, p.frame, base1)
  {
    hide PowerOfTwo, SlotSeq, ReadySeq, Packets, Shows, Inserted, BitAnd, W.Slide, Place, FillOverflow, InReach;
    var offset := p.frame.index - s.base;
    AdvanceDistance(s.base, offset);
    OverflowInserted(View(r), r.size, s, p);
    var adv := OverflowLeaves(r, s.base, p, offset);
    base1 := s.base + adv;
    var f := FillOverflow(r, offset + 1 - r.size).0;
    PlaceViews(f, p);
    PlaceKeepsRest(f, p);
  }

  lemma ViewSame(r: Rings, s: Rings)
    requires r.Shaped() && s == r.(minSeqn := s.minSeqn)
    ensures s.Shaped() && View(s) == View(r)
  {
  }

  lemma PlaceKeepsRest(r: Rings, p: Packet)
    requires r.Shaped()
    ensures Place(r, p) == r.(order := Place(r, p).order)
  {
  }

  /** Insertion and drain together do what the reference does. */
  lemma StorePlays(r: Rings, s: Playout, p: Packet, max: nat)
    requires Stands(r, s) && Drained(r) && Labelled(p) && InReach(r.size, s, p.frame.index)
    requires r.size >= 2 || p.frame.index < s.base + r.size
    requires Insert(r, p).1 == Stored ==> |Held(View(Insert(r, p).0))| < max
    ensures Insert(r, p).1 == Stored
    ensures var (d, out) := Reorder.Drain(Insert(r, p).0, max);
            var (t, played) := Play(r.size, Some(s), p.frame);
            P.Frames(Packets(out)) == played && Stands(d, t) && d.size == r.size
  {
    hide PowerOfTwo, SlotSeq, ReadySeq, Packets, Shows, Inserted, BitAnd, Insert, Reorder.Drain, W.Drain, Play;
    hide P.Frames, Held;
    var base1 := s.base;
    if p.frame.index < s.base + r.size {
      InsertInside(r, s, p);
    } else {
      base1 := InsertBeyond(r, s, p);
    }
    var u := Insert(r, p).0;
    DrainViews(u, max);
    DrainPlays(View(u), r.size, s, p.frame, base1, max);
    DrainShifts(View(u), max);
    AdvanceDistance(base1, Popped(View(u), max));
  }

  // ---- Whole runs ----

  /** A history, what the buffer released since it was last emptied, the reference fed with the packets
      that reached the buffer since then, and what the reference played. */
  datatype Watch = Watch(h: R.History, released: seq<Frame>, play: Option<Playout>, played: seq<Frame>)

  function Start(size: Size): (w: Watch) { Watch(R.Begin(size, R.POOL_SIZE), [], None, []) }

  function Next(w: Watch, e: R.Event): (o: Option<Watch>)
    requires w.h.now.rings.Shaped()
    ensures o.Some? ==> o.value.h.now.rings.Shaped()
  {
    match R.Next(w.h, e)
    case None => None
    case Some(k) =>
      if O.Restarts(w.h, e) then Some(Watch(k, [], None, []))
      else if O.Answer(w.h.now, e).None? then Some(w.(h := k))
      else
        var (s, out) := Play(w.h.now.rings.size, w.play, e.frame);
        var more := if O.Answer(w.h.now, e) == Some(Stored) then O.Added(w.h.now.injected, k.now.injected) else [];
        Some(Watch(k, w.released + more, Some(s), w.played + out))
  }

  function Run(w: Watch, es: seq<R.Event>): (o: Option<Watch>)
    requires w.h.now.rings.Shaped()
    decreases |es|
  {
    if es == [] then Some(w)
    else
      match Next(w, es[0])
      case None => None
      case Some(k) => Run(k, es[1..])
  }

  /** A packet that reaches the buffer carries the low 64 bits of its position, and is less than 2^64
      ahead of the reference and more than two windows short of 2^64 behind it. */
  ghost predicate Near(w: Watch, e: R.Event)
    requires w.h.now.rings.Shaped()
  {
    O.Answer(w.h.now, e).Some? ==>
      && e.frame.seqn == e.frame.index % TWO64
      && (w.play.Some? ==> && e.frame.index < w.play.value.base + TWO64
                           && w.play.value.base + 2 * w.h.now.rings.size <= e.frame.index + TWO64)
  }

  ghost predicate NearRun(w: Watch, es: seq<R.Event>)
    requires w.h.now.rings.Shaped()
    decreases |es|
  {
    es != [] ==> Near(w, es[0]) && (Next(w, es[0]).Some? ==> NearRun(Next(w, es[0]).value, es[1..]))
  }

  ghost predicate InTune(w: Watch) {
    PowerOfTwo(w.h.now.rings.size) ==>
      && w.released == w.played && (w.play.Some? <==> w.h.now.rings.initialized)
      && (w.play.Some? ==> Stands(w.h.now.rings, w.play.value))
  }

  /** An empty buffer stands wherever its first packet puts it. */
  lemma StartsAnywhere(r: Rings, p: Packet)
    requires Drained(r) && !r.initialized && Labelled(p)
    ensures Drained(Started(r, p)) && Stands(Started(r, p), Playout(p.frame.index, map[]))
    ensures Insert(r, p) == Insert(Started(r, p), p)
  {
    hide PowerOfTwo, BitAnd;
    StartedDrained(r, p);
    NoPackets(SlotSeq(r));
    Runs.InsertStarts(r, p);
  }

  /** The packet and the reference as the buffer meets them. */
  lemma ReachPlays(r: R.Receiver, play: Option<Playout>, f: Frame, entries: nat)
    requires R.Inv(r, entries) && entries < R.DRAIN_MAX && r.pool.free != [] && PowerOfTwo(r.rings.size)
    requires (play.Some? <==> r.rings.initialized) && (play.Some? ==> Stands(r.rings, play.value))
    requires f.seqn == f.index % TWO64
    requires Insert(r.rings, O.PacketFor(r, f)).1 == Stored
    requires |Held(View(Insert(r.rings, O.PacketFor(r, f)).0))| < R.DRAIN_MAX
    requires play.Some? ==> InReach(r.rings.size, play.value, f.index)
                            && (r.rings.size >= 2 || f.index < play.value.base + r.rings.size)
    ensures var (d, out) := Reorder.Drain(Insert(r.rings, O.PacketFor(r, f)).0, R.DRAIN_MAX);
            var (t, played) := Play(r.rings.size, play, f);
            P.Frames(Packets(out)) == played && Stands(d, t) && d.size == r.rings.size
  {
    hide R.Inv, Stands, Play, Insert, Reorder.Drain, P.Frames, Packets, Held, View, P.Get, PowerOfTwo;
    assert Drained(r.rings) && r.rings.Shaped() by { InvDrained(r, entries); }
    var p := O.PacketFor(r, f);
    GotFrame(r.pool, f);
    if play.Some? {
      StorePlays(r.rings, play.value, p, R.DRAIN_MAX);
    } else {
      StartsAnywhere(r.rings, p);
      assert Started(r.rings, p).size == r.rings.size;
      StorePlays(Started(r.rings, p), Playout(f.index, map[]), p, R.DRAIN_MAX);
      FirstPlay(r.rings.size, f);
    }
  }

  lemma FirstPlay(size: nat, f: Frame)
    ensures Play(size, None, f) == Play(size, Some(Playout(f.index, map[])), f)
  {
  }

  lemma GotFrame(pool: P.Pool, f: Frame)
    requires pool.free != []
    ensures P.Get(pool, f).value.1.frame == f
  {
  }

  lemma InvDrained(r: R.Receiver, entries: nat)
    requires R.Inv(r, entries) && PowerOfTwo(r.rings.size)
    ensures Drained(r.rings) && r.rings.Shaped()
  {
  }

  /** Where a near packet falls decides the answer. */
  lemma AnswerIs(r: R.Receiver, play: Option<Playout>, f: Frame, entries: nat)
    requires R.Inv(r, entries) && r.pool.free != [] && PowerOfTwo(r.rings.size)
    requires (play.Some? <==> r.rings.initialized) && (play.Some? ==> Stands(r.rings, play.value))
    requires f.seqn == f.index % TWO64
    requires play.Some? ==> f.index < play.value.base + TWO64 && play.value.base + 2 * r.rings.size <= f.index + TWO64
    ensures var verdict := Insert(r.rings, O.PacketFor(r, f)).1;
            && (verdict == OutOfRange <==> play.Some? && !InReach(r.rings.size, play.value, f.index))
            && (verdict == NoRoom <==> play.Some? && r.rings.size == 1 && f.index == play.value.base + 1)
  {
    hide R.Inv, Insert, P.Get, PowerOfTwo, Shows, Packets, SlotSeq, ReadySeq, Held, View;
    InvDrained(r, entries);
    GotFrame(r.pool, f);
    InsertTakes(r.rings, O.PacketFor(r, f));
    if play.Some? {
      Runs.OffsetIsDistance(play.value.base, f.index, r.rings.size);
    }
  }

  /** The drain may take all that is held after an insertion. */
  lemma StoredFew(r: R.Receiver, f: Frame, entries: nat, arrivals: seq<Frame>)
    requires R.Inv(r, entries) && entries < R.DRAIN_MAX && r.pool.free != [] && PowerOfTwo(r.rings.size)
    requires P.Subsequence(P.Frames(r.pool.used), arrivals) && Insert(r.rings, O.PacketFor(r, f)).1 == Stored
    ensures |Held(View(Insert(r.rings, O.PacketFor(r, f)).0))| < R.DRAIN_MAX
  {
    hide R.Inv, Insert, P.Subsequence, P.Valid, PowerOfTwo, Held, View, H.Inside, Loaded;
    var (pool, p) := P.Get(r.pool, f).value;
    R.InvBasics(r, entries);
    R.StoredReady(r, f, entries, arrivals);
    var t := Insert(r.rings, p).0;
    H.InsertKeeps(r.rings, p);
    R.InsideFew(r.(pool := pool, rings := t), entries);
    R.LoadedGood(t);
    H.InsideIsHeld(t);
    assert |multiset(Held(View(t)))| == |Held(View(t))|;
  }

  lemma StoredInTune(w: Watch, e: R.Event, entries: nat)
    requires w.h.now.rings.Shaped() && R.Sound(w.h, entries) && entries < R.DRAIN_MAX && InTune(w) && Near(w, e)
    requires O.Answer(w.h.now, e) == Some(Stored)
    ensures Next(w, e).Some? && InTune(Next(w, e).value)
  {
    hide R.Inv, R.RecvData, Insert, Reorder.Drain, P.Subsequence, P.Get, P.Frames, Packets, PowerOfTwo, Stands;
    hide Play, Held, View;
    var r, f := w.h.now, e.frame;
    R.InvBasics(r, entries);
    R.StoredKeeps(r, f, entries, w.h.order);
    O.InsertSize(r.rings, O.PacketFor(r, f));
    if PowerOfTwo(r.rings.size) {
      AnswerIs(r, w.play, f, entries);
      StoredFew(r, f, entries, w.h.order);
      assert w.play.Some? && r.rings.size == 1 ==> f.index < w.play.value.base + 1;
      ReachPlays(r, w.play, f, entries);
      var out := Reorder.Drain(Insert(r.rings, O.PacketFor(r, f)).0, R.DRAIN_MAX).1;
      assert (r.injected + P.Frames(Packets(out)))[|r.injected|..] == P.Frames(Packets(out));
      StandsBasics(Next(w, e).value.h.now.rings, Play(r.rings.size, w.play, f).0);
    }
  }

  lemma StandsBasics(r: Rings, s: Playout)
    requires Stands(r, s)
    ensures r.initialized
  {
  }

  lemma StrayInTune(w: Watch, e: R.Event, entries: nat)
    requires w.h.now.rings.Shaped() && R.Sound(w.h, entries) && entries < R.DRAIN_MAX && InTune(w) && Near(w, e)
    requires O.Answer(w.h.now, e) == Some(OutOfRange)
    ensures Next(w, e).Some? && InTune(Next(w, e).value)
  {
    hide R.Inv, R.RecvData, Insert, P.Subsequence, P.Get, PowerOfTwo, Stands, R.Accounted, FirstGap, Between;
    var r, f := w.h.now, e.frame;
    R.InvBasics(r, entries);
    R.StrayIsOutOfRange(r, f, entries);
    R.StrayKeeps(r, f, entries, w.h.order);
    if PowerOfTwo(r.rings.size) {
      AnswerIs(r, w.play, f, entries);
      assert Play(r.rings.size, w.play, f) == (w.play.value, []);
      assert w.released + [] == w.released && w.played + [] == w.played;
    }
  }

  lemma FreshInTune(w: Watch, size: nat)
    requires 0 < size <= MAX_SIZE && w.h.now.rings == Reorder.Init(size)
    requires w.released == [] && w.played == [] && w.play == None
    ensures InTune(w)
  {
  }

  lemma OtherInTune(w: Watch, e: R.Event, entries: nat)
    requires w.h.now.rings.Shaped() && R.Sound(w.h, entries) && entries < R.DRAIN_MAX && InTune(w)
    requires O.Answer(w.h.now, e).None? || O.Restarts(w.h, e)
    ensures Next(w, e).Some? && InTune(Next(w, e).value)
  {
    hide R.Inv, R.RecvData, R.DrainForced, Insert, P.Subsequence, P.Get, PowerOfTwo, Stands, R.Accounted;
    hide Reorder.Init, InTune;
    var r := w.h.now;
    R.InvBasics(r, entries);
    match e
    case Forced =>
      R.ForcedEmpties(r, entries);
      FreshInTune(Next(w, e).value, r.rings.size);
    case Resize(size) =>
      if O.Restarts(w.h, e) {
        FreshInTune(Next(w, e).value, size);
      } else {
        SameInTune(w, Next(w, e).value);
      }
    case Data(f, reorder) =>
      if O.Answer(r, e).None? {
        R.DirectKeeps(r, f, reorder, entries, w.h.order);
        SameInTune(w, Next(w, e).value);
      } else {
        R.RefusedKeeps(r, f, entries, w.h.order);
        FreshInTune(Next(w, e).value, r.rings.size);
      }
  }

  lemma SameInTune(w: Watch, v: Watch)
    requires InTune(w) && v.h.now.rings == w.h.now.rings && v == w.(h := v.h)
    ensures InTune(v)
  {
  }

  lemma {:induction false} RunInTune(w: Watch, es: seq<R.Event>, entries: nat)
    requires w.h.now.rings.Shaped() && R.Sound(w.h, entries) && entries < R.DRAIN_MAX && InTune(w) && NearRun(w, es)
    ensures Run(w, es).Some? && InTune(Run(w, es).value) && R.Run(w.h, es) == Some(Run(w, es).value.h)
    decreases |es|
  {
    hide R.Sound, InTune, Near, Next, R.Next, O.Answer, O.Restarts;
    if es != [] {
      StepInTune(w, es[0], entries);
      R.NextSound(w.h, es[0], entries);
      NextHistory(w, es[0]);
      RunInTune(Next(w, es[0]).value, es[1..], entries);
    }
  }

  lemma StepInTune(w: Watch, e: R.Event, entries: nat)
    requires w.h.now.rings.Shaped() && R.Sound(w.h, entries) && entries < R.DRAIN_MAX && InTune(w) && Near(w, e)
    ensures Next(w, e).Some? && InTune(Next(w, e).value)
  {
    hide R.Sound, InTune, Near, Next, R.Next, Insert;
    match O.Answer(w.h.now, e)
    case Some(Stored) => StoredInTune(w, e, entries);
    case Some(OutOfRange) => StrayInTune(w, e, entries);
    case Some(NoRoom) => OtherInTune(w, e, entries);
    case None => OtherInTune(w, e, entries);
  }

  lemma NextHistory(w: Watch, e: R.Event)
    requires w.h.now.rings.Shaped() && Next(w, e).Some?
    ensures R.Next(w.h, e) == Some(Next(w, e).value.h)
  {
    hide R.Next, O.Answer, O.Restarts, Play;
  }

  /** In every run, whatever its losses, overtakings, duplicates, strays, full pools, forced drains and
      reloads: what a buffer whose size is a power of two released since it was last emptied is exactly
      what the reference plays for the packets that reached the buffer since then. */
  lemma RefinesPlayout(size: nat, es: seq<R.Event>)
    requires 0 < size <= MAX_SIZE && NearRun(Start(size), es)
    ensures Run(Start(size), es).Some?
    ensures var w := Run(Start(size), es).value;
            && R.Run(R.Begin(size, R.POOL_SIZE), es) == Some(w.h)
            && (PowerOfTwo(w.h.now.rings.size) ==> w.released == w.played)
  {
    hide R.Sound, R.Run, Run, NearRun, R.Begin, Reorder.Init, PowerOfTwo;
    R.BeginSound(size);
    O.BeginRings(size);
    FreshInTune(Start(size), size);
    RunInTune(Start(size), es, R.POOL_SIZE);
  }
}
