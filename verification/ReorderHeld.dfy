/** What the reorder buffer holds, for every ring size: an insertion adds at most its packet, and a
    drain splits what is held into what comes out and what stays. */
module ReorderHeld {
  import opened Words
  import opened Ring
  import opened Reorder
  import W = Window

  /** The places of the ready ring its indices reach: the lowest bit missing from the mask. */
  function Span(r: Rings): (p: nat)
    requires r.Shaped()
    ensures 0 < p <= r.size
  {
    LowestClearBound(r.size - 1);
    LowestClear(r.size - 1)
  }

  /** Masking steps once around the reachable places. */
  lemma SpanStep(r: Rings, i: nat)
    requires r.Shaped() && i < Span(r)
    ensures r.Masked(i + 1) == Next(i, Span(r))
  {
    if i + 1 < Span(r) {
      MaskKeepsBelow(i + 1, r.size - 1);
    } else {
      LowestClearMasksOut(r.size - 1);
    }
  }

  predicate InSpan(r: Rings) { r.Shaped() && r.oHead < Span(r) && r.rHead < Span(r) && r.rTail < Span(r) }

  function Queued(r: Rings): (s: Slots)
    requires InSpan(r)
  {
    Queue(r.ready[..Span(r)], r.rTail, r.rHead)
  }

  /** The indices stay where masking reaches, and every queued pointer is set. */
  ghost predicate Sane(r: Rings) { InSpan(r) && W.Solid(Queued(r)) }

  /** How a drain that may take enough leaves the buffer: nothing queued and a gap at the head. */
  predicate Settled(r: Rings) { InSpan(r) && r.rTail == r.rHead && r.order[r.oHead].None? }

  /** Everything that can still come out, with multiplicity. */
  ghost function Inside(r: Rings): (m: multiset<Packet>)
    requires InSpan(r)
  {
    multiset(W.Packets(Queued(r))) + multiset(W.Packets(r.order))
  }

  /** A step that keeps the buffer sane and adds nothing. */
  ghost predicate Within(r: Rings, s: Rings) {
    Sane(r) && Sane(s) && s.size == r.size && s.initialized == r.initialized && Inside(s) <= Inside(r)
  }

  lemma SaneShaped(r: Rings)
    requires Sane(r)
    ensures r.Shaped()
  {
  }

  lemma ClearPackets(slots: Slots, i: nat)
    requires i < |slots|
    ensures multiset(W.Packets(slots[i := None])) + W.Bag(slots[i]) == multiset(W.Packets(slots))
  {
    W.WritePackets(slots, i, None);
  }

  // ---- Insertion ----

  /** Queueing the head packet, or dropping it when the ready ring is full. */
  lemma QueuedMoves(r: Rings)
    requires Sane(r)
    ensures var m, x := Moved(r), r.order[r.oHead];
            && m.order == r.order[r.oHead := None] && m.size == r.size && m.initialized == r.initialized && InSpan(m)
            && (Queued(m) == Queued(r) || Queued(m) == Queued(r) + [x])
  {
    hide BitAnd, LowestClear, Queue, W.Packets;
    var x, p := r.order[r.oHead], Span(r);
    var places := r.ready[..p];
    assert r.ready[r.rHead := x][..p] == places[r.rHead := x];
    SpanStep(r, r.oHead);
    SpanStep(r, r.rHead);
    QueueKeeps(places, r.rTail, r.rHead, x);
    if !r.ReadyFull() {
      QueuePush(places, r.rTail, r.rHead, x);
    }
  }

  lemma MoveKeeps(r: Rings)
    requires Sane(r) && r.order[r.oHead].Some?
    ensures Within(r, Moved(r)) && |W.Packets(Moved(r).order)| < |W.Packets(r.order)|
  {
    hide BitAnd, LowestClear, Queue, W.Packets, Queued, Moved;
    var x := r.order[r.oHead];
    QueuedMoves(r);
    ClearPackets(r.order, r.oHead);
    W.PacketsAppend(Queued(r), [x]);
    W.OnePacket(x);
    TakenOut(r.order, r.oHead);
    assert |W.Packets(Queued(r)) + W.Packets([x])| == |Queued(r)| + |multiset(W.Packets([x]))|;
  }

  lemma {:induction false} MoveRunKeeps(r: Rings, adv: nat)
    requires Sane(r)
    ensures Within(r, MoveRun(r, adv).0)
    decreases |W.Packets(r.order)|
  {
    hide BitAnd, Sane, Inside, W.Packets, MoveHead, ClaimReady;
    SaneShaped(r);
    if r.order[r.oHead].Some? {
      MoveKeeps(r);
      assert MoveHead(r).ReadyFull() ==> MoveRun(r, adv).0 == Moved(r);
      if !MoveHead(r).ReadyFull() {
        MoveRunKeeps(Moved(r), adv + 1);
      }
    }
  }

  lemma SkipKeeps(r: Rings)
    requires Sane(r)
    ensures Within(r, SkipGap(r))
  {
    SpanStep(r, r.oHead);
  }

  lemma {:induction false} SlideKeeps(r: Rings, n: nat, adv: nat)
    requires Sane(r)
    ensures Within(r, Slide(r, n, adv).0)
    decreases n - adv
  {
    hide BitAnd, Sane, Inside, W.Packets, MoveRun, SkipGap;
    SaneShaped(r);
    if adv < n && !r.ReadyFull() {
      var (s, a) := if r.order[r.oHead].None? then (SkipGap(r), adv + 1) else (r, adv);
      SkipKeeps(r);
      MoveRunKeeps(s, a);
      var (t, b) := MoveRun(s, a);
      SlideKeeps(t, n, b);
    }
  }

  lemma PlaceKeeps(r: Rings, p: Packet)
    requires Sane(r)
    ensures var s := Place(r, p);
            && Sane(s) && s.size == r.size && s.initialized == r.initialized
            && Inside(s) <= Inside(r) + multiset{p}
  {
    hide BitAnd, LowestClear, Queue, W.Packets;
    var s := Place(r, p);
    var at := r.Masked(r.oHead + Sub64(p.frame.seqn, r.minSeqn));
    W.WritePackets(r.order, at, Some(p));
    assert Queued(s) == Queued(r);
    var ready := multiset(W.Packets(Queued(r)));
    var before, after := multiset(W.Packets(r.order)), multiset(W.Packets(s.order));
    assert after <= before + multiset{p};
    assert ready + after <= ready + (before + multiset{p}) == ready + before + multiset{p};
  }

  lemma InsideSame(r: Rings, s: Rings)
    requires Sane(r) && s == r.(minSeqn := s.minSeqn, initialized := s.initialized)
    ensures Sane(s) && Inside(s) == Inside(r)
  {
    hide LowestClear, Queue, W.Packets;
    assert Queued(s) == Queued(r);
  }

  /** Whatever the size, an insertion never holds more than before and the packet inserted, and
      answers "out of range" exactly two windows or more ahead of the lowest number. */
  lemma InsertKeeps(r: Rings, p: Packet)
    requires Sane(r)
    ensures var (s, verdict) := Insert(r, p);
            && Sane(s) && s.size == r.size && s.initialized && Inside(s) <= Inside(r) + multiset{p}
            && (verdict == OutOfRange <==> r.initialized && Sub64(p.frame.seqn, r.minSeqn) >= 2 * r.size)
            && (verdict == OutOfRange ==> s == r)
  {
    hide BitAnd, Sane, Inside, Place, Slide;
    var s := Started(r, p);
    InsideSame(r, s);
    SaneShaped(r);
    var offset := Sub64(p.frame.seqn, s.minSeqn);
    if offset < s.size {
      PlaceKeeps(s, p);
    } else if offset < 2 * s.size {
      var n := offset + 1 - s.size;
      SlideKeeps(s, n, 0);
      var t := FillOverflow(s, n).0;
      InsideSame(Slide(s, n, 0).0, t);
      PlaceKeeps(t, p);
    }
  }

  // ---- Draining ----

  lemma {:induction false} DrainReadySplits(r: Rings, max: nat)
    requires InSpan(r)
    ensures var (s, out) := DrainReady(r, max);
            && InSpan(s) && s == r.(rTail := s.rTail)
            && out + Queued(s) == Queued(r) && (|out| < max ==> Queued(s) == [])
    decreases max
  {
    hide BitAnd, LowestClear, Queue;
    if max == 0 || r.rTail == r.rHead {
      assert [] + Queued(r) == Queued(r);
    } else {
      SpanStep(r, r.rTail);
      QueuePop(r.ready[..Span(r)], r.rTail, r.rHead);
      var t := TakeReady(r);
      DrainReadySplits(t, max - 1);
      var (s, out) := DrainReady(t, max - 1);
      ConsSplit(r.ready[r.rTail], out, Queued(s), Queued(t));
    }
  }

  lemma SolidCons(x: Option<Packet>, out: Slots)
    requires x.Some? && W.Solid(out)
    ensures W.Solid([x] + out) && multiset(W.Packets([x] + out)) == W.Bag(x) + multiset(W.Packets(out))
  {
    assert ([x] + out)[1..] == out;
  }

  lemma {:induction false} DrainOrderSplits(r: Rings, max: nat)
    requires InSpan(r)
    ensures var (s, out) := DrainOrder(r, max);
            && s == r.(order := s.order, oHead := s.oHead, minSeqn := s.minSeqn) && InSpan(s)
            && multiset(W.Packets(r.order)) == multiset(W.Packets(out)) + multiset(W.Packets(s.order))
            && W.Solid(out) && (|out| < max ==> s.order[s.oHead].None?)
    decreases max
  {
    hide BitAnd, W.Packets, Add64;
    if max == 0 || r.order[r.oHead].None? {
      W.NoPacketsInNone();
    } else {
      ClearPackets(r.order, r.oHead);
      SpanStep(r, r.oHead);
      DrainOrderSplits(TakeHead(r), max - 1);
      SolidCons(r.order[r.oHead], DrainOrder(TakeHead(r), max - 1).1);
    }
  }

  /** Whatever the size, draining splits what is held into what comes out and what stays; every
      pointer that comes out is set, and with enough room nothing is left ready and the lowest
      number is missing. */
  lemma DrainSplits(r: Rings, max: nat)
    requires Sane(r)
    ensures var (s, out) := Drain(r, max);
            && Sane(s) && s.size == r.size && s.initialized == r.initialized
            && Inside(r) == multiset(W.Packets(out)) + Inside(s) && |W.Packets(out)| == |out|
            && (|out| < max ==> Settled(s))
  {
    hide BitAnd, LowestClear, Queue, W.Packets, DrainReady, DrainOrder;
    var (s, a) := DrainReady(r, max);
    DrainReadySplits(r, max);
    var (t, b) := DrainOrder(s, max - |a|);
    DrainOrderSplits(s, max - |a|);
    W.PacketsAppend(a, Queued(s));
    W.PacketsAppend(a, b);
    assert Queued(t) == Queued(s);
  }

  // ---- The two accounts agree ----

  /** For a power of two the masked rings hold what the unrolled window holds. */
  lemma InsideIsHeld(r: Rings)
    requires Good(r)
    ensures InSpan(r) && Queued(r) == ReadySeq(r) && Inside(r) == multiset(W.Held(View(r)))
  {
    hide BitAnd, LowestClear, PowerOfTwo, Queue, W.Packets;
    LowestClearBound(r.size - 1);
    assert r.ready[..r.size] == r.ready;
    W.PacketsAppend(r.order[..r.oHead], r.order[r.oHead..]);
    W.PacketsAppend(r.order[r.oHead..], r.order[..r.oHead]);
    assert r.order == r.order[..r.oHead] + r.order[r.oHead..];
  }

  /** A new buffer holds nothing. */
  lemma InitHoldsNothing(size: nat)
    requires 0 < size <= MAX_SIZE
    ensures Sane(Init(size)) && Settled(Init(size)) && Inside(Init(size)) == multiset{} && Init(size).size == size
  {
    hide LowestClear;
    var r := Init(size);
    W.NoPackets(r.order);
    W.NoPacketsInNone();
    assert Queued(r) == [];
  }
}
