/** Inserting into a fully drained reorder buffer whose size is a power of two: exactly when it is
    refused, and that it loses nothing but a packet of the same sequence number. */
module ReorderLoss {
  import opened Words
  import opened Ring
  import opened Reorder
  import opened W = Window

  /** Slot i is empty or holds the packet numbered start + i. */
  ghost predicate Aligned(slots: Slots, start: U64) {
    forall i :: 0 <= i < |slots| && slots[i].Some? ==> slots[i].value.frame.seqn == Add64(start, i)
  }

  /** How a full drain leaves the buffer: nothing is ready and the lowest number is missing. */
  ghost predicate Drained(r: Rings) {
    && Good(r) && ReadySeq(r) == [] && SlotSeq(r)[0].None?
    && Aligned(SlotSeq(r), r.minSeqn)
    && (!r.initialized ==> Packets(SlotSeq(r)) == [])
  }

  /** The packet an insertion overwrites, if any. */
  function Displaced(r: Rings, p: Packet): (d: Option<Packet>)
    requires r.Shaped()
  {
    var offset := Sub64(p.frame.seqn, Started(r, p).minSeqn);
    if offset < r.size then SlotSeq(r)[offset] else None
  }

  lemma ShiftAligned(from: Slots, slots: Slots, adv: nat, start: U64)
    requires Shifted(from, slots, adv) && Aligned(from, start)
    ensures Aligned(slots, Add64(start, adv))
  {
    forall i | 0 <= i < |slots| && slots[i].Some?
      ensures slots[i].value.frame.seqn == Add64(Add64(start, adv), i)
    {
      AddAdd64(start, adv, i);
    }
  }

  lemma PlaceAligned(slots: Slots, start: U64, p: Packet)
    requires Aligned(slots, start) && Sub64(p.frame.seqn, start) < |slots|
    ensures Aligned(slots[Sub64(p.frame.seqn, start) := Some(p)], start)
    ensures var d := slots[Sub64(p.frame.seqn, start)];
            d.Some? ==> d.value.frame.seqn == p.frame.seqn
  {
    UnwrapLands(start, p.frame.seqn);
  }

  /** In use, with every slot at its number and every ready pointer set. */
  ghost predicate Loaded(r: Rings) {
    Good(r) && r.initialized && Aligned(SlotSeq(r), r.minSeqn) && Solid(ReadySeq(r))
  }

  /** A place within the window after the insertion: what the caller can rely on. */
  ghost predicate Took(r: Rings, s: Rings, p: Packet)
    requires r.Shaped()
  {
    && Loaded(s) && s.size == r.size
    && multiset(Held(View(s))) + Bag(Displaced(r, p)) == multiset(Held(View(r))) + multiset{p}
    && (Displaced(r, p).Some? ==> Displaced(r, p).value.frame.seqn == p.frame.seqn)
  }

  lemma PlaceTakes(r: Rings, p: Packet)
    requires Loaded(r) && Sub64(p.frame.seqn, r.minSeqn) < r.size
    ensures Took(r, Place(r, p), p)
  {
    hide BitAnd, PowerOfTwo, Unroll, Queue, Packets, Aligned;
    var slots, at := SlotSeq(r), Sub64(p.frame.seqn, r.minSeqn);
    PlaceViews(r, p);
    PlaceAligned(slots, r.minSeqn, p);
    WritePackets(slots, at, Some(p));
    var s := Place(r, p);
    assert s == r.(order := s.order) && SlotSeq(s) == slots[at := Some(p)] && ReadySeq(s) == ReadySeq(r);
    assert multiset(Held(View(r))) == multiset(Packets(ReadySeq(r))) + multiset(Packets(slots));
    assert multiset(Held(View(s))) == multiset(Packets(ReadySeq(s))) + multiset(Packets(SlotSeq(s)));
    var ready, before, after := multiset(Packets(ReadySeq(r))), multiset(Packets(slots)), multiset(Packets(SlotSeq(s)));
    assert after + Bag(slots[at]) == before + multiset{p};
    assert ready + after + Bag(slots[at]) == ready + (after + Bag(slots[at])) == ready + before + multiset{p};
  }

  /** From a drained window, sliding passes all the positions asked for and loses nothing. */
  lemma SlideDrained(w: Window, n: nat)
    requires w.Valid() && w.ready == [] && w.slots[0].None? && |w.slots| >= 2 && n <= |w.slots|
    ensures var (v, a) := W.Slide(w, n, 0);
            n <= a <= |w.slots| && Shifted(w.slots, v.slots, a) && Solid(v.ready) && Held(v) == Held(w)
  {
    hide W.Slide, Placed;
    assert |Packets(w.slots)| < |w.slots|;
    SlideConserves(w, n, 0);
    SlideShifts(w.slots, w, 0, [], n, 0);
  }

  ghost predicate MadeRoom(r: Rings, p: Packet, o: (Rings, nat))
    requires r.Shaped()
  {
    var (s, adv) := o;
    var offset := Sub64(p.frame.seqn, r.minSeqn);
    && offset + 1 - r.size <= adv <= r.size <= offset && Good(s) && s.size == r.size && s.initialized
    && Sub64(p.frame.seqn, s.minSeqn) == offset - adv
    && SlotSeq(s)[offset - adv].None?
    && Aligned(SlotSeq(s), s.minSeqn) && Solid(ReadySeq(s)) && Held(View(s)) == Held(View(r))
  }

  /** Sliding a drained window past a gap: all the positions asked for, no packet lost, and the
      slot of the packet that forced it is free. */
  lemma OverflowTakes(r: Rings, p: Packet)
    requires Drained(r) && r.initialized && r.size >= 2
    requires r.size <= Sub64(p.frame.seqn, r.minSeqn) < 2 * r.size
    ensures MadeRoom(r, p, FillOverflow(r, Sub64(p.frame.seqn, r.minSeqn) + 1 - r.size))
  {
    hide BitAnd, PowerOfTwo, Unroll, Queue, Packets, Aligned, Reorder.Slide, W.Slide, Add64, Sub64;
    var w, offset := View(r), Sub64(p.frame.seqn, r.minSeqn);
    var n := offset + 1 - r.size;
    SlideDrained(w, n);
    SlideViews(r, n, 0);
    var (s, adv) := Reorder.Slide(r, n, 0);
    ShiftAligned(w.slots, SlotSeq(s), adv, r.minSeqn);
    OffsetAfter(r.minSeqn, p.frame.seqn, adv);
  }

  lemma OffsetAfter(start: U64, seqn: U64, adv: nat)
    requires adv <= Sub64(seqn, start)
    ensures Sub64(seqn, Add64(start, adv)) == Sub64(seqn, start) - adv
  {
  }

  /** With size 1 the ready ring has no place at all. */
  lemma SizeOneFull(r: Rings)
    requires r.Shaped() && r.size == 1
    ensures FillOverflow(r, 1).1 == 0
  {
  }

  /** From a drained buffer an insertion is refused exactly if the size is 1 and one number is
      skipped, and is out of range exactly two windows ahead; otherwise it loses no packet. */
  lemma InsertTakes(r: Rings, p: Packet)
    requires Drained(r)
    ensures var offset := Sub64(p.frame.seqn, r.minSeqn);
            && (Insert(r, p).1 == NoRoom <==> r.initialized && r.size == 1 && offset == 1)
            && (Insert(r, p).1 == OutOfRange <==> r.initialized && offset >= 2 * r.size)
    ensures Insert(r, p).1 == Stored ==> Took(r, Insert(r, p).0, p)
    ensures Insert(r, p).1 == OutOfRange ==> Insert(r, p).0 == r
  {
    hide BitAnd, PowerOfTwo, SlotSeq, ReadySeq, Packets, Aligned, Solid, Held, View, Place, FillOverflow;
    var s := Started(r, p);
    StartedDrained(r, p);
    var offset := Sub64(p.frame.seqn, s.minSeqn);
    if offset < s.size {
      PlaceTakes(s, p);
    } else if offset < 2 * s.size && s.size == 1 {
      SizeOneFull(s);
    } else if offset < 2 * s.size {
      OverflowTakes(s, p);
      var (t, _) := FillOverflow(s, offset + 1 - s.size);
      PlaceTakes(t, p);
    }
  }

  lemma StartedDrained(r: Rings, p: Packet)
    requires Drained(r)
    ensures var s := Started(r, p);
            && Drained(s) && View(s) == View(r) && Solid(ReadySeq(s)) && Displaced(s, p) == Displaced(r, p)
  {
    hide BitAnd, PowerOfTwo;
    if !r.initialized {
      NoPackets(SlotSeq(r));
    }
  }

  /** A drain that may take more than is held leaves the buffer drained again. */
  lemma DrainDrains(r: Rings, max: nat)
    requires Loaded(r) && |Held(View(r))| < max
    ensures var (s, out) := Reorder.Drain(r, max);
            && Drained(s) && s.size == r.size && s.initialized
            && Held(View(r)) == Packets(out) + Held(View(s)) && Solid(out)
  {
    hide BitAnd, PowerOfTwo, Unroll, Queue, Packets, Aligned, Reorder.Drain, W.Drain;
    DrainViews(r, max);
    DrainConserves(View(r), max);
    DrainShifts(View(r), max);
    ShiftAligned(SlotSeq(r), SlotSeq(Reorder.Drain(r, max).0), Popped(View(r), max), r.minSeqn);
  }
}
