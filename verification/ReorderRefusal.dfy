/** When an insertion is refused for lack of room, exactly and for every ring size. */
module ReorderRefusal {
  import opened Words
  import opened Ring
  import opened Reorder
  import H = ReorderHeld
  import W = Window

  // ---- The unrolled window ----

  /** As long as fewer packets are held than the ready ring takes, sliding passes all positions. */
  lemma {:induction false} SlideReaches(w: W.Window, n: nat, adv: nat)
    requires w.Valid() && W.Solid(w.ready) && |W.Held(w)| + 1 < |w.slots|
    ensures W.Slide(w, n, adv).1 >= n
    decreases n - adv
  {
    if adv < n {
      var (v, a) := if w.slots[0].None? then (w.(slots := W.Pass(w.slots)), adv + 1) else (w, adv);
      W.PassPackets(w.slots);
      W.MoveRunConserves(v, a);
      var (u, b) := W.MoveRun(v, a);
      SlideReaches(u, n, b);
    }
  }

  /** The inner loop moves m packets in a row when there is a place for each. */
  lemma {:induction false} MoveRunAll(w: W.Window, m: nat, adv: nat)
    requires w.Valid() && |w.ready| + m < |w.slots| && w.slots[m].None?
    requires forall i :: 0 <= i < m ==> w.slots[i].Some?
    ensures W.MoveRun(w, adv).1 == adv + m && |W.MoveRun(w, adv).0.ready| == |w.ready| + m
    decreases m
  {
    if m > 0 {
      MoveRunAll(W.Move(w), m - 1, adv + 1);
    }
  }

  ghost predicate Crowded(slots: Slots) { forall i :: 1 <= i < |slots| ==> slots[i].Some? }

  /** With only the head missing, one round fills the ready ring and stops there. */
  lemma SlideStops(w: W.Window, n: nat)
    requires w.Valid() && w.ready == [] && w.slots[0].None? && |w.slots| > 1 && Crowded(w.slots) && n > 0
    ensures W.Slide(w, n, 0).1 == |w.slots|
  {
    var v := w.(slots := W.Pass(w.slots));
    assert forall i :: 0 <= i < |w.slots| - 1 ==> v.slots[i] == w.slots[i + 1];
    MoveRunAll(v, |w.slots| - 1, 1);
    var (u, b) := W.MoveRun(v, 1);
    assert u.Full();
  }

  lemma {:induction false} SolidIff(s: Slots)
    ensures W.Solid(s) <==> forall i :: 0 <= i < |s| ==> s[i].Some?
  {
    if s != [] {
      SolidIff(s[1..]);
      assert s == [s[0]] + s[1..];
    }
  }

  /** How far a drained window slides, exactly. */
  lemma SlideCount(w: W.Window, n: nat)
    requires w.Valid() && w.ready == [] && w.slots[0].None? && n > 0
    ensures W.Slide(w, n, 0).1 < n <==> |w.slots| == 1 || (Crowded(w.slots) && n > |w.slots|)
  {
    hide W.Packets;
    if |w.slots| > 1 {
      if Crowded(w.slots) {
        SlideStops(w, n);
      } else {
        assert |W.Packets(w.slots)| == |W.Packets(w.slots[1..])| by { HeadMissing(w.slots); }
        SolidIff(w.slots[1..]);
        W.NoPacketsInNone();
        assert exists i :: 0 <= i < |w.slots[1..]| && w.slots[1..][i].None? by {
          var i :| 1 <= i < |w.slots| && w.slots[i].None?;
          assert w.slots[1..][i - 1].None?;
        }
        SlideReaches(w, n, 0);
      }
    }
  }

  lemma HeadMissing(slots: Slots)
    requires slots != [] && slots[0].None?
    ensures W.Packets(slots) == W.Packets(slots[1..])
  {
  }

  // ---- The reachable part of the rings ----

  /** The places the indices reach, a ring whose size is a power of two. */
  function Inner(r: Rings): (s: Rings)
    requires H.InSpan(r)
    ensures s.Shaped() && s.size == H.Span(r)
  {
    var p := H.Span(r);
    r.(size := p, order := r.order[..p], ready := r.ready[..p])
  }

  lemma InnerGood(r: Rings)
    requires H.InSpan(r)
    ensures Good(Inner(r))
  {
    LowestClearIsPower(r.size - 1);
  }

  /** Both rings step alike and are full alike. */
  lemma InnerSteps(r: Rings)
    requires H.InSpan(r)
    ensures r.Masked(r.oHead + 1) == Inner(r).Masked(r.oHead + 1) < H.Span(r)
    ensures r.Masked(r.rHead + 1) == Inner(r).Masked(r.rHead + 1) < H.Span(r)
    ensures r.ReadyFull() == Inner(r).ReadyFull()
  {
    hide BitAnd, LowestClear, PowerOfTwo;
    InnerGood(r);
    H.SpanStep(r, r.oHead);
    H.SpanStep(r, r.rHead);
    MaskedStep(Inner(r), r.oHead);
    MaskedStep(Inner(r), r.rHead);
  }

  /** The same operation on the reachable part. */
  ghost predicate Mirrors(r: Rings, s: Rings, t: Rings) {
    H.InSpan(r) && H.InSpan(s) && s.size == r.size && t == Inner(s)
  }

  lemma InnerMoved(r: Rings)
    requires H.InSpan(r)
    ensures Mirrors(r, Moved(r), Moved(Inner(r))) && MoveHead(r).ReadyFull() == MoveHead(Inner(r)).ReadyFull()
  {
    hide BitAnd, LowestClear;
    var p := H.Span(r);
    InnerSteps(r);
    InnerSteps(MoveHead(r));
    assert r.ready[r.rHead := r.order[r.oHead]][..p] == r.ready[..p][r.rHead := r.order[r.oHead]];
    assert r.order[r.oHead := None][..p] == r.order[..p][r.oHead := None];
  }

  lemma InnerSkip(r: Rings)
    requires H.InSpan(r)
    ensures Mirrors(r, SkipGap(r), SkipGap(Inner(r)))
  {
    hide BitAnd, LowestClear;
    InnerSteps(r);
  }

  lemma {:induction false} InnerMoveRun(r: Rings, adv: nat)
    requires H.InSpan(r)
    ensures var (s, a) := MoveRun(r, adv);
            var (t, b) := MoveRun(Inner(r), adv);
            Mirrors(r, s, t) && a == b
    decreases |W.Packets(r.order)|
  {
    hide BitAnd, LowestClear, W.Packets, MoveHead, ClaimReady;
    if r.order[r.oHead].Some? {
      TakenOut(r.order, r.oHead);
      InnerMoved(r);
      assert Moved(r).order == r.order[r.oHead := None] by { MovedOrder(r); }
      if !MoveHead(r).ReadyFull() {
        InnerMoveRun(Moved(r), adv + 1);
      }
    }
  }

  lemma MovedOrder(r: Rings)
    requires r.Shaped()
    ensures Moved(r).order == r.order[r.oHead := None]
  {
  }

  lemma {:induction false} InnerSlide(r: Rings, n: nat, adv: nat)
    requires H.InSpan(r)
    ensures Slide(r, n, adv).1 == Slide(Inner(r), n, adv).1
    decreases n - adv
  {
    hide BitAnd, LowestClear, MoveRun, SkipGap;
    InnerSteps(r);
    if adv < n && !r.ReadyFull() {
      var (s, a) := if r.order[r.oHead].None? then (SkipGap(r), adv + 1) else (r, adv);
      InnerSkip(r);
      InnerMoveRun(s, a);
      var (t, b) := MoveRun(s, a);
      InnerSlide(t, n, b);
    }
  }

  // ---- Refusal ----

  /** Every reachable slot but the head's is taken. */
  ghost predicate Packed(r: Rings)
    requires r.Shaped()
  {
    forall i :: 0 <= i < H.Span(r) && i != r.oHead ==> r.order[i].Some?
  }

  lemma PackedCrowds(r: Rings)
    requires H.InSpan(r)
    ensures Packed(r) <==> Crowded(SlotSeq(Inner(r)))
  {
    hide LowestClear;
    var slots, p := SlotSeq(Inner(r)), H.Span(r);
    assert forall k :: 0 <= k < p ==> slots[k] == r.order[if r.oHead + k < p then r.oHead + k else r.oHead + k - p];
    if Crowded(slots) {
      forall i | 0 <= i < p && i != r.oHead
        ensures r.order[i].Some?
      {
        var k := if i > r.oHead then i - r.oHead else i - r.oHead + p;
        assert slots[k] == r.order[i];
      }
    }
  }

  lemma OverflowCount(r: Rings, n: nat)
    requires H.Settled(r) && n > 0
    ensures FillOverflow(r, n).1 < n <==> H.Span(r) == 1 || (Packed(r) && n > H.Span(r))
  {
    hide BitAnd, LowestClear, PowerOfTwo, Slide, W.Slide, SlotSeq, Packed, Crowded;
    InnerGood(r);
    InnerSlide(r, n, 0);
    SlideViews(Inner(r), n, 0);
    SlideCount(View(Inner(r)), n);
    PackedCrowds(r);
  }

  /** Whatever the size, a drained buffer refuses a packet if and only if the packet is one window ahead
      or more but less than two, and either the indices reach a single place, as with every odd size, or
      every place they reach is taken and more positions than that have to be passed. */
  lemma RefusedIff(r: Rings, p: Packet)
    requires H.Settled(r)
    ensures Insert(r, p).1 == NoRoom <==>
            var offset, span := Sub64(p.frame.seqn, r.minSeqn), H.Span(r);
            && r.initialized && r.size <= offset < 2 * r.size
            && (span == 1 || (Packed(r) && offset + 1 - r.size > span))
  {
    hide BitAnd, LowestClear, FillOverflow, Place, Packed, H.Span;
    if r.initialized {
      var offset := Sub64(p.frame.seqn, r.minSeqn);
      if r.size <= offset < 2 * r.size {
        OverflowCount(r, offset + 1 - r.size);
      }
    }
  }

  lemma OddSpan(r: Rings)
    requires r.Shaped() && r.size % 2 == 1
    ensures H.Span(r) == 1 && r.Masked(0) == 0 && r.Masked(1) == 0
  {
    assert BitAnd(1, r.size - 1) == 2 * BitAnd(0, (r.size - 1) / 2) || r.size == 1;
  }

  /** The first packet goes straight through and leaves the buffer drained. */
  lemma OddFirst(size: nat, a: Packet)
    requires 0 < size <= MAX_SIZE && size % 2 == 1
    ensures var r := Drain(Insert(Init(size), a).0, 1024).0;
            H.Settled(r) && r.size == size && r.initialized && r.minSeqn == Add64(a.frame.seqn, 1)
  {
    hide BitAnd, LowestClear, Drain;
    OddSpan(Init(size));
    var s := Insert(Init(size), a).0;
    assert s.order[0] == Some(a) && s.oHead == s.rHead == s.rTail == 0;
    DrainLone(s, a, 1024);
    OddSpan(TakeHead(s));
  }

  /** Reached from a new buffer: with an odd size the first packet a window ahead is refused. */
  lemma OddSizeRefuses(size: nat, a: Packet, b: Packet)
    requires 0 < size <= MAX_SIZE && size % 2 == 1 && b.frame.seqn == Add64(a.frame.seqn, 1 + size)
    ensures var r := Drain(Insert(Init(size), a).0, 1024).0; Insert(r, b).1 == NoRoom
  {
    hide BitAnd, LowestClear, Insert, Drain, H.Span, Add64, Sub64;
    OddFirst(size, a);
    var r := Drain(Insert(Init(size), a).0, 1024).0;
    OddSpan(r);
    AddAdd64(a.frame.seqn, 1, size);
    assert Sub64(b.frame.seqn, r.minSeqn) == size by { AdvanceDistance(r.minSeqn, size); Small(r.minSeqn); }
    RefusedIff(r, b);
  }

  lemma Small(m: U64)
    ensures m % TWO64 == m
  {
  }
}
