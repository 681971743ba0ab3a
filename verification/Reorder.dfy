/** The reorder buffer of src/reorder.c as operations on two masked rings,
    for any ring size, and what the rings guarantee over whole runs. */
module Reorder {
  import opened Words

  import opened Ring
  import W = Window

  type Packet = W.Packet
  type Slots = W.Slots

  /** The answers 0, -1 and -2 of an insertion. */
  datatype Verdict = Stored | NoRoom | OutOfRange

  /** Up to here 16 bytes per place and the structure itself add up inside 32 bits. */
  const MAX_SIZE: nat := 0x0FFF_FFF0

  type Size = n: nat | n <= MAX_SIZE

  datatype Rings = Rings(
    size: nat,
    order: Slots, oHead: nat,
    ready: Slots, rHead: nat, rTail: nat,
    minSeqn: U64, initialized: bool)
  {
    predicate Shaped() {
      && 0 < size <= MAX_SIZE && |order| == size && |ready| == size
      && oHead < size && rHead < size && rTail < size
    }

    function Masked(x: nat): (i: nat)
      requires 0 < size
      ensures i < size
    {
      BitAnd(x, size - 1)
    }

    predicate ReadyFull()
      requires 0 < size
    {
      Masked(rHead + 1) == rTail
    }
  }

  function Init(size: nat): (r: Rings) {
    var empty: Slots := seq(size, _ => None);
    Rings(size, empty, 0, empty, 0, 0, 0, false)
  }

  // ---- Sliding the window past gaps ----

  function SkipGap(r: Rings): (s: Rings)
    requires r.Shaped()
    ensures s.Shaped()
  {
    r.(oHead := r.Masked(r.oHead + 1))
  }

  /** Copies the head packet to the ready ring without claiming its place there. */
  function MoveHead(r: Rings): (s: Rings)
    requires r.Shaped()
    ensures s.Shaped()
  {
    r.(ready := r.ready[r.rHead := r.order[r.oHead]],
       order := r.order[r.oHead := None],
       oHead := r.Masked(r.oHead + 1))
  }

  function ClaimReady(r: Rings): (s: Rings)
    requires r.Shaped()
    ensures s.Shaped()
  {
    r.(rHead := r.Masked(r.rHead + 1))
  }

  /** Emptying a slot leaves one packet less, which is why the loops end. */
  lemma TakenOut(slots: Slots, i: nat)
    requires i < |slots| && slots[i].Some?
    ensures |W.Packets(slots[i := None])| == |W.Packets(slots)| - 1
  {
    hide W.Packets;
    W.WritePackets(slots, i, None);
    var after, before := multiset(W.Packets(slots[i := None])), multiset(W.Packets(slots));
    assert |after + multiset{slots[i].value}| == |before + multiset{}|;
  }

  /** The inner loop: move consecutive packets until a gap or a full ready ring. */
  function MoveRun(r: Rings, adv: nat): (o: (Rings, nat))
    requires r.Shaped()
    ensures o.0.Shaped() && o.1 >= adv
    ensures r.order[r.oHead].Some? ==> o.1 > adv
    decreases |W.Packets(r.order)|
  {
    if r.order[r.oHead].None? then (r, adv)
    else
      TakenOut(r.order, r.oHead);
      var s := MoveHead(r);
      if s.ReadyFull() then (s, adv + 1) else MoveRun(ClaimReady(s), adv + 1)
  }

  /** The outer loop: until n positions are passed or the ready ring is full. */
  function Slide(r: Rings, n: nat, adv: nat): (o: (Rings, nat))
    requires r.Shaped()
    ensures o.0.Shaped() && o.1 >= adv
    decreases n - adv
  {
    if adv >= n || r.ReadyFull() then (r, adv)
    else
      var (s, a) := if r.order[r.oHead].None? then (SkipGap(r), adv + 1) else (r, adv);
      var (t, b) := MoveRun(s, a);
      Slide(t, n, b)
  }

  function FillOverflow(r: Rings, n: nat): (o: (Rings, nat))
    requires r.Shaped()
    ensures o.0.Shaped()
  {
    var (s, adv) := Slide(r, n, 0);
    (s.(minSeqn := Add64(s.minSeqn, adv)), adv)
  }

  // ---- Insertion and draining ----

  function Started(r: Rings, p: Packet): (s: Rings) {
    if r.initialized then r else r.(minSeqn := p.frame.seqn, initialized := true)
  }

  function Place(r: Rings, p: Packet): (s: Rings)
    requires r.Shaped()
    ensures s.Shaped()
  {
    r.(order := r.order[r.Masked(r.oHead + Sub64(p.frame.seqn, r.minSeqn)) := Some(p)])
  }

  function Insert(r: Rings, p: Packet): (o: (Rings, Verdict))
    requires r.Shaped()
    ensures o.0.Shaped()
  {
    var s := Started(r, p);
    var offset := Sub64(p.frame.seqn, s.minSeqn);
    if offset < s.size then (Place(s, p), Stored)
    else if offset < 2 * s.size then
      var n := offset + 1 - s.size;
      var (t, adv) := FillOverflow(s, n);
      if adv < n then (t, NoRoom) else (Place(t, p), Stored)
    else (s, OutOfRange)
  }

  function TakeReady(r: Rings): (s: Rings)
    requires r.Shaped()
    ensures s.Shaped()
  {
    r.(rTail := r.Masked(r.rTail + 1))
  }

  function DrainReady(r: Rings, max: nat): (o: (Rings, Slots))
    requires r.Shaped()
    ensures o.0.Shaped() && |o.1| <= max
    decreases max
  {
    if max == 0 || r.rTail == r.rHead then (r, [])
    else
      var (s, out) := DrainReady(TakeReady(r), max - 1);
      (s, [r.ready[r.rTail]] + out)
  }

  function TakeHead(r: Rings): (s: Rings)
    requires r.Shaped()
    ensures s.Shaped()
  {
    r.(order := r.order[r.oHead := None],
       oHead := r.Masked(r.oHead + 1),
       minSeqn := Add64(r.minSeqn, 1))
  }

  function DrainOrder(r: Rings, max: nat): (o: (Rings, Slots))
    requires r.Shaped()
    ensures o.0.Shaped() && |o.1| <= max
    decreases max
  {
    if max == 0 || r.order[r.oHead].None? then (r, [])
    else
      var (s, out) := DrainOrder(TakeHead(r), max - 1);
      (s, [r.order[r.oHead]] + out)
  }

  function Drain(r: Rings, max: nat): (o: (Rings, Slots))
    requires r.Shaped()
    ensures o.0.Shaped() && |o.1| <= max
  {
    var (s, a) := DrainReady(r, max);
    var (t, b) := DrainOrder(s, max - |a|);
    (t, a + b)
  }

  /** Draining a buffer with one packet, at its head. */
  lemma DrainLone(r: Rings, p: Packet, max: nat)
    requires r.Shaped() && r.rTail == r.rHead && max >= 2
    requires r.order[r.oHead] == Some(p) && forall i :: 0 <= i < r.size && i != r.oHead ==> r.order[i] == None
    ensures Drain(r, max) == (TakeHead(r), [Some(p)])
  {
    hide BitAnd;
    var s := TakeHead(r);
    assert s.order[s.oHead] == None;
    assert DrainOrder(s, max - 1) == (s, []);
    assert [Some(p)] + [] == [Some(p)] == [] + [Some(p)];
  }

  // ---- Unrolling the rings ----

  ghost predicate Good(r: Rings) { r.Shaped() && PowerOfTwo(r.size) }

  /** The order ring from its head on: element i is the place of sequence number min_seqn + i. */
  function SlotSeq(r: Rings): (s: Slots)
    requires r.Shaped()
    ensures |s| == r.size && s[0] == r.order[r.oHead]
  {
    Unroll(r.order, r.oHead)
  }

  /** The queued pointers of the ready ring, oldest first. */
  function ReadySeq(r: Rings): (s: Slots)
    requires r.Shaped()
    ensures |s| < r.size
  {
    Queue(r.ready, r.rTail, r.rHead)
  }

  function View(r: Rings): (w: W.Window)
    requires r.Shaped()
    ensures w.Valid()
  {
    W.Window(SlotSeq(r), ReadySeq(r))
  }

  /** For a power of two, the masked successor is the next place around the ring. */
  lemma MaskedStep(r: Rings, i: nat)
    requires Good(r) && i < r.size
    ensures r.Masked(i + 1) == Next(i, r.size)
  {
    MaskWraps(i + 1, r.size);
  }

  lemma FullViews(r: Rings)
    requires Good(r)
    ensures r.ReadyFull() <==> View(r).Full()
  {
    MaskedStep(r, r.rHead);
  }

  lemma PassViews(r: Rings, s: Rings)
    requires Good(r) && s.Shaped() && s.size == r.size && s.oHead == r.Masked(r.oHead + 1)
    requires s.order == r.order[r.oHead := None]
    ensures SlotSeq(s) == W.Pass(SlotSeq(r))
  {
    MaskedStep(r, r.oHead);
    UnrollAdvance(r.order, r.oHead, None);
  }

  /** One move of the inner loop, with the place claimed unless the ready ring is full. */
  function Moved(r: Rings): (s: Rings)
    requires r.Shaped()
    ensures s.Shaped()
  {
    var m := MoveHead(r);
    if m.ReadyFull() then m else ClaimReady(m)
  }

  /** The fields no loop of the overflow routine touches. */
  ghost predicate SameFrame(r: Rings, s: Rings) {
    && s.size == r.size && s.rTail == r.rTail
    && s.minSeqn == r.minSeqn && s.initialized == r.initialized
  }

  lemma MoveViews(r: Rings)
    requires Good(r)
    ensures View(Moved(r)) == W.Move(View(r)) && SameFrame(r, Moved(r))
    ensures MoveHead(r).ReadyFull() == r.ReadyFull()
    ensures r.order[r.oHead].Some? ==> |W.Packets(Moved(r).order)| < |W.Packets(r.order)|
  {
    hide BitAnd, PowerOfTwo, Unroll, Queue;
    var x, m := r.order[r.oHead], MoveHead(r);
    PassViews(r, m);
    MaskedStep(r, r.rHead);
    QueueKeeps(r.ready, r.rTail, r.rHead, x);
    FullViews(r);
    if !r.ReadyFull() {
      QueuePush(r.ready, r.rTail, r.rHead, x);
      assert ReadySeq(ClaimReady(m)) == ReadySeq(r) + [x];
    }
    if x.Some? {
      TakenOut(r.order, r.oHead);
    }
  }

  lemma {:induction false} MoveRunViews(r: Rings, adv: nat)
    requires Good(r)
    ensures var (s, a) := MoveRun(r, adv);
            SameFrame(r, s) && View(s) == W.MoveRun(View(r), adv).0 && a == W.MoveRun(View(r), adv).1
    decreases |W.Packets(r.order)|
  {
    hide BitAnd, PowerOfTwo, Unroll, Queue, W.Packets, MoveHead, ClaimReady;
    FullViews(r);
    if r.order[r.oHead].Some? {
      MoveViews(r);
      if !r.ReadyFull() {
        MoveRunViews(Moved(r), adv + 1);
      }
    }
  }

  /** The masked rings slide exactly as the unrolled window does. */
  lemma {:induction false} SlideViews(r: Rings, n: nat, adv: nat)
    requires Good(r)
    ensures var (s, a) := Slide(r, n, adv);
            SameFrame(r, s) && View(s) == W.Slide(View(r), n, adv).0 && a == W.Slide(View(r), n, adv).1
    decreases n - adv
  {
    hide BitAnd, PowerOfTwo, Unroll, Queue;
    FullViews(r);
    if adv < n && !r.ReadyFull() {
      var (s, a) := if r.order[r.oHead].None? then (SkipGap(r), adv + 1) else (r, adv);
      if r.order[r.oHead].None? {
        assert r.order == r.order[r.oHead := None];
        PassViews(r, s);
      }
      MoveRunViews(s, a);
      var (t, b) := MoveRun(s, a);
      SlideViews(t, n, b);
    }
  }

  /** Placing writes the slot at the packet's distance from the lowest sequence number. */
  lemma PlaceViews(r: Rings, p: Packet)
    requires Good(r) && Sub64(p.frame.seqn, r.minSeqn) < r.size
    ensures View(Place(r, p)) ==
            View(r).(slots := SlotSeq(r)[Sub64(p.frame.seqn, r.minSeqn) := Some(p)])
  {
    hide BitAnd, PowerOfTwo, Unroll, Queue;
    var offset := Sub64(p.frame.seqn, r.minSeqn);
    MaskWraps(r.oHead + offset, r.size);
    UnrollUpdate(r.order, r.oHead, offset, Some(p));
  }

  lemma ConsSplit(x: Option<Packet>, out: Slots, rest: Slots, mid: Slots)
    requires out + rest == mid
    ensures ([x] + out) + rest == [x] + mid
  {
  }

  /** The ready ring gives up its oldest packets, as many as asked for. */
  lemma {:induction false} DrainReadyViews(r: Rings, max: nat)
    requires Good(r)
    ensures var (s, out) := DrainReady(r, max);
            && out + ReadySeq(s) == ReadySeq(r)
            && |out| == (if |ReadySeq(r)| < max then |ReadySeq(r)| else max)
            && s == r.(rTail := s.rTail)
    decreases max
  {
    hide BitAnd, PowerOfTwo, Unroll, Queue;
    if max == 0 || r.rTail == r.rHead {
      assert [] + ReadySeq(r) == ReadySeq(r);
    } else {
      MaskedStep(r, r.rTail);
      QueuePop(r.ready, r.rTail, r.rHead);
      var t := TakeReady(r);
      DrainReadyViews(t, max - 1);
      var (s, out) := DrainReady(t, max - 1);
      ConsSplit(r.ready[r.rTail], out, ReadySeq(s), ReadySeq(t));
    }
  }

  lemma TakeViews(r: Rings)
    requires Good(r)
    ensures SlotSeq(TakeHead(r)) == W.Pass(SlotSeq(r)) && ReadySeq(TakeHead(r)) == ReadySeq(r)
  {
    PassViews(r, TakeHead(r));
  }

  lemma {:induction false} DrainOrderViews(r: Rings, max: nat)
    requires Good(r)
    ensures var (s, out) := DrainOrder(r, max);
            && out == W.DrainSlots(SlotSeq(r), max).1 && SlotSeq(s) == W.DrainSlots(SlotSeq(r), max).0
            && s.size == r.size && s.initialized == r.initialized && ReadySeq(s) == ReadySeq(r)
            && s.minSeqn == Add64(r.minSeqn, |out|)
    decreases max
  {
    hide BitAnd, PowerOfTwo, Unroll, Queue, Add64;
    AddAdd64(r.minSeqn, 0, 0);
    if max > 0 && r.order[r.oHead].Some? {
      TakeViews(r);
      DrainOrderViews(TakeHead(r), max - 1);
      AddAdd64(r.minSeqn, 1, |DrainOrder(TakeHead(r), max - 1).1|);
    }
  }

  /** The masked rings drain exactly as the unrolled window does. */
  lemma DrainViews(r: Rings, max: nat)
    requires Good(r)
    ensures var (s, out) := Drain(r, max);
            && View(s) == W.Drain(View(r), max).0 && out == W.Drain(View(r), max).1
            && s.size == r.size && s.initialized == r.initialized
            && s.minSeqn == Add64(r.minSeqn, W.Popped(View(r), max))
  {
    hide BitAnd, PowerOfTwo, Unroll, Queue, Add64;
    DrainReadyViews(r, max);
    var (s, a) := DrainReady(r, max);
    var (t, b) := DrainOrder(s, max - |a|);
    DrainOrderViews(s, max - |a|);
    if |ReadySeq(r)| >= max {
      assert a == ReadySeq(r)[..max] && ReadySeq(s) == ReadySeq(r)[max..];
      assert a + b == a;
    } else {
      assert ReadySeq(s) == [] && a == ReadySeq(r);
    }
  }
}
