/** The reorder buffer as src/reorder.c keeps it: two arrays of pointers updated in place. */
module ReorderBuffer {
  import opened Words
  import opened Reorder
  import W = Window

  class Buffer {
    const size: nat
    const order: array<Option<Packet>>
    const ready: array<Option<Packet>>
    var oHead: nat
    var rHead: nat
    var rTail: nat
    var minSeqn: U64
    var initialized: bool

    ghost predicate Valid()
      reads this, order, ready
    {
      && order != ready && order.Length == size && ready.Length == size
      && Snapshot().Shaped()
    }

    /** The two rings as a value. */
    ghost function Snapshot(): (r: Rings)
      reads this, order, ready
    {
      Rings(size, order[..], oHead, ready[..], rHead, rTail, minSeqn, initialized)
    }

    constructor (size: nat)
      requires 0 < size <= MAX_SIZE
      ensures Valid() && Snapshot() == Init(size) && fresh(order) && fresh(ready)
    {
      this.size := size;
      order := new Option<Packet>[size](_ => None);
      ready := new Option<Packet>[size](_ => None);
      oHead, rHead, rTail, minSeqn, initialized := 0, 0, 0, 0, false;
    }

    method Reset()
      requires Valid()
      modifies this, order, ready
      ensures Valid() && Snapshot() == Init(size)
    {
      for i := 0 to size
        invariant order.Length == size && ready.Length == size
        invariant forall k :: 0 <= k < i ==> order[k] == None && ready[k] == None
      {
        order[i], ready[i] := None, None;
      }
      oHead, rHead, rTail, minSeqn, initialized := 0, 0, 0, 0, false;
      assert order[..] == Init(size).order && ready[..] == Init(size).ready;
    }

    /** Moves the packet at the head of the window to the ready ring. */
    method MoveHeadPacket()
      requires Valid()
      modifies this, order, ready
      ensures Valid() && Snapshot() == MoveHead(old(Snapshot()))
    {
      ready[rHead] := order[oHead];
      order[oHead] := None;
      oHead := BitAnd(oHead + 1, size - 1);
    }

    method MoveAllReady(adv0: nat) returns (adv: nat)
      requires Valid()
      modifies this, order, ready
      ensures Valid() && (Snapshot(), adv) == MoveRun(old(Snapshot()), adv0)
    {
      hide BitAnd, W.Packets;
      adv := adv0;
      ghost var start := Snapshot();
      while order[oHead] != None
        invariant Valid() && MoveRun(Snapshot(), adv) == MoveRun(start, adv0)
        decreases |W.Packets(order[..])|
      {
        ghost var before := Snapshot();
        TakenOut(order[..], oHead);
        MoveHeadPacket();
        adv := adv + 1;
        if BitAnd(rHead + 1, size - 1) == rTail {
          assert MoveRun(before, adv - 1) == (Snapshot(), adv);
          return;
        }
        rHead := BitAnd(rHead + 1, size - 1);
        assert Snapshot() == ClaimReady(MoveHead(before));
      }
    }

    method SlideWindow(n: nat) returns (adv: nat)
      requires Valid()
      modifies this, order, ready
      ensures Valid() && (Snapshot(), adv) == FillOverflow(old(Snapshot()), n)
    {
      hide BitAnd, MoveRun, W.Packets;
      adv := 0;
      ghost var start := Snapshot();
      while adv < n && BitAnd(rHead + 1, size - 1) != rTail
        invariant Valid() && Slide(Snapshot(), n, adv) == Slide(start, n, 0)
        decreases n - adv
      {
        ghost var before, adv0 := Snapshot(), adv;
        if order[oHead] == None {
          oHead := BitAnd(oHead + 1, size - 1);
          adv := adv + 1;
          assert Snapshot() == SkipGap(before);
        }
        adv := MoveAllReady(adv);
        assert Slide(before, n, adv0) == Slide(Snapshot(), n, adv);
      }
      minSeqn := Add64(minSeqn, adv);
    }

    method PlacePacket(p: Packet)
      requires Valid()
      modifies order
      ensures Valid() && Snapshot() == Place(old(Snapshot()), p)
    {
      order[BitAnd(oHead + Sub64(p.frame.seqn, minSeqn), size - 1)] := Some(p);
    }

    /** Returns 0, -1 or -2 as a verdict. */
    method Put(p: Packet) returns (verdict: Verdict)
      requires Valid()
      modifies this, order, ready
      ensures Valid() && (Snapshot(), verdict) == Insert(old(Snapshot()), p)
    {
      hide BitAnd, FillOverflow, Place;
      ghost var before := Snapshot();
      if !initialized {
        minSeqn := p.frame.seqn;
        initialized := true;
      }
      assert Snapshot() == Started(before, p);
      var offset := Sub64(p.frame.seqn, minSeqn);
      if offset < size {
        PlacePacket(p);
        verdict := Stored;
      } else if offset < 2 * size {
        var adv := SlideWindow(offset + 1 - size);
        if adv < offset + 1 - size {
          return NoRoom;
        }
        PlacePacket(p);
        verdict := Stored;
      } else {
        verdict := OutOfRange;
      }
    }

    method TakeFromReady(max: nat) returns (out: seq<Option<Packet>>)
      requires Valid()
      modifies this
      ensures Valid() && (Snapshot(), out) == DrainReady(old(Snapshot()), max)
    {
      hide BitAnd;
      out := [];
      ghost var start := Snapshot();
      while |out| < max && rTail != rHead
        invariant Valid() && |out| <= max
        invariant DrainReady(start, max).0 == DrainReady(Snapshot(), max - |out|).0
        invariant DrainReady(start, max).1 == out + DrainReady(Snapshot(), max - |out|).1
        decreases max - |out|
      {
        ghost var before, taken := Snapshot(), out;
        out := out + [ready[rTail]];
        rTail := BitAnd(rTail + 1, size - 1);
        assert Snapshot() == TakeReady(before);
        ghost var rest := DrainReady(Snapshot(), max - |out|).1;
        assert taken + ([before.ready[before.rTail]] + rest) == out + rest;
      }
      assert out + [] == out;
    }

    method TakeFromOrder(max: nat) returns (out: seq<Option<Packet>>)
      requires Valid()
      modifies this, order
      ensures Valid() && (Snapshot(), out) == DrainOrder(old(Snapshot()), max)
    {
      hide BitAnd;
      out := [];
      ghost var start := Snapshot();
      while |out| < max && order[oHead] != None
        invariant Valid() && |out| <= max
        invariant DrainOrder(start, max).0 == DrainOrder(Snapshot(), max - |out|).0
        invariant DrainOrder(start, max).1 == out + DrainOrder(Snapshot(), max - |out|).1
        decreases max - |out|
      {
        ghost var before, taken := Snapshot(), out;
        out := out + [order[oHead]];
        order[oHead] := None;
        minSeqn := Add64(minSeqn, 1);
        oHead := BitAnd(oHead + 1, size - 1);
        assert Snapshot() == TakeHead(before);
        ghost var rest := DrainOrder(Snapshot(), max - |out|).1;
        assert taken + ([before.order[before.oHead]] + rest) == out + rest;
      }
      assert out + [] == out;
    }

    method Take(max: nat) returns (out: seq<Option<Packet>>)
      requires Valid()
      modifies this, order
      ensures Valid() && (Snapshot(), out) == Drain(old(Snapshot()), max)
    {
      var a := TakeFromReady(max);
      var b := TakeFromOrder(max - |a|);
      out := a + b;
    }
  }
}
