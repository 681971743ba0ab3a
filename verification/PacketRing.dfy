/** The start/end ring of src/buffer.c: a bounded queue that drops its oldest packet when full. */
module PacketRing {
  import opened Ring

  /** The last `cap` elements. */
  function Newest<T>(s: seq<T>, cap: nat): (t: seq<T>)
    ensures |t| <= cap
  {
    if |s| <= cap then s else s[|s| - cap..]
  }

  /** What is queued after writing xs one by one, as Write leaves it each time. */
  function WriteAll<T>(q: seq<T>, xs: seq<T>, cap: nat): (t: seq<T>)
    decreases |xs|
  {
    if xs == [] then q else WriteAll(Newest(q + [xs[0]], cap), xs[1..], cap)
  }

  lemma NewestAgain<T>(a: seq<T>, b: seq<T>, cap: nat)
    ensures Newest(Newest(a, cap) + b, cap) == Newest(a + b, cap)
  {
  }

  /** Any number of writes keeps exactly the newest packets, in order. */
  lemma {:induction false} WritesKeepNewest<T>(q: seq<T>, xs: seq<T>, cap: nat)
    requires |q| <= cap
    ensures WriteAll(q, xs, cap) == Newest(q + xs, cap)
    decreases |xs|
  {
    if xs == [] {
      assert q + xs == q;
    } else {
      var r := Newest(q + [xs[0]], cap);
      WritesKeepNewest(r, xs[1..], cap);
      NewestAgain(q + [xs[0]], xs[1..], cap);
      assert q + xs == q + [xs[0]] + xs[1..];
    }
  }

  class PacketRing<T(0)> {
    const data: array<T>
    var start: nat
    var end: nat

    ghost predicate Valid()
      reads this
    {
      data.Length > 0 && start < data.Length && end < data.Length
    }

    ghost function Capacity(): (n: nat)
      reads this
      requires Valid()
    {
      data.Length - 1
    }

    ghost function Contents(): (s: seq<T>)
      reads this, data
      requires Valid()
      ensures |s| <= Capacity()
    {
      Queue(data[..], start, end)
    }

    /** One slot more than requested tells full from empty. */
    constructor (size: nat)
      ensures Valid() && Capacity() == size && Contents() == [] && fresh(data)
    {
      data := new T[size + 1];
      start, end := 0, 0;
    }

    method Reset()
      requires Valid()
      modifies this
      ensures Valid() && Contents() == []
    {
      start, end := 0, 0;
    }

    method IsFull() returns (b: bool)
      requires Valid()
      ensures b <==> |Contents()| == Capacity()
    {
      b := (end + 1) % data.Length == start;
      StepAround(end, data.Length);
    }

    method IsEmpty() returns (b: bool)
      requires Valid()
      ensures b <==> Contents() == []
    {
      b := end == start;
    }

    /** Hands out the slot at `end`, which the caller fills with x. The slot is none of those whose
        packets stay queued. */
    method Write(x: T) returns (slot: nat)
      requires Valid()
      modifies this, data
      ensures Valid()
      ensures Contents() == Newest(old(Contents()) + [x], Capacity())
      ensures slot == old(end) && data[..] == old(data[..])[slot := x]
    {
      slot := end;
      QueueKeeps(data[..], start, end, x);
      if data.Length > 1 && Next(end, data.Length) != start {
        QueuePush(data[..], start, end, x);
      } else {
        FullPush(data[..], start, end, x);
      }
      data[end] := x;
      StepAround(end, data.Length);
      StepAround(start, data.Length);
      end := (end + 1) % data.Length;
      if end == start {
        start := (start + 1) % data.Length;
      }
    }

    /** Takes the oldest packet. Nothing guards an empty ring: reading one yields a stale slot and
        makes the ring look full. */
    method Read() returns (x: T)
      requires Valid()
      modifies this
      ensures Valid()
      ensures old(Contents()) != [] ==> x == old(Contents())[0] && Contents() == old(Contents())[1..]
      ensures old(Contents()) == [] ==> |Contents()| == Capacity()
    {
      hide Queue;
      x := data[start];
      StepAround(start, data.Length);
      StepAround(end, data.Length);
      if start != end {
        QueuePop(data[..], start, end);
      }
      start := (start + 1) % data.Length;
    }

    /** The disconnect message: written unless the queue is full, then one packet is sent. With any
        capacity at all the ring it reads is not empty. */
    method SendDisconnect(msg: T) returns (sent: T)
      requires Valid() && Capacity() > 0
      modifies this, data
      ensures Valid()
      ensures var q := if |old(Contents())| == Capacity() then old(Contents()) else old(Contents()) + [msg];
              q != [] && sent == q[0] && Contents() == q[1..]
    {
      var full := IsFull();
      if !full {
        var _ := Write(msg);
      }
      sent := Read();
    }
  }

  /** The write callback: one packet of the high priority queue and one of the other, each only if
      there is one, so that no empty ring is read. A send that fails takes the tunnel down, which empties
      both queues. */
  method SendReady<T(0)>(high: PacketRing<T>, low: PacketRing<T>, highFails: bool, lowFails: bool)
    returns (sent: seq<T>)
    requires high.Valid() && low.Valid() && high != low && high.data != low.data
    modifies high, low
    ensures high.Valid() && low.Valid()
    ensures var h, l := old(high.Contents()), old(low.Contents());
            var first := h != [];
            var second := l != [] && !(first && highFails);
            var down := (first && highFails) || (second && lowFails);
            && sent == (if first then [h[0]] else []) + (if second then [l[0]] else [])
            && high.Contents() == (if down || !first then [] else h[1..])
            && low.Contents() == (if down || !second then [] else l[1..])
  {
    sent := [];
    var empty := high.IsEmpty();
    if !empty {
      var x := high.Read();
      sent := [x];
      if highFails {
        high.Reset();
        low.Reset();
      }
    }
    empty := low.IsEmpty();
    if !empty {
      var x := low.Read();
      sent := sent + [x];
      if lowFails {
        high.Reset();
        low.Reset();
      }
    }
  }

  lemma StepAround(i: nat, size: nat)
    requires i < size
    ensures (i + 1) % size == Next(i, size)
  {
  }

  /** Writing to a full ring: the slot is outside the queue, and the oldest packet is given up. */
  lemma FullPush<T>(ring: seq<T>, start: nat, end: nat, x: T)
    requires start < |ring| && end < |ring| && Next(end, |ring|) == start
    ensures var r, cap := ring[end := x], |ring| - 1;
            var from := Next(start, |ring|);
            Queue(r, from, start) == Newest(Queue(ring, start, end) + [x], cap)
  {
    var n := |ring|;
    if n == 1 {
      assert Queue(ring, start, end) == [];
    } else {
      QueuePop(ring, start, end);
      var from := Next(start, n);
      var rest := Queue(ring, from, end);
      QueuePush(ring, from, end, x);
      assert Newest([ring[start]] + rest + [x], n - 1) == rest + [x];
    }
  }
}
