/** A circular array read from a starting place: the facts that do not depend on masks. */
module Ring {

  function Next(i: nat, size: nat): (j: nat)
    requires i < size
    ensures j < size
  {
    if i + 1 < size then i + 1 else 0
  }

  /** The whole ring, starting at `head`. */
  function Unroll<T>(ring: seq<T>, head: nat): (s: seq<T>)
    requires head < |ring|
    ensures |s| == |ring|
  {
    ring[head..] + ring[..head]
  }

  /** The elements from `tail` up to, but not including, `head`; the ring never looks full. */
  function Queue<T>(ring: seq<T>, tail: nat, head: nat): (s: seq<T>)
    requires tail < |ring| && head < |ring|
    ensures |s| < |ring|
    ensures |s| == 0 <==> tail == head
    ensures |s| + 1 == |ring| <==> Next(head, |ring|) == tail
  {
    if tail <= head then ring[tail..head] else ring[tail..] + ring[..head]
  }

  lemma UnrollAdvance<T>(ring: seq<T>, head: nat, x: T)
    requires head < |ring|
    ensures Unroll(ring[head := x], Next(head, |ring|)) == Unroll(ring, head)[1..] + [x]
  {
    if head + 1 < |ring| {
      assert ring[head := x][head + 1..] == ring[head + 1..];
    } else {
      assert ring[head := x][0..] == ring[..head] + [x];
    }
  }

  lemma UnrollUpdate<T>(ring: seq<T>, head: nat, i: nat, x: T)
    requires head < |ring| && i < |ring|
    ensures var at := if head + i < |ring| then head + i else head + i - |ring|;
            Unroll(ring[at := x], head) == Unroll(ring, head)[i := x]
  {
  }

  lemma QueueKeeps<T>(ring: seq<T>, tail: nat, head: nat, x: T)
    requires tail < |ring| && head < |ring|
    ensures Queue(ring[head := x], tail, head) == Queue(ring, tail, head)
  {
  }

  lemma QueuePush<T>(ring: seq<T>, tail: nat, head: nat, x: T)
    requires tail < |ring| && head < |ring| && Next(head, |ring|) != tail
    ensures Queue(ring[head := x], tail, Next(head, |ring|)) == Queue(ring, tail, head) + [x]
  {
    var r := ring[head := x];
    if tail <= head {
      if head + 1 < |ring| {
        assert r[tail..head + 1] == ring[tail..head] + [x];
      } else {
        assert r[tail..] + r[..0] == ring[tail..head] + [x];
      }
    } else {
      assert r[tail..] == ring[tail..];
      assert r[..head + 1] == ring[..head] + [x];
    }
  }

  lemma QueuePop<T>(ring: seq<T>, tail: nat, head: nat)
    requires tail < |ring| && head < |ring| && tail != head
    ensures Queue(ring, tail, head) == [ring[tail]] + Queue(ring, Next(tail, |ring|), head)
  {
    if tail < head {
      assert ring[tail..head] == [ring[tail]] + ring[tail + 1..head];
    } else if tail + 1 < |ring| {
      assert ring[tail..] == [ring[tail]] + ring[tail + 1..];
      assert ([ring[tail]] + ring[tail + 1..]) + ring[..head] == [ring[tail]] + (ring[tail + 1..] + ring[..head]);
    } else {
      assert ring[tail..] == [ring[tail]];
      assert ring[0..head] == ring[..head];
    }
  }
}
