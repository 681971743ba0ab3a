/** The packet pool of src/buffer.c: a free list and a used list over a fixed set of entries. */
module Pool {
  import opened Words
  import opened Window

  /** Entries are numbered; a used entry is shown together with what was copied into it. */
  datatype Pool = Pool(free: seq<nat>, used: seq<Packet>, count: nat)

  function Entries(ps: seq<Packet>): (es: seq<nat>)
    ensures |es| == |ps| && forall i :: 0 <= i < |ps| ==> es[i] == ps[i].entry
  {
    seq(|ps|, i requires 0 <= i < |ps| => ps[i].entry)
  }

  function Frames(ps: seq<Packet>): (fs: seq<Frame>)
    ensures |fs| == |ps| && forall i :: 0 <= i < |ps| ==> fs[i] == ps[i].frame
  {
    seq(|ps|, i requires 0 <= i < |ps| => ps[i].frame)
  }

  function Range(n: nat): (s: seq<nat>) {
    if n == 0 then [] else Range(n - 1) + [n - 1]
  }

  /** New entries go to the head of the free list. */
  function Init(n: nat): (p: Pool) { Pool(seq(n, i requires 0 <= i < n => n - 1 - i), [], 0) }

  function Get(p: Pool, frame: Frame): (o: Option<(Pool, Packet)>)
    ensures o.Some? <==> p.free != []
  {
    if p.free == [] then None
    else
      var pkt := Packet(p.free[0], frame);
      Some((Pool(p.free[1..], p.used + [pkt], p.count + 1), pkt))
  }

  /** The unsigned 32-bit counter would wrap; Valid keeps it from doing so. */
  function Less(count: nat): (n: nat) { if count == 0 then TWO32 - 1 else count - 1 }

  function DrainUsed(p: Pool): (o: Option<(Pool, Packet)>) {
    if p.used == [] then None
    else Some((Pool([p.used[0].entry] + p.free, p.used[1..], Less(p.count)), p.used[0]))
  }

  function Reset(p: Pool): (q: Pool)
    decreases |p.used|
  {
    if p.used == [] then p.(count := 0)
    else Reset(Pool([p.used[0].entry] + p.free, p.used[1..], p.count))
  }

  function Without(ps: seq<Packet>, entry: nat): (qs: seq<Packet>) {
    if ps == [] then [] else if ps[0].entry == entry then ps[1..] else [ps[0]] + Without(ps[1..], entry)
  }

  /** None is the fatal exit: the pointer is not in the used list. */
  function Free(p: Pool, entry: nat): (o: Option<Pool>) {
    if entry in Entries(p.used)
    then Some(Pool([entry] + p.free, Without(p.used, entry), Less(p.count)))
    else None
  }

  // ---- The two lists partition a fixed set ----

  ghost predicate Valid(p: Pool, n: nat) {
    p.count == |p.used| && multiset(p.free) + multiset(Entries(p.used)) == multiset(Range(n))
  }

  ghost predicate Distinct(ps: seq<Packet>) {
    forall i, j :: 0 <= i < j < |ps| ==> ps[i].entry != ps[j].entry
  }

  lemma {:induction false} RangeOnce(n: nat)
    ensures |Range(n)| == n && forall x: nat :: multiset(Range(n))[x] == if x < n then 1 else 0
  {
    if n > 0 {
      RangeOnce(n - 1);
    }
  }

  lemma TwiceCounts(s: seq<nat>, i: nat, j: nat)
    requires i < j < |s| && s[i] == s[j]
    ensures multiset(s)[s[i]] >= 2
  {
    assert s == s[..j] + s[j..] && s[i] in s[..j] && s[j] in s[j..];
    assert multiset(s) == multiset(s[..j]) + multiset(s[j..]);
  }

  lemma ValidDistinct(p: Pool, n: nat)
    requires Valid(p, n)
    ensures Distinct(p.used) && |p.free| + |p.used| == n
  {
    RangeOnce(n);
    assert |multiset(p.free) + multiset(Entries(p.used))| == |p.free| + |p.used|;
    assert |multiset(Range(n))| == n;
    forall i, j | 0 <= i < j < |p.used|
      ensures p.used[i].entry != p.used[j].entry
    {
      var e := p.used[i].entry;
      assert (multiset(p.free) + multiset(Entries(p.used)))[e] == multiset(Range(n))[e] <= 1;
      if e == p.used[j].entry {
        TwiceCounts(Entries(p.used), i, j);
        assert false;
      }
    }
  }

  lemma {:induction false} RangeCovers(n: nat, s: seq<nat>)
    requires |s| == n && forall i :: 0 <= i < n ==> s[i] == n - 1 - i
    ensures multiset(s) == multiset(Range(n))
  {
    if n > 0 {
      RangeCovers(n - 1, s[1..]);
      assert s == [n - 1] + s[1..];
    }
  }

  lemma InitValid(n: nat)
    ensures Valid(Init(n), n)
  {
    RangeCovers(n, Init(n).free);
    assert Entries([]) == [];
  }

  lemma GetValid(p: Pool, n: nat, frame: Frame)
    requires Valid(p, n) && Get(p, frame).Some?
    ensures Valid(Get(p, frame).value.0, n)
  {
    var (q, pkt) := Get(p, frame).value;
    assert p.free == [p.free[0]] + q.free;
    assert Entries(q.used) == Entries(p.used) + [pkt.entry];
  }

  lemma {:induction false} WithoutIsDrop(ps: seq<Packet>, entry: nat) returns (i: nat)
    requires entry in Entries(ps)
    ensures i < |ps| && ps[i].entry == entry && Without(ps, entry) == ps[..i] + ps[i + 1..]
  {
    if ps[0].entry == entry {
      i := 0;
    } else {
      var k := WithoutIsDrop(ps[1..], entry);
      i := k + 1;
      assert ps[..i] + ps[i + 1..] == [ps[0]] + (ps[1..][..k] + ps[1..][k + 1..]);
    }
  }

  lemma DropCounts<T>(s: seq<T>, i: nat)
    requires i < |s|
    ensures multiset(s[..i] + s[i + 1..]) == multiset(s) - multiset{s[i]}
  {
    assert s == s[..i] + [s[i]] + s[i + 1..];
  }

  lemma DropMaps(ps: seq<Packet>, i: nat)
    requires i < |ps|
    ensures Entries(ps[..i] + ps[i + 1..]) == Entries(ps)[..i] + Entries(ps)[i + 1..]
    ensures Frames(ps[..i] + ps[i + 1..]) == Frames(ps)[..i] + Frames(ps)[i + 1..]
  {
  }

  /** Among distinct entries, removing by pointer removes exactly the packet meant. */
  lemma WithoutTakes(ps: seq<Packet>, p: Packet)
    requires p in ps && Distinct(ps)
    ensures var qs := Without(ps, p.entry);
            && multiset(qs) == multiset(ps) - multiset{p}
            && multiset(Entries(qs)) == multiset(Entries(ps)) - multiset{p.entry}
            && multiset(Frames(qs)) == multiset(Frames(ps)) - multiset{p.frame}
            && |qs| == |ps| - 1
  {
    EntryOf(ps, p);
    hide Without, Entries, Frames;
    var i := WithoutIsDrop(ps, p.entry);
    assert ps[i] == p;
    DropMaps(ps, i);
    DropCounts(ps, i);
    DropCounts(Entries(ps), i);
    DropCounts(Frames(ps), i);
  }

  lemma FramesAppend(a: seq<Packet>, b: seq<Packet>)
    ensures Frames(a + b) == Frames(a) + Frames(b)
  {
  }

  lemma MinusAppend(u: multiset<Packet>, a: seq<Packet>, b: seq<Packet>)
    ensures u - multiset(a + b) == u - multiset(a) - multiset(b)
  {
    assert multiset(a + b) == multiset(a) + multiset(b);
  }

  lemma EntryOf(ps: seq<Packet>, p: Packet)
    requires p in ps
    ensures p.entry in Entries(ps) && p.frame in Frames(ps)
  {
    var i :| 0 <= i < |ps| && ps[i] == p;
    assert Entries(ps)[i] == p.entry && Frames(ps)[i] == p.frame;
  }

  /** Freeing a packet that is in use never reaches the fatal exit and keeps the partition. */
  lemma FreeValid(p: Pool, n: nat, pkt: Packet)
    requires Valid(p, n) && pkt in p.used
    ensures Free(p, pkt.entry).Some?
    ensures var q := Free(p, pkt.entry).value;
            && Valid(q, n) && multiset(q.used) == multiset(p.used) - multiset{pkt}
            && multiset(Frames(q.used)) == multiset(Frames(p.used)) - multiset{pkt.frame}
  {
    EntryOf(p.used, pkt);
    ValidDistinct(p, n);
    WithoutTakes(p.used, pkt);
  }

  lemma DrainUsedValid(p: Pool, n: nat)
    requires Valid(p, n) && DrainUsed(p).Some?
    ensures Valid(DrainUsed(p).value.0, n)
  {
    assert Entries(p.used) == [p.used[0].entry] + Entries(p.used[1..]);
  }

  /** A reset gives every entry back, whatever was in use. */
  lemma {:induction false} ResetValid(p: Pool, n: nat)
    requires multiset(p.free) + multiset(Entries(p.used)) == multiset(Range(n))
    ensures Reset(p).used == [] && Valid(Reset(p), n) && |Reset(p).free| == n
    decreases |p.used|
  {
    if p.used == [] {
      assert Entries(p.used) == [];
      RangeOnce(n);
      assert |multiset(p.free) + multiset(Entries(p.used))| == |p.free|;
    } else {
      assert Entries(p.used) == [p.used[0].entry] + Entries(p.used[1..]);
      ResetValid(Pool([p.used[0].entry] + p.free, p.used[1..], p.count), n);
    }
  }

  // ---- Arrival order ----

  ghost predicate Subsequence<T>(a: seq<T>, b: seq<T>)
    decreases |b|
  {
    if b == [] then a == []
    else Subsequence(a, b[1..]) || (a != [] && a[0] == b[0] && Subsequence(a[1..], b[1..]))
  }

  lemma {:induction false} SubsequenceAppend<T>(a: seq<T>, b: seq<T>, x: T)
    requires Subsequence(a, b)
    ensures Subsequence(a + [x], b + [x]) && Subsequence(a, b + [x])
    decreases |b|
  {
    if b == [] {
      assert (b + [x])[1..] == [] && (a + [x])[1..] == [];
      assert Subsequence<T>([], []);
    } else {
      assert (b + [x])[1..] == b[1..] + [x];
      if Subsequence(a, b[1..]) {
        SubsequenceAppend(a, b[1..], x);
      } else {
        SubsequenceAppend(a[1..], b[1..], x);
        assert (a + [x])[1..] == a[1..] + [x];
      }
    }
  }

  lemma SubsequenceLater<T>(c: seq<T>, b: seq<T>)
    requires b != [] && Subsequence(c, b[1..])
    ensures Subsequence(c, b)
  {
  }

  lemma SubsequenceNow<T>(c: seq<T>, b: seq<T>)
    requires b != [] && c != [] && c[0] == b[0] && Subsequence(c[1..], b[1..])
    ensures Subsequence(c, b)
  {
  }

  lemma DropTail<T>(a: seq<T>, i: nat)
    requires 0 < i < |a|
    ensures var c := a[..i] + a[i + 1..];
            c != [] && c[0] == a[0] && c[1..] == a[1..][..i - 1] + a[1..][i..]
  {
  }

  /** Leaving out one more element keeps a subsequence. */
  lemma {:induction false} SubsequenceDrop<T>(a: seq<T>, b: seq<T>, i: nat)
    requires Subsequence(a, b) && i < |a|
    ensures Subsequence(a[..i] + a[i + 1..], b)
    decreases |b|
  {
    var c := a[..i] + a[i + 1..];
    if Subsequence(a, b[1..]) {
      SubsequenceDrop(a, b[1..], i);
      SubsequenceLater(c, b);
    } else if i == 0 {
      assert c == a[1..];
      SubsequenceLater(c, b);
    } else {
      SubsequenceDrop(a[1..], b[1..], i - 1);
      DropTail(a, i);
      SubsequenceNow(c, b);
    }
  }

  /** Freeing keeps the used list in arrival order. */
  lemma FreeKeepsOrder(p: Pool, entry: nat, arrivals: seq<Frame>)
    requires Free(p, entry).Some? && Subsequence(Frames(p.used), arrivals)
    ensures Subsequence(Frames(Free(p, entry).value.used), arrivals)
  {
    var i := WithoutIsDrop(p.used, entry);
    SubsequenceDrop(Frames(p.used), arrivals, i);
    DropMaps(p.used, i);
  }
}
