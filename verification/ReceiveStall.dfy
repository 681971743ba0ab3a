/** When reordering stops for good: packets out of range take pool entries without starting the drain
    timer, and a full pool with the timer stopped is left by no packet. */
module ReceiveStall {
  import opened Words
  import opened Window
  import opened Reorder
  import P = Pool
  import R = Receive
  import O = ReceiveOrder

  /** The pool is full and nothing is going to empty it. */
  predicate Stalled(r: R.Receiver) { r.pool.free == [] && !r.armed }

  /** What happens while no tunnel changes status and nothing is reloaded: packets arrive, and the
      drain timer fires if it runs. */
  predicate Local(h: R.History, e: R.Event) { e.Data? || (e.Forced? && h.now.armed) }

  ghost predicate LocalRun(h: R.History, es: seq<R.Event>)
    requires h.now.rings.Shaped()
    decreases |es|
  {
    es != [] ==> Local(h, es[0]) && (R.Next(h, es[0]).Some? ==> LocalRun(R.Next(h, es[0]).value, es[1..]))
  }

  /** Everything but the frames injected. */
  ghost predicate SameButInjected(r: R.Receiver, s: R.Receiver) {
    s.rings == r.rings && s.pool == r.pool && s.armed == r.armed
  }

  /** From a stalled receiver every packet is passed on as it comes, and nothing ever changes. */
  lemma {:induction false} StallStays(h: R.History, es: seq<R.Event>)
    requires h.now.rings.Shaped() && Stalled(h.now) && LocalRun(h, es)
    ensures R.Run(h, es).Some? && SameButInjected(h.now, R.Run(h, es).value.now)
    decreases |es|
  {
    if es != [] {
      StallStays(R.Next(h, es[0]).value, es[1..]);
    }
  }

  lemma RunNone(h: R.History)
    requires h.now.rings.Shaped()
    ensures LocalRun(h, []) && R.Run(h, []) == Some(h)
  {
  }

  lemma RunOne(h: R.History, e: R.Event)
    requires h.now.rings.Shaped() && R.Next(h, e).Some? && Local(h, e)
    ensures LocalRun(h, [e]) && R.Run(h, [e]) == R.Next(h, e)
  {
    hide R.Next;
    assert [e][1..] == [];
    assert R.Run(R.Next(h, e).value, []) == R.Next(h, e);
  }

  lemma EmptyHasRoom(pool: P.Pool, entries: nat)
    requires P.Valid(pool, entries) && entries > 0 && pool.used == []
    ensures pool.free != []
  {
    P.ValidDistinct(pool, entries);
  }

  /** From any sound state packets and the timer can make room in the pool, so that some later packet
      is reordered, exactly unless the pool is full with the timer stopped. */
  lemma RecoversIff(h: R.History, entries: nat)
    requires h.now.rings.Shaped() && R.Sound(h, entries) && 0 < entries < R.DRAIN_MAX
    ensures !Stalled(h.now) <==>
            exists es :: LocalRun(h, es) && R.Run(h, es).Some? && R.Run(h, es).value.now.pool.free != []
  {
    hide R.Sound, R.Inv, R.DrainForced, P.Valid, LocalRun, R.Run;
    if Stalled(h.now) {
      forall es | LocalRun(h, es)
        ensures R.Run(h, es).Some? && R.Run(h, es).value.now.pool.free == []
      {
        StallStays(h, es);
      }
    } else if h.now.pool.free != [] {
      RunNone(h);
    } else {
      assert R.Inv(h.now, entries) by { SoundInv(h, entries); }
      R.InvBasics(h.now, entries);
      R.ForcedEmpties(h.now, entries);
      R.InvBasics(R.DrainForced(h.now), entries);
      EmptyHasRoom(R.DrainForced(h.now).pool, entries);
      RunOne(h, R.Forced);
    }
  }

  lemma SoundInv(h: R.History, entries: nat)
    requires R.Sound(h, entries)
    ensures R.Inv(h.now, entries)
  {
  }

  // ---- Getting there ----

  /** A packet that reached the buffer and was not out of range leaves the timer running if anything
      is in use. */
  lemma HandledRearms(r: R.Receiver, f: Frame)
    requires r.rings.Shaped() && r.pool.free != [] && R.RecvData(r, f, true).Some?
    requires Reorder.Insert(r.rings, P.Get(r.pool, f).value.1).1 != OutOfRange
    ensures var s := R.RecvData(r, f, true).value; s.pool.count > 0 ==> s.armed
  {
    hide Reorder.Insert, R.DrainOrdered, R.DrainForced;
  }

  /** A packet stalls the receiver exactly if it is out of range and takes the last entry while the
      timer is stopped. */
  lemma StallsIff(r: R.Receiver, f: Frame, reorder: bool, entries: nat, arrivals: seq<Frame>)
    requires R.Inv(r, entries) && 0 < entries < R.DRAIN_MAX && P.Subsequence(P.Frames(r.pool.used), arrivals)
    requires !Stalled(r)
    ensures r.rings.Shaped() && R.RecvData(r, f, reorder).Some?
    ensures Stalled(R.RecvData(r, f, reorder).value) <==> R.Stray(r, f, reorder) && |r.pool.free| == 1 && !r.armed
  {
    hide R.Inv, R.RecvData, Reorder.Insert, P.Subsequence, R.Accounted, P.Valid, P.Get;
    R.InvBasics(r, entries);
    R.RecvKeeps(r, f, reorder, entries, arrivals);
    var s := R.RecvData(r, f, reorder).value;
    if !reorder || r.pool.free == [] {
      R.DirectKeeps(r, f, reorder, entries, arrivals);
    } else {
      R.StrayIsOutOfRange(r, f, entries);
      if R.Stray(r, f, true) {
        StrayTakes(r, f);
      } else {
        HandledRearms(r, f);
        R.InvBasics(s, entries);
        if s.pool.count == 0 {
          assert s.pool.used == [] by { CountIsUsed(s.pool, entries); }
          EmptyHasRoom(s.pool, entries);
        }
      }
    }
  }

  lemma CountIsUsed(pool: P.Pool, entries: nat)
    requires P.Valid(pool, entries)
    ensures pool.count == |pool.used|
  {
  }

  /** A stray takes one entry and leaves buffer and timer alone. */
  lemma StrayTakes(r: R.Receiver, f: Frame)
    requires r.rings.Shaped() && R.Stray(r, f, true)
    ensures R.RecvData(r, f, true).Some?
    ensures var s := R.RecvData(r, f, true).value;
            s.rings == r.rings && s.armed == r.armed && s.pool.free == r.pool.free[1..]
  {
    hide BitAnd, FillOverflow, Place;
  }

  ghost predicate AllLate(rings: Rings, fs: seq<Frame>) {
    rings.initialized && forall i :: 0 <= i < |fs| ==> Sub64(fs[i].seqn, rings.minSeqn) >= 2 * rings.size
  }

  /** Late packets, of a peer that counts from 0 again for instance, take an entry each. */
  lemma {:induction false} LateTake(h: R.History, fs: seq<Frame>)
    requires h.now.rings.Shaped() && AllLate(h.now.rings, fs) && |fs| <= |h.now.pool.free| && !h.now.armed
    ensures R.Run(h, R.Arrivals(fs)).Some?
    ensures var r := R.Run(h, R.Arrivals(fs)).value.now;
            r.rings == h.now.rings && !r.armed && |r.pool.free| == |h.now.pool.free| - |fs|
    decreases |fs|
  {
    hide R.RecvData;
    if fs != [] {
      StrayTakes(h.now, fs[0]);
      assert R.Arrivals(fs)[1..] == R.Arrivals(fs[1..]);
      LateTake(R.Next(h, R.Arrivals(fs)[0]).value, fs[1..]);
    }
  }

  /** From start-up, for every size: one packet, and then as many late ones as the pool has entries,
      stall the receiver. */
  lemma LateStall(size: nat, fs: seq<Frame>)
    requires 0 < size <= MAX_SIZE && |fs| == R.POOL_SIZE
    requires forall i :: 0 <= i < |fs| ==> fs[i].seqn == 0
    ensures var o := R.Run(R.Begin(size, R.POOL_SIZE), [O.Probe(0)] + R.Arrivals(fs));
            o.Some? && Stalled(o.value.now)
  {
    hide R.RecvData, BitAnd;
    var h, f := R.Begin(size, R.POOL_SIZE), O.Probe(0).frame;
    O.InitIdle(size);
    O.PassesThrough(h.now, f);
    var g := R.Next(h, O.Probe(0)).value;
    assert ([O.Probe(0)] + R.Arrivals(fs))[1..] == R.Arrivals(fs);
    assert g.now.pool == h.now.pool && |h.now.pool.free| == R.POOL_SIZE;
    LateTake(g, fs);
  }
}
