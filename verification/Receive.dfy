/** The receive path of src/mlvpn.c over the reorder buffer and the packet pool: what every
    run of arrivals and forced drains keeps, and that no reorderable packet goes missing. */
module Receive {
  import opened Words
  import opened Window
  import opened ReorderLoss
  import opened Reorder
  import H = ReorderHeld
  import P = Pool

  const DRAIN_MAX: nat := 1024
  const POOL_SIZE: nat := 512

  /** `injected` lists the packets handed to the tun device; `armed` is the drain timer. */
  datatype Receiver = Receiver(rings: Rings, pool: P.Pool, injected: seq<Frame>, armed: bool)

  function Init(size: nat, entries: nat): (r: Receiver) {
    Receiver(Reorder.Init(size), P.Init(entries), [], false)
  }

  function Inject(r: Receiver, f: Frame): (s: Receiver) { r.(injected := r.injected + [f]) }

  /** Injects one drained packet and frees its entry; None is the pool's fatal exit. */
  function InjectOne(r: Receiver, p: Packet): (o: Option<Receiver>) {
    match P.Free(r.pool, p.entry)
    case None => None
    case Some(pool) => Some(Inject(r, p.frame).(pool := pool))
  }

  function InjectAll(r: Receiver, out: seq<Packet>): (o: Option<Receiver>)
    ensures o.Some? ==> o.value.rings == r.rings
    decreases |out|
  {
    if out == [] then Some(r)
    else
      match InjectOne(r, out[0])
      case None => None
      case Some(s) => InjectAll(s, out[1..])
  }

  function StopIfEmpty(r: Receiver): (s: Receiver) { if r.pool.count == 0 then r.(armed := false) else r }

  function Rearm(r: Receiver): (s: Receiver) { if r.pool.count > 0 then r.(armed := true) else r }

  function DrainOrdered(r: Receiver): (o: Option<Receiver>)
    requires r.rings.Shaped()
    ensures o.Some? ==> o.value.rings.Shaped()
  {
    var (rings, out) := Reorder.Drain(r.rings, DRAIN_MAX);
    match InjectAll(r.(rings := rings), Packets(out))
    case None => None
    case Some(s) => Some(StopIfEmpty(s))
  }

  function InjectUsed(r: Receiver): (s: Receiver)
    decreases |r.pool.used|
  {
    match P.DrainUsed(r.pool)
    case None => r
    case Some((pool, p)) => InjectUsed(Inject(r, p.frame).(pool := pool))
  }

  /** The forced drain of the timeout, of a status change and of a refused insertion. */
  function DrainForced(r: Receiver): (s: Receiver)
    requires r.rings.Shaped()
    ensures s.rings.Shaped()
  {
    var t := InjectUsed(r);
    StopIfEmpty(t.(pool := P.Reset(t.pool), rings := Reorder.Init(r.rings.size)))
  }

  /** One data packet; with no reorder buffer configured every packet is treated as not reorderable. */
  function RecvData(r: Receiver, f: Frame, reorder: bool): (o: Option<Receiver>)
    requires r.rings.Shaped()
    ensures o.Some? ==> o.value.rings.Shaped()
  {
    if !reorder then Some(Inject(r, f))
    else
      match P.Get(r.pool, f)
      case None => Some(Inject(r, f))
      case Some((pool, p)) =>
        var (rings, verdict) := Reorder.Insert(r.rings, p);
        var s := r.(pool := pool, rings := rings);
        match verdict
        case NoRoom => Some(Rearm(DrainForced(s.(rings := Reorder.Init(s.rings.size)))))
        case OutOfRange => Some(Inject(s, f))
        case Stored =>
          match DrainOrdered(s)
          case None => None
          case Some(t) => Some(Rearm(t))
  }

  // ---- The invariant across the three modules ----

  /** Between events what the reorder buffer holds is in use in the pool, the pool's lists partition
      its entries, packets held back always have a running timer, and the buffer is drained: nothing is
      queued and its head is missing, and for a power of two every slot holds its own number. */
  ghost predicate Inv(r: Receiver, entries: nat) {
    && H.Sane(r.rings) && H.Settled(r.rings) && P.Valid(r.pool, entries)
    && H.Inside(r.rings) <= multiset(r.pool.used)
    && (r.armed ==> r.pool.used != [])
    && (!r.armed ==> H.Inside(r.rings) == multiset{})
    && (PowerOfTwo(r.rings.size) ==> Drained(r.rings))
  }

  /** The branch that injects a packet and leaves its copy in the used list: the pool has room
      and the sequence number is two windows or more away. */
  predicate Stray(r: Receiver, f: Frame, reorder: bool) {
    && reorder && r.pool.free != [] && r.rings.initialized
    && Sub64(f.seqn, r.rings.minSeqn) >= 2 * r.rings.size
  }

  /** Everything injected so far or still in the used list, with multiplicity. */
  function Accounted(r: Receiver): (m: multiset<Frame>) {
    multiset(r.injected) + multiset(P.Frames(r.pool.used))
  }

  lemma InjectAccounts(r: Receiver, f: Frame)
    ensures Accounted(Inject(r, f)) == Accounted(r) + multiset{f}
  {
  }

  ghost predicate Emptied(r: Receiver, out: seq<Packet>, entries: nat, arrivals: seq<Frame>, s: Receiver) {
    && s.rings == r.rings && s.armed == r.armed
    && s.injected == r.injected + P.Frames(out)
    && P.Valid(s.pool, entries) && multiset(s.pool.used) == multiset(r.pool.used) - multiset(out)
    && Accounted(s) == Accounted(r) && P.Subsequence(P.Frames(s.pool.used), arrivals)
  }

  lemma InjectOneKeeps(r: Receiver, p: Packet, entries: nat, arrivals: seq<Frame>)
    requires P.Valid(r.pool, entries) && p in r.pool.used
    requires P.Subsequence(P.Frames(r.pool.used), arrivals)
    ensures InjectOne(r, p).Some? && Emptied(r, [p], entries, arrivals, InjectOne(r, p).value)
  {
    hide P.Subsequence, P.Free, P.Valid;
    P.FreeValid(r.pool, entries, p);
    P.FreeKeepsOrder(r.pool, p.entry, arrivals);
    P.EntryOf(r.pool.used, p);
    var s := InjectOne(r, p).value;
    assert multiset(P.Frames(s.pool.used)) + multiset{p.frame} == multiset(P.Frames(r.pool.used));
    assert multiset(s.injected) == multiset(r.injected) + multiset{p.frame};
    assert P.Frames([p]) == [p.frame];
  }

  lemma EmptiedThen(r: Receiver, p: Packet, s: Receiver, rest: seq<Packet>, t: Receiver,
                    entries: nat, arrivals: seq<Frame>)
    requires Emptied(r, [p], entries, arrivals, s) && Emptied(s, rest, entries, arrivals, t)
    ensures Emptied(r, [p] + rest, entries, arrivals, t)
  {
    hide P.Subsequence, P.Valid, Accounted, P.Frames;
    P.FramesAppend([p], rest);
    P.MinusAppend(multiset(r.pool.used), [p], rest);
    assert r.injected + P.Frames([p]) + P.Frames(rest) == r.injected + (P.Frames([p]) + P.Frames(rest));
  }

  /** Freeing the drained packets never fails, and moves each from the used list to the tun. */
  lemma {:induction false} InjectAllKeeps(r: Receiver, out: seq<Packet>, entries: nat, arrivals: seq<Frame>)
    requires P.Valid(r.pool, entries) && multiset(out) <= multiset(r.pool.used)
    requires P.Subsequence(P.Frames(r.pool.used), arrivals)
    ensures InjectAll(r, out).Some? && Emptied(r, out, entries, arrivals, InjectAll(r, out).value)
    decreases |out|
  {
    hide P.Subsequence, P.Free, P.Valid, Accounted;
    if out == [] {
      assert r.injected + P.Frames(out) == r.injected;
    } else {
      var p := out[0];
      assert out == [p] + out[1..];
      assert p in multiset(out);
      InjectOneKeeps(r, p, entries, arrivals);
      var s := InjectOne(r, p).value;
      assert multiset(out[1..]) <= multiset(s.pool.used);
      InjectAllKeeps(s, out[1..], entries, arrivals);
      EmptiedThen(r, p, s, out[1..], InjectAll(s, out[1..]).value, entries, arrivals);
    }
  }

  /** Taking a pool entry: the copy joins the used list at its end. */
  lemma GetKeeps(r: Receiver, f: Frame, entries: nat, arrivals: seq<Frame>)
    requires P.Valid(r.pool, entries) && r.pool.free != []
    requires P.Subsequence(P.Frames(r.pool.used), arrivals)
    ensures var (pool, p) := P.Get(r.pool, f).value;
            && p.frame == f && P.Valid(pool, entries) && pool.used == r.pool.used + [p]
            && Accounted(r.(pool := pool)) == Accounted(r) + multiset{f}
            && P.Subsequence(P.Frames(pool.used), arrivals + [f])
  {
    hide P.Subsequence, P.Valid;
    P.GetValid(r.pool, entries, f);
    var (pool, p) := P.Get(r.pool, f).value;
    P.FramesAppend(r.pool.used, [p]);
    assert P.Frames([p]) == [f];
    P.SubsequenceAppend(P.Frames(r.pool.used), arrivals, f);
  }

  /** What is known after an insertion that stored its packet, before the drain. */
  ghost predicate Ready(r: Receiver, entries: nat, arrivals: seq<Frame>) {
    && H.Sane(r.rings) && P.Valid(r.pool, entries)
    && H.Inside(r.rings) <= multiset(r.pool.used)
    && P.Subsequence(P.Frames(r.pool.used), arrivals)
    && (PowerOfTwo(r.rings.size) ==> Loaded(r.rings))
  }

  lemma InsideFew(r: Receiver, entries: nat)
    requires H.Sane(r.rings) && P.Valid(r.pool, entries) && H.Inside(r.rings) <= multiset(r.pool.used)
    ensures |H.Inside(r.rings)| <= entries
  {
    hide P.Valid, H.Inside, H.Span, Solid;
    P.ValidDistinct(r.pool, entries);
    var inside, used := H.Inside(r.rings), multiset(r.pool.used);
    assert used == inside + (used - inside);
  }

  lemma SplitUsed(held: multiset<Packet>, out: multiset<Packet>, left: multiset<Packet>, used: multiset<Packet>)
    requires held == out + left && held <= used
    ensures out <= used && left <= used - out
  {
  }

  /** Stopping and rearming the timer leaves it running exactly when the pool is in use. */
  lemma SettleKeeps(r: Receiver, entries: nat)
    requires H.Sane(r.rings) && H.Settled(r.rings) && P.Valid(r.pool, entries)
    requires H.Inside(r.rings) <= multiset(r.pool.used)
    requires PowerOfTwo(r.rings.size) ==> Drained(r.rings)
    ensures var s := Rearm(StopIfEmpty(r)); Inv(s, entries) && s.pool == r.pool && s.injected == r.injected
  {
    hide PowerOfTwo, Drained, H.Span, Solid, H.Inside;
    if r.pool.count == 0 {
      assert multiset(r.pool.used) == multiset{};
    }
  }

  /** Draining takes out packets that are all in use; the rest are still held. */
  lemma DrainTakesUsed(r: Receiver, entries: nat, arrivals: seq<Frame>)
    requires Ready(r, entries, arrivals) && entries < DRAIN_MAX
    ensures var (rings, out) := Reorder.Drain(r.rings, DRAIN_MAX);
            && |out| < DRAIN_MAX && H.Sane(rings) && H.Settled(rings) && rings.size == r.rings.size
            && multiset(Packets(out)) <= multiset(r.pool.used)
            && H.Inside(rings) <= multiset(r.pool.used) - multiset(Packets(out))
            && (PowerOfTwo(rings.size) ==> Drained(rings))
  {
    hide PowerOfTwo, Loaded, Drained, H.Inside, H.Span, Solid, Reorder.Drain, Packets, Held, View;
    hide P.Subsequence, P.Valid;
    InsideFew(r, entries);
    H.DrainSplits(r.rings, DRAIN_MAX);
    var (rings, out) := Reorder.Drain(r.rings, DRAIN_MAX);
    SplitUsed(H.Inside(r.rings), multiset(Packets(out)), H.Inside(rings), multiset(r.pool.used));
    assert |H.Inside(r.rings)| == |Packets(out)| + |H.Inside(rings)|;
    if PowerOfTwo(r.rings.size) {
      LoadedGood(r.rings);
      H.InsideIsHeld(r.rings);
      assert |multiset(Held(View(r.rings)))| == |Held(View(r.rings))|;
      DrainDrains(r.rings, DRAIN_MAX);
    }
  }

  lemma LoadedGood(r: Rings)
    requires Loaded(r)
    ensures Good(r)
  {
  }

  /** The 1024-entry array never fills, the fatal exit is never reached, and the drain restores
      everything the next event needs. */
  lemma DrainOrderedKeeps(r: Receiver, entries: nat, arrivals: seq<Frame>)
    requires Ready(r, entries, arrivals) && entries < DRAIN_MAX
    ensures |Reorder.Drain(r.rings, DRAIN_MAX).1| < DRAIN_MAX
    ensures DrainOrdered(r).Some?
    ensures var s := Rearm(DrainOrdered(r).value);
            Inv(s, entries) && Accounted(s) == Accounted(r) && P.Subsequence(P.Frames(s.pool.used), arrivals)
    ensures var (rings, out) := Reorder.Drain(r.rings, DRAIN_MAX);
            var s := DrainOrdered(r).value;
            && s.rings == rings && s.injected == r.injected + P.Frames(Packets(out))
            && multiset(s.pool.used) == multiset(r.pool.used) - multiset(Packets(out))
  {
    hide PowerOfTwo, Loaded, Drained, H.Inside, H.Span, Solid, Reorder.Drain, Packets;
    hide P.Subsequence, P.Valid, Accounted, InjectAll, Inv;
    DrainTakesUsed(r, entries, arrivals);
    var (rings, out) := Reorder.Drain(r.rings, DRAIN_MAX);
    var d := r.(rings := rings);
    AccountedIgnoresRings(r, d);
    InjectAllKeeps(d, Packets(out), entries, arrivals);
    var t := InjectAll(d, Packets(out)).value;
    SettleKeeps(t, entries);
    AccountedIgnoresRings(t, Rearm(StopIfEmpty(t)));
  }

  lemma AccountedIgnoresRings(r: Receiver, s: Receiver)
    requires s.pool == r.pool && s.injected == r.injected
    ensures Accounted(s) == Accounted(r)
  {
  }

  // ---- One arrival ----

  /** What an event does to the account: the arrival, twice if it strays. */
  ghost predicate Kept(r: Receiver, s: Receiver, f: Frame, reorder: bool, entries: nat, arrivals: seq<Frame>) {
    && Inv(s, entries)
    && Accounted(s) == Accounted(r) + multiset{f} + (if Stray(r, f, reorder) then multiset{f} else multiset{})
    && P.Subsequence(P.Frames(s.pool.used), if reorder then arrivals + [f] else arrivals)
  }

  lemma InjectKeeps(r: Receiver, f: Frame, entries: nat)
    requires Inv(r, entries)
    ensures Inv(Inject(r, f), entries)
  {
  }

  lemma MoreUsed(held: multiset<Packet>, used: seq<Packet>, p: Packet)
    requires held <= multiset(used)
    ensures held <= multiset(used + [p]) && held + multiset{p} <= multiset(used + [p])
  {
    assert multiset(used + [p]) == multiset(used) + multiset{p};
  }

  lemma StoredReady(r: Receiver, f: Frame, entries: nat, arrivals: seq<Frame>)
    requires Inv(r, entries) && r.pool.free != []
    requires P.Subsequence(P.Frames(r.pool.used), arrivals)
    requires Reorder.Insert(r.rings, P.Get(r.pool, f).value.1).1 == Stored
    ensures var (pool, p) := P.Get(r.pool, f).value;
            Ready(r.(pool := pool, rings := Reorder.Insert(r.rings, p).0), entries, arrivals + [f])
  {
    hide PowerOfTwo, Loaded, Drained, H.Inside, H.Span, Solid, Reorder.Insert, P.Subsequence, P.Valid, P.Get, Held;
    GetKeeps(r, f, entries, arrivals);
    var (pool, p) := P.Get(r.pool, f).value;
    H.InsertKeeps(r.rings, p);
    MoreUsed(H.Inside(r.rings), r.pool.used, p);
    if PowerOfTwo(r.rings.size) {
      InsertTakes(r.rings, p);
    }
  }

  /** A stored packet: every packet the drain releases is injected exactly once. */
  lemma StoredKeeps(r: Receiver, f: Frame, entries: nat, arrivals: seq<Frame>)
    requires Inv(r, entries) && entries < DRAIN_MAX && r.pool.free != []
    requires P.Subsequence(P.Frames(r.pool.used), arrivals)
    requires Reorder.Insert(r.rings, P.Get(r.pool, f).value.1).1 == Stored
    ensures RecvData(r, f, true).Some?
    ensures var s := RecvData(r, f, true).value;
            && Inv(s, entries) && Accounted(s) == Accounted(r) + multiset{f}
            && P.Subsequence(P.Frames(s.pool.used), arrivals + [f])
    ensures var (rings, out) := Reorder.Drain(Reorder.Insert(r.rings, P.Get(r.pool, f).value.1).0, DRAIN_MAX);
            var s := RecvData(r, f, true).value;
            && s.rings == rings && s.injected == r.injected + P.Frames(Packets(out))
            && multiset(s.pool.used)
               == multiset(r.pool.used) + multiset{P.Get(r.pool, f).value.1} - multiset(Packets(out))
  {
    hide Inv, Ready, Reorder.Insert, Reorder.Drain, P.Subsequence, P.Valid, P.Get, DrainOrdered, Accounted, Packets;
    InvBasics(r, entries);
    var (pool, p) := P.Get(r.pool, f).value;
    StoredReady(r, f, entries, arrivals);
    GetKeeps(r, f, entries, arrivals);
    var s := r.(pool := pool, rings := Reorder.Insert(r.rings, p).0);
    AccountedIgnoresRings(r.(pool := pool), s);
    DrainOrderedKeeps(s, entries, arrivals + [f]);
  }

  lemma InvBasics(r: Receiver, entries: nat)
    requires Inv(r, entries)
    ensures r.rings.Shaped() && H.Sane(r.rings) && P.Valid(r.pool, entries)
  {
  }

  lemma StrayKeeps(r: Receiver, f: Frame, entries: nat, arrivals: seq<Frame>)
    requires Inv(r, entries) && r.pool.free != []
    requires P.Subsequence(P.Frames(r.pool.used), arrivals)
    requires Reorder.Insert(r.rings, P.Get(r.pool, f).value.1) == (r.rings, OutOfRange)
    ensures RecvData(r, f, true).Some?
    ensures var s := RecvData(r, f, true).value;
            && Inv(s, entries) && Accounted(s) == Accounted(r) + multiset{f} + multiset{f}
            && P.Subsequence(P.Frames(s.pool.used), arrivals + [f])
            && s.rings == r.rings && s.injected == r.injected + [f] && s.pool == P.Get(r.pool, f).value.0
  {
    hide PowerOfTwo, Drained, H.Inside, Reorder.Insert, P.Subsequence, P.Valid, P.Get, Accounted;
    GetKeeps(r, f, entries, arrivals);
    var (pool, p) := P.Get(r.pool, f).value;
    MoreUsed(H.Inside(r.rings), r.pool.used, p);
    var s := r.(pool := pool);
    InjectAccounts(s, f);
  }

  /** A refused packet: the buffer is emptied, and everything in use is injected, this packet last. */
  lemma RefusedKeeps(r: Receiver, f: Frame, entries: nat, arrivals: seq<Frame>)
    requires Inv(r, entries) && r.pool.free != []
    requires P.Subsequence(P.Frames(r.pool.used), arrivals)
    requires Reorder.Insert(r.rings, P.Get(r.pool, f).value.1).1 == NoRoom
    ensures RecvData(r, f, true).Some?
    ensures var s := RecvData(r, f, true).value;
            && Inv(s, entries) && Accounted(s) == Accounted(r) + multiset{f}
            && P.Subsequence(P.Frames(s.pool.used), arrivals + [f])
            && s.rings == Reorder.Init(r.rings.size)
            && s.injected == r.injected + P.Frames(r.pool.used) + [f]
  {
    hide PowerOfTwo, Drained, H.Inside, H.Span, Solid, Reorder.Insert, Reorder.Init;
    hide P.Subsequence, P.Valid, P.Get, Accounted, DrainForced, Inv;
    InvBasics(r, entries);
    GetKeeps(r, f, entries, arrivals);
    var (pool, p) := P.Get(r.pool, f).value;
    H.InsertKeeps(r.rings, p);
    H.InitHoldsNothing(r.rings.size);
    var s := r.(pool := pool, rings := Reorder.Init(r.rings.size));
    AccountedIgnoresRings(r.(pool := pool), s);
    ForcedEmpties(s, entries);
    P.FramesAppend(r.pool.used, [p]);
    assert P.Frames([p]) == [f];
    assert r.injected + (P.Frames(r.pool.used) + [f]) == r.injected + P.Frames(r.pool.used) + [f];
    NothingIsSubsequence(arrivals + [f]);
    assert P.Frames([]) == [];
  }

  /** Which packets are out of range, told from the state before their arrival. */
  lemma StrayIsOutOfRange(r: Receiver, f: Frame, entries: nat)
    requires Inv(r, entries) && r.pool.free != []
    ensures var o := Reorder.Insert(r.rings, P.Get(r.pool, f).value.1);
            (Stray(r, f, true) <==> o.1 == OutOfRange) && (o.1 == OutOfRange ==> o.0 == r.rings)
  {
    hide PowerOfTwo, Drained, H.Inside, H.Span, Solid, P.Valid, Reorder.Insert;
    H.InsertKeeps(r.rings, P.Get(r.pool, f).value.1);
  }

  lemma DirectKeeps(r: Receiver, f: Frame, reorder: bool, entries: nat, arrivals: seq<Frame>)
    requires Inv(r, entries) && P.Subsequence(P.Frames(r.pool.used), arrivals)
    requires !reorder || r.pool.free == []
    ensures RecvData(r, f, reorder) == Some(Inject(r, f)) && Kept(r, Inject(r, f), f, reorder, entries, arrivals)
  {
    hide Inv, P.Subsequence, Accounted;
    InvBasics(r, entries);
    InjectKeeps(r, f, entries);
    InjectAccounts(r, f);
    P.SubsequenceAppend(P.Frames(r.pool.used), arrivals, f);
  }

  /** Every arrival is accounted for, exactly once unless it strays; no fatal exit, and the
      invariant holds again. */
  lemma RecvKeeps(r: Receiver, f: Frame, reorder: bool, entries: nat, arrivals: seq<Frame>)
    requires Inv(r, entries) && entries < DRAIN_MAX && P.Subsequence(P.Frames(r.pool.used), arrivals)
    ensures r.rings.Shaped() && RecvData(r, f, reorder).Some?
    ensures Kept(r, RecvData(r, f, reorder).value, f, reorder, entries, arrivals)
  {
    hide Inv, RecvData, Reorder.Insert, P.Subsequence, Accounted, P.Get;
    InvBasics(r, entries);
    if !reorder || r.pool.free == [] {
      DirectKeeps(r, f, reorder, entries, arrivals);
    } else {
      StrayIsOutOfRange(r, f, entries);
      match Reorder.Insert(r.rings, P.Get(r.pool, f).value.1).1
      case Stored => StoredKeeps(r, f, entries, arrivals);
      case OutOfRange => StrayKeeps(r, f, entries, arrivals);
      case NoRoom => RefusedKeeps(r, f, entries, arrivals);
    }
  }

  // ---- Forced drains ----

  lemma InjectedThen(r: Receiver, p: Packet, rest: seq<Packet>)
    requires r.pool.used != [] && p == r.pool.used[0] && rest == r.pool.used[1..]
    ensures r.injected + P.Frames(r.pool.used) == r.injected + [p.frame] + P.Frames(rest)
  {
    assert P.Frames(r.pool.used) == [p.frame] + P.Frames(rest);
  }

  lemma {:induction false} InjectUsedAll(r: Receiver, entries: nat)
    requires P.Valid(r.pool, entries)
    ensures var s := InjectUsed(r);
            && s.injected == r.injected + P.Frames(r.pool.used) && s.pool.used == []
            && P.Valid(s.pool, entries) && s.rings == r.rings && s.armed == r.armed
    decreases |r.pool.used|
  {
    hide P.Valid;
    if r.pool.used == [] {
      assert r.injected + P.Frames(r.pool.used) == r.injected;
    } else {
      P.DrainUsedValid(r.pool, entries);
      var (pool, p) := P.DrainUsed(r.pool).value;
      var s := Inject(r, p.frame).(pool := pool);
      InjectUsedAll(s, entries);
      InjectedThen(r, p, pool.used);
    }
  }

  lemma InitDrained(size: nat)
    requires 0 < size <= MAX_SIZE && PowerOfTwo(size)
    ensures Drained(Reorder.Init(size))
  {
    var r := Reorder.Init(size);
    assert forall i :: 0 <= i < size ==> SlotSeq(r)[i] == None;
    NoPackets(SlotSeq(r));
  }

  /** A forced drain injects all that is in use, in the order of the used list, and leaves the pool
      and the reorder buffer empty together, whatever the buffer held. */
  lemma ForcedEmpties(r: Receiver, entries: nat)
    requires r.rings.Shaped() && P.Valid(r.pool, entries)
    ensures var s := DrainForced(r);
            && s.injected == r.injected + P.Frames(r.pool.used)
            && s.pool.used == [] && s.pool.count == 0 && s.rings == Reorder.Init(r.rings.size) && !s.armed
            && Inv(s, entries) && Accounted(s) == Accounted(r)
  {
    hide PowerOfTwo, Drained, Reorder.Init;
    InjectUsedAll(r, entries);
    H.InitHoldsNothing(r.rings.size);
    if PowerOfTwo(r.rings.size) {
      InitDrained(r.rings.size);
    }
    var t := InjectUsed(r);
    assert P.Reset(t.pool) == t.pool.(count := 0) == t.pool;
    assert P.Frames([]) == [];
  }

  // ---- Whole runs ----

  /** A packet, a forced drain, or a reload with its reorder_buffer_size. Before a buffer is first
      configured no packet is reorderable and no drain is forced. */
  datatype Event = Data(frame: Frame, reorder: bool) | Forced | Resize(size: Size)

  /** The receiver, the size option, and what arrived: everything, the strays, and the reorderable
      packets in order. */
  datatype History = History(now: Receiver, option: Size,
                             arrived: multiset<Frame>, strays: multiset<Frame>, order: seq<Frame>)

  function Begin(size: Size, entries: nat): (h: History) {
    History(Init(size, entries), size, multiset{}, multiset{}, [])
  }

  /** Another size than the option before replaces the buffer and leaves the pool; 0 is only noted. */
  function Resized(r: Receiver, option: Size, size: Size): (s: Receiver) {
    if size == option || size == 0 then r else r.(rings := Reorder.Init(size))
  }

  /** None if the program exits. */
  function Next(h: History, e: Event): (o: Option<History>)
    requires h.now.rings.Shaped()
    ensures o.Some? ==> o.value.now.rings.Shaped()
  {
    match e
    case Forced => Some(h.(now := DrainForced(h.now)))
    case Resize(size) => Some(h.(now := Resized(h.now, h.option, size), option := size))
    case Data(f, reorder) =>
      match RecvData(h.now, f, reorder)
      case None => None
      case Some(r) =>
        Some(h.(now := r, arrived := h.arrived + multiset{f},
                strays := h.strays + (if Stray(h.now, f, reorder) then multiset{f} else multiset{}),
                order := if reorder then h.order + [f] else h.order))
  }

  /** Reorderable packets, one after the other. */
  function Arrivals(fs: seq<Frame>): (es: seq<Event>)
    ensures |es| == |fs| && forall i :: 0 <= i < |fs| ==> es[i] == Data(fs[i], true)
  {
    seq(|fs|, i requires 0 <= i < |fs| => Data(fs[i], true))
  }

  ghost predicate Sound(h: History, entries: nat) {
    && Inv(h.now, entries)
    && Accounted(h.now) == h.arrived + h.strays
    && P.Subsequence(P.Frames(h.now.pool.used), h.order)
  }

  function Run(h: History, es: seq<Event>): (o: Option<History>)
    requires h.now.rings.Shaped()
    decreases |es|
  {
    if es == [] then Some(h)
    else
      match Next(h, es[0])
      case None => None
      case Some(g) => Run(g, es[1..])
  }

  lemma NextSound(h: History, e: Event, entries: nat)
    requires Sound(h, entries) && entries < DRAIN_MAX
    ensures h.now.rings.Shaped() && Next(h, e).Some? && Sound(Next(h, e).value, entries)
  {
    hide Inv, RecvData, DrainForced, Accounted;
    InvBasics(h.now, entries);
    match e
    case Forced =>
      ForcedEmpties(h.now, entries);
      NothingIsSubsequence(h.order);
      assert P.Frames(DrainForced(h.now).pool.used) == [];
    case Resize(size) =>
      ResizedKeeps(h.now, h.option, size, entries);
    case Data(f, reorder) =>
      RecvKeeps(h.now, f, reorder, entries, h.order);
  }

  /** The packets of a buffer that is replaced stay in the used list and in the account. */
  lemma ResizedKeeps(r: Receiver, option: Size, size: Size, entries: nat)
    requires Inv(r, entries)
    ensures var s := Resized(r, option, size);
            Inv(s, entries) && s.pool == r.pool && Accounted(s) == Accounted(r)
  {
    hide PowerOfTwo, Drained, Reorder.Init, P.Valid;
    if size != option && size != 0 {
      H.InitHoldsNothing(size);
      if PowerOfTwo(size) {
        InitDrained(size);
      }
    }
    AccountedIgnoresRings(r, Resized(r, option, size));
  }

  lemma {:induction false} NothingIsSubsequence(b: seq<Frame>)
    ensures P.Subsequence([], b)
    decreases |b|
  {
    if b != [] {
      NothingIsSubsequence(b[1..]);
    }
  }

  lemma {:induction false} RunSound(h: History, es: seq<Event>, entries: nat)
    requires h.now.rings.Shaped() && Sound(h, entries) && entries < DRAIN_MAX
    ensures Run(h, es).Some? && Sound(Run(h, es).value, entries)
    decreases |es|
  {
    hide Sound, Next;
    if es != [] {
      NextSound(h, es[0], entries);
      RunSound(Next(h, es[0]).value, es[1..], entries);
    }
  }

  /** Whatever the configured sizes: no run exits, and in every reachable state each packet that
      arrived has been injected or is still in the used list, exactly once, except that a stray is
      there twice. */
  lemma NothingLost(size: nat, es: seq<Event>)
    requires 0 < size <= MAX_SIZE
    ensures Run(Begin(size, POOL_SIZE), es).Some?
    ensures var h := Run(Begin(size, POOL_SIZE), es).value;
            && Inv(h.now, POOL_SIZE)
            && multiset(h.now.injected) + multiset(P.Frames(h.now.pool.used)) == h.arrived + h.strays
            && P.Subsequence(P.Frames(h.now.pool.used), h.order)
  {
    hide Run, Reorder.Init, PowerOfTwo, Drained;
    var h := Begin(size, POOL_SIZE);
    BeginSound(size);
    RunSound(h, es, POOL_SIZE);
  }

  lemma BeginSound(size: nat)
    requires 0 < size <= MAX_SIZE
    ensures Begin(size, POOL_SIZE).now.rings.Shaped() && Sound(Begin(size, POOL_SIZE), POOL_SIZE)
  {
    hide Reorder.Init, PowerOfTwo, Drained, P.Valid, P.Init, H.Inside, H.Span, Solid;
    H.InitHoldsNothing(size);
    if PowerOfTwo(size) {
      InitDrained(size);
    }
    P.InitValid(POOL_SIZE);
    assert P.Init(POOL_SIZE).used == [] by { NewPool(POOL_SIZE); }
    NothingIsSubsequence([]);
    assert P.Frames([]) == [];
  }

  lemma NewPool(entries: nat)
    ensures P.Init(entries).used == []
  {
  }
}
