/** From the reorder buffer to the tun device, over all runs of the receive path: what the buffer
    releases between two times it is emptied is in stream order, exactly for powers of two. */
module ReceiveOrder {
  import opened Words
  import opened Window
  import opened Reorder
  import P = Pool
  import H = ReorderHeld
  import R = Receive
  import Runs = ReorderRuns

  /** The reorder buffer's side of one arrival: an insertion and a full drain. */
  function Both(t: Runs.Trace, p: Packet): (u: Runs.Trace)
    requires t.rings.Shaped()
    ensures u.rings.Shaped()
  {
    Runs.Step(Runs.Step(t, Runs.Arrive(p)), Runs.Take(R.DRAIN_MAX))
  }

  function PacketFor(r: R.Receiver, f: Frame): (p: Packet)
    requires r.pool.free != []
  {
    P.Get(r.pool, f).value.1
  }

  /** What the buffer answers, if the event reaches it: unordered packets and those that find the
      pool full do not. */
  function Answer(r: R.Receiver, e: R.Event): (o: Option<Verdict>)
    requires r.rings.Shaped()
  {
    if e.Data? && e.reorder && r.pool.free != []
    then Some(Reorder.Insert(r.rings, PacketFor(r, e.frame)).1) else None
  }

  /** The buffer is emptied by a forced drain, of its own or after a refusal, or replaced. */
  predicate Restarts(h: R.History, e: R.Event)
    requires h.now.rings.Shaped()
  {
    e.Forced? || Answer(h.now, e) == Some(NoRoom) || (e.Resize? && e.size != h.option && e.size != 0)
  }

  function Added(before: seq<Frame>, after: seq<Frame>): (fs: seq<Frame>) {
    if |before| <= |after| then after[|before|..] else []
  }

  /** A history, what the buffer released to the tun since it was last emptied, and the buffer's own
      run, which knows the unwrapped value of min_seqn. */
  datatype Log = Log(h: R.History, released: seq<Frame>, trace: Runs.Trace)
  {
    predicate Shaped() { h.now.rings.Shaped() && trace.rings.Shaped() }
  }

  function Start(size: Size): (g: Log) { Log(R.Begin(size, R.POOL_SIZE), [], Runs.Start(size)) }

  function Next(g: Log, e: R.Event): (o: Option<Log>)
    requires g.Shaped()
    ensures o.Some? ==> o.value.Shaped()
  {
    match R.Next(g.h, e)
    case None => None
    case Some(k) =>
      Some(if Answer(g.h.now, e) == Some(Stored) then
             Log(k, g.released + Added(g.h.now.injected, k.now.injected), Both(g.trace, PacketFor(g.h.now, e.frame)))
           else if Restarts(g.h, e) then Log(k, [], Runs.Start(k.now.rings.size))
           else g.(h := k))
  }

  function Run(g: Log, es: seq<R.Event>): (o: Option<Log>)
    requires g.Shaped()
    decreases |es|
  {
    if es == [] then Some(g)
    else
      match Next(g, es[0])
      case None => None
      case Some(k) => Run(k, es[1..])
  }

  /** Every packet that is stored is near the window; of the others nothing is asked. */
  ghost predicate NearRun(g: Log, es: seq<R.Event>)
    requires g.Shaped()
    decreases |es|
  {
    es != [] ==>
      && (Answer(g.h.now, es[0]) == Some(Stored) ==> Runs.Near(g.trace, Runs.Arrive(PacketFor(g.h.now, es[0].frame))))
      && (Next(g, es[0]).Some? ==> NearRun(Next(g, es[0]).value, es[1..]))
  }

  /** The receiver and the buffer's run have the same rings, what was drained is what was released,
      and a power of two keeps it in order. */
  ghost predicate Together(g: Log) {
    && g.h.now.rings == g.trace.rings && g.released == P.Frames(Packets(g.trace.out))
    && (PowerOfTwo(g.h.now.rings.size) ==> Runs.InOrder(g.trace))
  }

  lemma BothFlow(t: Runs.Trace, p: Packet)
    requires t.rings.Shaped() && Runs.Near(t, Runs.Arrive(p)) && Runs.InOrder(t)
    ensures Runs.InOrder(Both(t, p))
  {
    hide Runs.Step, Runs.InOrder;
    Runs.StepFlows(t, Runs.Arrive(p));
    Runs.StepFlows(Runs.Step(t, Runs.Arrive(p)), Runs.Take(R.DRAIN_MAX));
  }

  lemma InsertSize(r: Rings, p: Packet)
    requires H.Sane(r)
    ensures Insert(r, p).0.size == r.size && Reorder.Drain(Insert(r, p).0, R.DRAIN_MAX).0.size == r.size
  {
    hide Insert, Reorder.Drain;
    H.InsertKeeps(r, p);
    H.DrainSplits(Insert(r, p).0, R.DRAIN_MAX);
  }

  lemma StoredTogether(g: Log, e: R.Event, entries: nat)
    requires g.Shaped() && R.Sound(g.h, entries) && entries < R.DRAIN_MAX && Together(g)
    requires Answer(g.h.now, e) == Some(Stored)
    requires Runs.Near(g.trace, Runs.Arrive(PacketFor(g.h.now, e.frame)))
    ensures Next(g, e).Some? && Together(Next(g, e).value)
  {
    hide R.Inv, R.RecvData, Insert, Reorder.Drain, P.Subsequence, P.Get, Packets, PowerOfTwo, Runs.InOrder, Runs.Near;
    var r, t, f := g.h.now, g.trace, e.frame;
    var p := PacketFor(r, f);
    R.StoredKeeps(r, f, entries, g.h.order);
    R.InvBasics(r, entries);
    InsertSize(r.rings, p);
    var out := Reorder.Drain(Insert(r.rings, p).0, R.DRAIN_MAX).1;
    PacketsAppend(t.out, out);
    P.FramesAppend(Packets(t.out), Packets(out));
    assert (r.injected + P.Frames(Packets(out)))[|r.injected|..] == P.Frames(Packets(out));
    if PowerOfTwo(r.rings.size) {
      BothFlow(t, p);
    }
  }

  lemma StartTogether(size: nat)
    requires 0 < size <= MAX_SIZE
    ensures PowerOfTwo(size) ==> Runs.InOrder(Runs.Start(size))
    ensures Runs.Start(size).rings == Reorder.Init(size) && Reorder.Init(size).size == size
    ensures P.Frames(Packets(Runs.Start(size).out)) == []
  {
    hide PowerOfTwo, Runs.InOrder;
    Runs.StartInOrder(size);
  }

  /** A packet that is not stored leaves the rings alone or empties them. */
  lemma DataTogether(g: Log, e: R.Event, entries: nat)
    requires g.Shaped() && R.Sound(g.h, entries) && entries < R.DRAIN_MAX && Together(g)
    requires e.Data? && Answer(g.h.now, e) != Some(Stored)
    ensures Next(g, e).Some? && Together(Next(g, e).value)
  {
    hide R.Inv, R.RecvData, R.Accounted, Insert, P.Subsequence, P.Get;
    hide PowerOfTwo, Runs.InOrder, Runs.Start, Reorder.Init;
    var r, f := g.h.now, e.frame;
    R.InvBasics(r, entries);
    if Answer(r, e).None? {
      R.DirectKeeps(r, f, e.reorder, entries, g.h.order);
    } else if Answer(r, e) == Some(NoRoom) {
      R.RefusedKeeps(r, f, entries, g.h.order);
      StartTogether(r.rings.size);
    } else {
      R.StrayIsOutOfRange(r, f, entries);
      R.StrayKeeps(r, f, entries, g.h.order);
    }
  }

  lemma RestartTogether(g: Log, e: R.Event, entries: nat)
    requires g.Shaped() && R.Sound(g.h, entries) && entries < R.DRAIN_MAX && Together(g) && !e.Data?
    ensures Next(g, e).Some? && Together(Next(g, e).value)
  {
    hide R.Inv, R.DrainForced, R.Accounted, P.Subsequence, PowerOfTwo, Runs.InOrder, Runs.Start, Reorder.Init;
    var r := g.h.now;
    R.InvBasics(r, entries);
    match e
    case Forced =>
      R.ForcedEmpties(r, entries);
      StartTogether(r.rings.size);
    case Resize(size) =>
      if Restarts(g.h, e) {
        StartTogether(size);
      }
  }

  lemma {:induction false} RunTogether(g: Log, es: seq<R.Event>, entries: nat)
    requires g.Shaped() && R.Sound(g.h, entries) && entries < R.DRAIN_MAX && Together(g) && NearRun(g, es)
    ensures Run(g, es).Some? && Together(Run(g, es).value) && R.Run(g.h, es) == Some(Run(g, es).value.h)
    decreases |es|
  {
    hide R.Sound, Together, R.Next, Answer, Both, Runs.Near;
    if es != [] {
      if Answer(g.h.now, es[0]) == Some(Stored) {
        StoredTogether(g, es[0], entries);
      } else if es[0].Data? {
        DataTogether(g, es[0], entries);
      } else {
        RestartTogether(g, es[0], entries);
      }
      R.NextSound(g.h, es[0], entries);
      RunTogether(Next(g, es[0]).value, es[1..], entries);
    }
  }

  lemma {:induction false} PacketsOfSolid(s: Slots)
    requires forall i :: 0 <= i < |s| ==> s[i].Some?
    ensures |Packets(s)| == |s| && forall i :: 0 <= i < |s| ==> Packets(s)[i] == s[i].value
  {
    if s != [] {
      PacketsOfSolid(s[1..]);
    }
  }

  ghost predicate Ascending(fs: seq<Frame>) {
    forall i, j :: 0 <= i < j < |fs| ==> fs[i].index < fs[j].index
  }

  lemma DrainedRises(u: Runs.Trace)
    requires Runs.InOrder(u)
    ensures Ascending(P.Frames(Packets(u.out)))
  {
    hide Runs.InOrder, Packets;
    Runs.InOrderDelivers(u);
    PacketsOfSolid(u.out);
  }

  /** In every run, whatever strays, unordered packets, full pools, forced drains and reloads it
      holds: what the buffer released to the tun since it was last emptied is in strictly increasing
      stream order, across any number of 64-bit wraps, if its size is a power of two. */
  lemma InjectedInOrder(size: nat, es: seq<R.Event>)
    requires 0 < size <= MAX_SIZE && NearRun(Start(size), es)
    ensures Run(Start(size), es).Some?
    ensures var g := Run(Start(size), es).value;
            && R.Run(R.Begin(size, R.POOL_SIZE), es) == Some(g.h)
            && (PowerOfTwo(g.h.now.rings.size) ==> Ascending(g.released))
  {
    hide R.Sound, R.Run, Run, NearRun, PowerOfTwo, Runs.InOrder, R.Begin;
    var g := Start(size);
    R.BeginSound(size);
    StartTogether(size);
    assert g.h.now.rings == g.trace.rings by { BeginRings(size); }
    RunTogether(g, es, R.POOL_SIZE);
    var u := Run(g, es).value;
    if PowerOfTwo(u.h.now.rings.size) {
      DrainedRises(u.trace);
    }
  }

  lemma BeginRings(size: Size)
    ensures R.Begin(size, R.POOL_SIZE).now.rings == Reorder.Init(size)
  {
  }

  // ---- Exactly the powers of two ----

  /** Nothing is held and nothing is in use. */
  ghost predicate Idle(r: R.Receiver) {
    && r.rings.Shaped() && r.rings.rTail == r.rings.rHead
    && (forall i :: 0 <= i < r.rings.size ==> r.rings.order[i] == None)
    && r.pool.used == [] && r.pool.count == 0 && r.pool.free != []
  }

  /** A packet whose slot is the head goes straight through, whatever its distance. */
  ghost predicate AtHead(r: R.Receiver, f: Frame)
    requires r.rings.Shaped()
  {
    var low := if r.rings.initialized then r.rings.minSeqn else f.seqn;
    Sub64(f.seqn, low) < r.rings.size && r.rings.Masked(r.rings.oHead + Sub64(f.seqn, low)) == r.rings.oHead
  }

  function Passed(r: R.Receiver, f: Frame): (s: R.Receiver)
    requires r.rings.Shaped()
  {
    var low := if r.rings.initialized then r.rings.minSeqn else f.seqn;
    var rings := r.rings.(oHead := r.rings.Masked(r.rings.oHead + 1), minSeqn := Add64(low, 1), initialized := true);
    R.Receiver(rings, r.pool, r.injected + [f], false)
  }

  lemma InsertAtHead(r: R.Receiver, f: Frame)
    requires Idle(r) && AtHead(r, f)
    ensures var p := PacketFor(r, f);
            var s := Started(r.rings, p);
            && Insert(r.rings, p) == (s.(order := s.order[s.oHead := Some(p)]), Stored)
            && Reorder.Drain(Insert(r.rings, p).0, R.DRAIN_MAX) == (Passed(r, f).rings, [Some(p)])
  {
    hide BitAnd, Reorder.Drain, FillOverflow;
    var p := PacketFor(r, f);
    var s := Insert(r.rings, p).0;
    DrainLone(s, p, R.DRAIN_MAX);
    assert r.rings.order[r.rings.oHead := Some(p)][r.rings.oHead := None] == r.rings.order;
  }

  lemma FreeOnly(free: seq<nat>, p: Packet)
    ensures P.Free(P.Pool(free, [p], 1), p.entry) == Some(P.Pool([p.entry] + free, [], 0))
  {
    hide P.Entries;
    P.EntryOf([p], p);
    assert P.Without([p], p.entry) == [p][1..] == [];
  }

  /** The entry just taken goes back where it came from. */
  lemma FreeLone(q: P.Pool, f: Frame)
    requires q.used == [] && q.count == 0 && q.free != []
    ensures var (pool, p) := P.Get(q, f).value; P.Free(pool, p.entry) == Some(q)
  {
    hide P.Free;
    var (pool, p) := P.Get(q, f).value;
    assert [] + [p] == [p];
    FreeOnly(q.free[1..], p);
    assert [p.entry] + q.free[1..] == q.free;
  }

  lemma InjectLone(r: R.Receiver, pool: P.Pool, p: Packet)
    requires P.Free(pool, p.entry) == Some(r.pool)
    ensures R.InjectAll(r.(pool := pool), [p]) == Some(r.(injected := r.injected + [p.frame]))
  {
    hide P.Free;
    assert [p][1..] == [];
  }

  /** The arrival of a packet at the head of an idle receiver, written out. */
  lemma PassesThrough(r: R.Receiver, f: Frame)
    requires Idle(r) && AtHead(r, f)
    ensures R.RecvData(r, f, true) == Some(Passed(r, f)) && Idle(Passed(r, f))
    ensures Answer(r, R.Data(f, true)) == Some(Stored)
  {
    hide BitAnd, Reorder.Drain, Insert, R.InjectAll, P.Free;
    InsertAtHead(r, f);
    var (pool, p) := P.Get(r.pool, f).value;
    assert Packets([Some(p)]) == [p];
    FreeLone(r.pool, f);
    InjectLone(r.(rings := Passed(r, f).rings), pool, p);
  }

  function Probe(index: U64): (e: R.Event) { R.Data(Runs.Probe(index).frame, true) }

  /** With a bit missing from the mask, position 1 + p is taken for position 1. */
  lemma HeadsCollide(m: nat)
    ensures BitAnd(BitAnd(1, m) + LowestClear(m), m) == BitAnd(1, m)
  {
    LowestClearMasksOut(m);
    Runs.CollisionMasks(m);
    if m % 2 == 1 {
      var p := LowestClear(m);
      assert BitAnd(1 + p, m) == 2 * BitAnd((1 + p) / 2, m / 2) + 1 && (1 + p) / 2 == p / 2;
    }
  }

  /** The same arrival in a log. */
  ghost predicate Lined(g: Log) { g.Shaped() && Idle(g.h.now) && g.trace.rings == g.h.now.rings }

  lemma PassesLogged(g: Log, f: Frame)
    requires Lined(g) && AtHead(g.h.now, f) && f.seqn < 0x1_0000_0000
    requires if g.h.now.rings.initialized then g.h.now.rings.minSeqn < 0x1_0000_0000 else f.index == f.seqn
    ensures var o := Next(g, R.Data(f, true));
            && o.Some? && Lined(o.value) && o.value.h.now == Passed(g.h.now, f) && o.value.released == g.released + [f]
            && o.value.trace.base == 1 + (if g.h.now.rings.initialized then g.trace.base else f.index)
  {
    hide BitAnd, Reorder.Drain, Insert, R.RecvData, Idle;
    var r := g.h.now;
    PassesThrough(r, f);
    IdleHas(r);
    InsertAtHead(r, f);
    assert (r.injected + [f])[|r.injected|..] == [f];
    var t, p := g.trace, PacketFor(r, f);
    var u := Runs.Step(t, Runs.Arrive(p));
    assert u.rings.minSeqn == Started(t.rings, p).minSeqn;
    assert u.base == if t.rings.initialized then t.base else f.index;
    assert Runs.Step(u, Runs.Take(R.DRAIN_MAX)).base == u.base + 1 by {
      AdvanceDistance(u.rings.minSeqn, 1);
    }
  }

  lemma IdleHas(r: R.Receiver)
    requires Idle(r)
    ensures r.pool.free != [] && r.rings.Shaped()
  {
  }

  lemma InitIdle(size: nat)
    requires 0 < size <= MAX_SIZE
    ensures Lined(Start(size)) && AtHead(Start(size).h.now, Probe(0).frame)
  {
    hide PowerOfTwo;
  }

  /** After k packets that went straight through, numbered below and counted from 0. */
  ghost predicate After(g: Log, size: nat, fs: seq<Frame>) {
    && Lined(g) && g.h.now.rings.initialized && g.h.now.rings.size == size
    && g.trace.base == g.h.now.rings.minSeqn == |fs| && g.released == fs && g.h.now.injected == fs
  }

  lemma FirstPasses(size: nat)
    requires 0 < size <= MAX_SIZE
    ensures var o := Next(Start(size), Probe(0));
            && o.Some? && After(o.value, size, [Probe(0).frame])
            && o.value.h.now.rings.oHead == BitAnd(1, size - 1)
    ensures Start(size).h.now.pool.free != []
    ensures Runs.Near(Start(size).trace, Runs.Arrive(PacketFor(Start(size).h.now, Probe(0).frame)))
  {
    hide BitAnd, PowerOfTwo, Next;
    var f := Probe(0).frame;
    InitIdle(size);
    PassesLogged(Start(size), f);
    assert [] + [f] == [f];
  }

  /** One more packet at the head: where it is, and that it is near the window. */
  lemma NextPasses(g: Log, size: nat, fs: seq<Frame>, index: U64)
    requires After(g, size, fs) && AtHead(g.h.now, Probe(index).frame)
    requires |fs| <= index < 0x1_0000_0000
    ensures var o := Next(g, Probe(index));
            && o.Some? && After(o.value, size, fs + [Probe(index).frame])
            && o.value.h.now.rings.oHead == g.h.now.rings.Masked(g.h.now.rings.oHead + 1)
    ensures Runs.Near(g.trace, Runs.Arrive(PacketFor(g.h.now, Probe(index).frame)))
  {
    hide BitAnd, PowerOfTwo, Next;
    PassesLogged(g, Probe(index).frame);
  }

  lemma TwoPass(size: nat, p: nat) returns (a: Log, b: Log)
    requires 1 < size <= MAX_SIZE && !PowerOfTwo(size) && p == LowestClear(size - 1)
    ensures p < size - 1
    ensures Next(Start(size), Probe(0)) == Some(a) && a.Shaped() && a.h.now.pool.free != []
    ensures Runs.Near(a.trace, Runs.Arrive(PacketFor(a.h.now, Probe(1 + p).frame)))
    ensures Next(a, Probe(1 + p)) == Some(b) && After(b, size, [Probe(0).frame, Probe(1 + p).frame])
    ensures b.h.now.rings.Masked(b.h.now.rings.oHead) == b.h.now.rings.oHead
  {
    hide BitAnd, LowestClear, PowerOfTwo, Next;
    LowestClearInside(size - 1);
    FirstPasses(size);
    a := Next(Start(size), Probe(0)).value;
    HeadsCollide(size - 1);
    NextPasses(a, size, [Probe(0).frame], 1 + p);
    b := Next(a, Probe(1 + p)).value;
    MaskTwice(a.h.now.rings.oHead + 1, size - 1);
    assert [Probe(0).frame] + [Probe(1 + p).frame] == [Probe(0).frame, Probe(1 + p).frame];
  }

  lemma RunCons(g: Log, e: R.Event, es: seq<R.Event>)
    requires g.Shaped() && Next(g, e).Some?
    requires Answer(g.h.now, e) == Some(Stored) ==> Runs.Near(g.trace, Runs.Arrive(PacketFor(g.h.now, e.frame)))
    ensures Run(g, [e] + es) == Run(Next(g, e).value, es)
    ensures NearRun(Next(g, e).value, es) ==> NearRun(g, [e] + es)
  {
    hide Next, Answer;
    assert ([e] + es)[1..] == es;
  }

  lemma RunNone(g: Log)
    requires g.Shaped()
    ensures Run(g, []) == Some(g) && NearRun(g, [])
  {
  }

  function Overtaken(size: nat, last: U64): (es: seq<R.Event>)
    requires 1 < size <= MAX_SIZE && !PowerOfTwo(size)
  {
    LowestClearInside(size - 1);
    [Probe(0), Probe(1 + LowestClear(size - 1)), Probe(last)]
  }

  /** The program's own run with any other size: position 2 is released after 1 + p, which is 2
      again or later. */
  lemma OvertakenReleases(size: nat)
    requires 1 < size <= MAX_SIZE && !PowerOfTwo(size)
    ensures NearRun(Start(size), Overtaken(size, 2)) && Run(Start(size), Overtaken(size, 2)).Some?
    ensures var g := Run(Start(size), Overtaken(size, 2)).value;
            g.h.now.rings.size == size && !Ascending(g.released)
  {
    hide BitAnd, LowestClear, PowerOfTwo, Next, Run, NearRun;
    var p := LowestClear(size - 1);
    var a, b := TwoPass(size, p);
    FirstPasses(size);
    NextPasses(b, size, [Probe(0).frame, Probe(1 + p).frame], 2);
    var c := Next(b, Probe(2)).value;
    RunNone(c);
    RunCons(b, Probe(2), []);
    RunCons(a, Probe(1 + p), [Probe(2)] + []);
    RunCons(Start(size), Probe(0), [Probe(1 + p)] + ([Probe(2)] + []));
    assert Overtaken(size, 2) == [Probe(0)] + ([Probe(1 + p)] + ([Probe(2)] + []));
    assert c.released[1].index >= c.released[2].index;
  }

  /** A packet the window has passed is out of range and goes to the tun at once. */
  lemma LateInjects(h: R.History, index: U64)
    requires h.now.rings.Shaped() && h.now.pool.free != [] && h.now.rings.initialized
    requires Sub64(index, h.now.rings.minSeqn) >= 2 * h.now.rings.size
    ensures R.Next(h, Probe(index)).Some?
    ensures R.Next(h, Probe(index)).value.now.injected == h.now.injected + [Probe(index).frame]
  {
    hide BitAnd, FillOverflow, Place;
  }

  lemma LogNext(g: Log, e: R.Event)
    requires g.Shaped() && Next(g, e).Some?
    ensures R.Next(g.h, e) == Some(Next(g, e).value.h)
  {
    hide R.Next, Answer;
  }

  lemma ThreeEvents(h0: R.History, e0: R.Event, e1: R.Event, e2: R.Event, h1: R.History, h2: R.History, h3: R.History)
    requires h0.now.rings.Shaped() && R.Next(h0, e0) == Some(h1)
    requires R.Next(h1, e1) == Some(h2) && R.Next(h2, e2) == Some(h3)
    ensures R.Run(h0, [e0, e1, e2]) == Some(h3)
  {
    hide R.Next;
    assert [e0, e1, e2][1..] == [e1, e2] && [e1, e2][1..] == [e2] && [e2][1..] == [];
    assert R.Run(h2, [e2]) == R.Run(h3, []);
    assert R.Run(h1, [e1, e2]) == R.Run(h2, [e2]);
  }

  /** And the tun device gets 0, 1 + p, 1 in just the order of their arrival. */
  lemma OvertakenInjects(size: nat)
    requires 1 < size <= MAX_SIZE && !PowerOfTwo(size)
    ensures var o, p := R.Run(R.Begin(size, R.POOL_SIZE), Overtaken(size, 1)), LowestClear(size - 1);
            o.Some? && 1 < 1 + p < size && o.value.now.injected == [Probe(0).frame, Probe(1 + p).frame, Probe(1).frame]
  {
    hide BitAnd, LowestClear, PowerOfTwo, R.Run, R.Next, Next;
    var p := LowestClear(size - 1);
    var a, b := TwoPass(size, p);
    LogNext(Start(size), Probe(0));
    LogNext(a, Probe(1 + p));
    LateInjects(b.h, 1);
    ThreeEvents(R.Begin(size, R.POOL_SIZE), Probe(0), Probe(1 + p), Probe(1), a.h, b.h, R.Next(b.h, Probe(1)).value);
  }

  /** The receive path releases in order, in all its runs, exactly for powers of two. */
  lemma TunOrderIffPowerOfTwo(size: nat)
    requires 0 < size <= MAX_SIZE
    ensures PowerOfTwo(size) <==>
            forall es :: NearRun(Start(size), es) && Run(Start(size), es).Some?
                         && Run(Start(size), es).value.h.now.rings.size == size ==>
                           Ascending(Run(Start(size), es).value.released)
  {
    hide Ascending;
    if PowerOfTwo(size) {
      forall es | NearRun(Start(size), es) && Run(Start(size), es).Some?
                  && Run(Start(size), es).value.h.now.rings.size == size
        ensures Ascending(Run(Start(size), es).value.released)
      {
        InjectedInOrder(size, es);
      }
    } else {
      OvertakenReleases(size);
    }
  }
}
