/** The packet pool and the receive path as objects that change in place. */
module ReceiverObjects {
  import opened Words
  import opened Window
  import opened ReorderBuffer
  import Reorder
  import P = Pool
  import R = Receive

  /** The free and used lists of src/buffer.c. */
  class FreeBuffer {
    var free: seq<nat>
    var used: seq<Packet>
    var count: nat

    ghost function Lists(): (p: P.Pool)
      reads this
    {
      P.Pool(free, used, count)
    }

    constructor (size: nat)
      ensures Lists() == P.Init(size)
    {
      used, count := [], 0;
      var list: seq<nat> := [];
      for i := 0 to size
        invariant list == seq(i, k requires 0 <= k < i => i - 1 - k)
      {
        list := [i] + list;
      }
      free := list;
    }

    method Get(frame: Frame) returns (o: Option<Packet>)
      modifies this
      ensures match P.Get(old(Lists()), frame)
              case None => o == None && Lists() == old(Lists())
              case Some((pool, p)) => o == Some(p) && Lists() == pool
    {
      if free == [] {
        return None;
      }
      var p := Packet(free[0], frame);
      free, used, count := free[1..], used + [p], count + 1;
      o := Some(p);
    }

    method DrainUsed() returns (o: Option<Packet>)
      requires used != [] ==> count > 0
      modifies this
      ensures match P.DrainUsed(old(Lists()))
              case None => o == None && Lists() == old(Lists())
              case Some((pool, p)) => o == Some(p) && Lists() == pool
    {
      if used == [] {
        return None;
      }
      var p := used[0];
      free, used, count := [p.entry] + free, used[1..], count - 1;
      o := Some(p);
    }

    method Reset()
      modifies this
      ensures Lists() == P.Reset(old(Lists()))
    {
      while used != []
        invariant P.Reset(Lists()) == P.Reset(old(Lists()))
        decreases |used|
      {
        free, used := [used[0].entry] + free, used[1..];
      }
      count := 0;
    }

    /** Searches the used list for the pointer; false is the fatal exit. */
    method Free(entry: nat) returns (found: bool)
      requires used != [] ==> count > 0
      modifies this
      ensures match P.Free(old(Lists()), entry)
              case None => !found && Lists() == old(Lists())
              case Some(pool) => found && Lists() == pool
      ensures old(count == |used|) ==> count == |used|
    {
      var i := 0;
      while i < |used|
        invariant i <= |used|
        invariant entry !in P.Entries(used[..i])
        invariant P.Without(used, entry) == used[..i] + P.Without(used[i..], entry)
      {
        if used[i].entry == entry {
          assert P.Entries(used)[i] == entry;
          assert P.Without(used[i..], entry) == used[i + 1..];
          free, used, count := [entry] + free, used[..i] + used[i + 1..], count - 1;
          return true;
        }
        assert P.Without(used[i..], entry) == [used[i]] + P.Without(used[i + 1..], entry);
        ghost var rest := P.Without(used[i + 1..], entry);
        assert used[..i] + ([used[i]] + rest) == used[..i + 1] + rest;
        assert P.Entries(used[..i + 1]) == P.Entries(used[..i]) + [used[i].entry];
        i := i + 1;
      }
      assert used[..i] == used;
      found := false;
    }
  }

  /** The receive side of src/mlvpn.c: reorder buffer, pool, tun queue and drain timer. */
  class Receiver {
    var rings: Buffer
    const pool: FreeBuffer
    var injected: seq<Frame>
    var armed: bool
    var option: Reorder.Size

    ghost predicate Valid()
      reads this, rings, rings.order, rings.ready, pool
    {
      rings.Valid() && pool.count == |pool.used|
    }

    ghost function State(): (r: R.Receiver)
      reads this, rings, rings.order, rings.ready, pool
    {
      R.Receiver(rings.Snapshot(), pool.Lists(), injected, armed)
    }

    constructor (size: nat, entries: nat)
      requires 0 < size <= Reorder.MAX_SIZE
      ensures Valid() && State() == R.Init(size, entries) && option == size
    {
      rings := new Buffer(size);
      pool := new FreeBuffer(entries);
      injected, armed, option := [], false, size;
    }

    method Inject(f: Frame)
      modifies this`injected
      ensures State() == R.Inject(old(State()), f)
    {
      injected := injected + [f];
    }

    /** The drain in sequence order; false is the pool's fatal exit. Every drained pointer is set,
        as DrainDrains shows. */
    method DrainOrdered() returns (alive: bool)
      requires Valid()
      modifies this`injected, this`armed, rings, rings.order, pool
      ensures match R.DrainOrdered(old(State()))
              case None => !alive
              case Some(r) => alive && Valid() && State() == r
    {
      hide Reorder.Drain, R.InjectOne;
      var slots := rings.Take(R.DRAIN_MAX);
      ghost var start := State();
      var i := 0;
      while i < |slots|
        invariant i <= |slots| && Valid()
        invariant R.InjectAll(State(), Packets(slots[i..])) == R.InjectAll(start, Packets(slots))
      {
        ghost var before := State();
        if slots[i].Some? {
          var p := slots[i].value;
          assert Packets(slots[i..]) == [p] + Packets(slots[i + 1..]) by { assert slots[i..][1..] == slots[i + 1..]; }
          var found := InjectAndFree(p);
          if !found {
            return false;
          }
        } else {
          assert Packets(slots[i..]) == Packets(slots[i + 1..]) by { assert slots[i..][1..] == slots[i + 1..]; }
        }
        i := i + 1;
      }
      assert Packets(slots[i..]) == [];
      if pool.count == 0 {
        armed := false;
      }
      alive := true;
    }

    method InjectAndFree(p: Packet) returns (found: bool)
      requires Valid()
      modifies this`injected, pool
      ensures match R.InjectOne(old(State()), p)
              case None => !found
              case Some(r) => found && Valid() && State() == r
    {
      Inject(p.frame);
      found := pool.Free(p.entry);
    }

    /** The forced drain. */
    method DrainForced()
      requires Valid()
      modifies this`injected, this`armed, rings, rings.order, rings.ready, pool
      ensures Valid() && State() == R.DrainForced(old(State()))
    {
      ghost var start := State();
      while pool.used != []
        invariant Valid() && R.InjectUsed(State()) == R.InjectUsed(start) && rings.Snapshot() == start.rings
        decreases |pool.used|
      {
        var o := pool.DrainUsed();
        Inject(o.value.frame);
      }
      pool.Reset();
      rings.Reset();
      if pool.count == 0 {
        armed := false;
      }
    }

    /** A reload with its reorder_buffer_size: a new buffer for a new size, the pool as it was. */
    method Reload(size: Reorder.Size)
      requires Valid()
      modifies this`rings, this`option
      ensures Valid() && State() == R.Resized(old(State()), old(option), size) && option == size
    {
      if size != option {
        option := size;
        if size > 0 {
          rings := new Buffer(size);
        }
      }
    }

    /** One data packet from the network; false if the program exits. */
    method RecvData(f: Frame, reorder: bool) returns (alive: bool)
      requires Valid()
      modifies this`injected, this`armed, rings, rings.order, rings.ready, pool
      ensures match R.RecvData(old(State()), f, reorder)
              case None => !alive
              case Some(r) => alive && Valid() && State() == r
    {
      hide Reorder.Insert, R.DrainOrdered, R.DrainForced;
      if !reorder {
        Inject(f);
        return true;
      }
      var o := pool.Get(f);
      if o == None {
        Inject(f);
        return true;
      }
      var verdict := rings.Put(o.value);
      match verdict {
        case NoRoom =>
          rings.Reset();
          DrainForced();
        case OutOfRange =>
          Inject(f);
          return true;
        case Stored =>
          var ok := DrainOrdered();
          if !ok {
            return false;
          }
      }
      if pool.count > 0 {
        armed := true;
      }
      alive := true;
    }
  }
}
