/** The round robin table of src/wrr.c: two fixed arrays and a length, updated in place. */
module WrrTable {
  import opened Words
  import Wrr
  import S = Session

  class Table {
    var len: nat
    const tunnel: array<nat>
    const tunval: array<real>

    ghost predicate Valid()
      reads this
    {
      tunnel.Length == S.MAX_TUNNELS && tunval.Length == S.MAX_TUNNELS && len <= S.MAX_TUNNELS
    }

    ghost function Ids(): (s: seq<nat>)
      reads this, tunnel
      requires Valid()
    {
      tunnel[..len]
    }

    ghost function Vals(): (s: seq<real>)
      reads this, tunval
      requires Valid()
    {
      tunval[..len]
    }

    constructor ()
      ensures Valid() && Ids() == [] && Vals() == [] && fresh(tunnel) && fresh(tunval)
    {
      tunnel := new nat[S.MAX_TUNNELS](_ => 0);
      tunval := new real[S.MAX_TUNNELS](_ => 0.0);
      len := 0;
    }

    /** Collects the eligible tunnels in list order, all at value 0; false is the fatal exit. */
    method Reset(list: seq<S.Tunnel>, mode: nat) returns (ok: bool)
      requires Valid()
      modifies this, tunnel, tunval
      ensures Valid() && ok == (|S.EligibleIds(list, mode)| <= S.MAX_TUNNELS)
      ensures ok ==> Ids() == S.EligibleIds(list, mode)
      ensures ok ==> forall i :: 0 <= i < |Vals()| ==> Vals()[i] == 0.0
    {
      hide S.EligibleIds;
      len := 0;
      var k := 0;
      assert list[0..] == list;
      while k < |list|
        invariant k <= |list| && Valid()
        invariant S.EligibleIds(list, mode) == Ids() + S.EligibleIds(list[k..], mode)
        invariant forall i :: 0 <= i < len ==> tunval[i] == 0.0
      {
        var t := list[k];
        S.EligibleStep(list, k, mode);
        if S.Eligible(t, mode) {
          if len >= S.MAX_TUNNELS {
            return false;
          }
          ghost var ids, rest := Ids(), S.EligibleIds(list[k + 1..], mode);
          tunnel[len] := t.id;
          tunval[len] := 0.0;
          len := len + 1;
          assert Ids() == ids + [t.id];
          assert ids + ([t.id] + rest) == (ids + [t.id]) + rest;
        }
        k := k + 1;
      }
      S.EligibleStep(list, k, mode);
      ok := true;
    }

    /** The scan for the least value. */
    method Least() returns (index: nat)
      requires Valid() && len > 0
      ensures index == Wrr.MinIndex(Vals())
    {
      var least := Wrr.SENTINEL;
      index := 0;
      for i := 0 to len
        invariant (index, least) == Wrr.Scan(Vals(), i)
      {
        if tunval[i] < least {
          least, index := tunval[i], i;
        }
      }
    }

    ghost function Periods(weight: map<nat, real>): (p: seq<real>)
      reads this, tunnel
      requires Valid() && forall i :: 0 <= i < len ==> tunnel[i] in weight && weight[tunnel[i]] != 0.0
      ensures |p| == len
    {
      seq(len, i requires 0 <= i < len reads this, tunnel requires Valid()
               requires tunnel[i] in weight && weight[tunnel[i]] != 0.0 => Wrr.PeriodOf(weight[tunnel[i]]))
    }

    /** The tunnel for the next packet; weights are read from the tunnels at this moment. */
    method Choose(weight: map<nat, real>) returns (o: Option<nat>)
      requires Valid() && forall i :: 0 <= i < len ==> tunnel[i] in weight && weight[tunnel[i]] != 0.0
      modifies tunval
      ensures Valid()
      ensures len == 0 ==> o == None && Vals() == old(Vals())
      ensures len > 0 ==> && o == Some(Ids()[Wrr.MinIndex(old(Vals()))])
                          && Vals() == Wrr.Choose(old(Vals()), Periods(weight))
    {
      if len == 0 {
        return None;
      }
      var index := Least();
      ghost var before := Vals();
      for i := 0 to len
        invariant forall k :: 0 <= k < i ==> tunval[k] == Wrr.Tick(before[k])
        invariant forall k :: i <= k < len ==> tunval[k] == before[k]
      {
        if tunval[i] > 0.0 {
          tunval[i] := tunval[i] - 1.0;
        }
      }
      tunval[index] := Wrr.PeriodOf(weight[tunnel[index]]);
      o := Some(tunnel[index]);
    }
  }

  method TotalBandwidth(bandwidth: seq<U32>) returns (total: U32, warned: nat)
    ensures total == Wrr.Total(bandwidth) % TWO32 && (warned == 0 <==> 0 !in bandwidth)
  {
    total, warned := 0, 0;
    for i := 0 to |bandwidth|
      invariant total == Wrr.Total(bandwidth[..i]) % TWO32
      invariant warned == 0 <==> 0 !in bandwidth[..i]
    {
      assert bandwidth[..i + 1][..i] == bandwidth[..i];
      assert bandwidth[..i + 1] == bandwidth[..i] + [bandwidth[i]];
      AddMod32(Wrr.Total(bandwidth[..i]), bandwidth[i]);
      if bandwidth[i] == 0 {
        warned := warned + 1;
      }
      total := (total + bandwidth[i]) % TWO32;
    }
    assert bandwidth[..|bandwidth|] == bandwidth;
  }

  /** Weights from bandwidths over their 32-bit total. When some tunnel has no bandwidth, or the
      total wraps to zero, the weights stay as they are. */
  method RecalcWeights(bandwidth: seq<U32>, weight: array<real>)
    requires weight.Length == |bandwidth|
    modifies weight
    ensures var total := Wrr.Total(bandwidth) % TWO32;
            if 0 in bandwidth || total == 0 then weight[..] == old(weight[..])
            else forall i :: 0 <= i < |bandwidth| ==> weight[i] == Wrr.WeightOf(bandwidth[i], total)
  {
    hide Wrr.Total;
    var total, warned := TotalBandwidth(bandwidth);
    if warned == 0 {
      for i := 0 to |bandwidth|
        invariant total > 0 ==> forall k :: 0 <= k < i ==> weight[k] == Wrr.WeightOf(bandwidth[k], total)
        invariant total == 0 ==> weight[..] == old(weight[..])
      {
        if bandwidth[i] > 0 && total > 0 {
          weight[i] := Wrr.WeightOf(bandwidth[i], total);
        }
      }
    }
  }
}
