/** The session state of src/mlvpn.c as an object: the tunnel list, the status record, the round
    robin entries and the script log, changed in place by the handlers. */
module SessionObject {
  import opened S = Session
  import opened WrrTable

  lemma {:induction false} UpCountSplit(ts: seq<Tunnel>, k: nat)
    requires k < |ts|
    ensures UpCount(ts[..k + 1]) == UpCount(ts[..k]) + (if ts[k].status.Up() then 1 else 0)
    decreases k
  {
    if k > 0 {
      UpCountSplit(ts[1..], k - 1);
      assert ts[..k + 1][1..] == ts[1..][..k] && ts[..k][1..] == ts[1..][..k - 1];
    } else {
      assert ts[..1] == [ts[0]] && ts[..0] == [] && [ts[0]][1..] == [];
    }
  }

  class Status {
    var tunnels: seq<Tunnel>
    var fallbackAvailable: bool
    var fallbackMode: nat
    var connected: nat
    var initialized: bool
    const wrr: Table
    var scripts: seq<Script>

    ghost predicate Valid()
      reads wrr
    {
      wrr.Valid()
    }

    ghost function State(): (s: Session)
      reads this, wrr, wrr.tunnel
      requires Valid()
    {
      Session(tunnels, fallbackAvailable, fallbackMode, connected, initialized, wrr.Ids(), scripts)
    }

    constructor ()
      ensures Valid() && State() == START
    {
      wrr := new Table();
      tunnels, fallbackAvailable, fallbackMode, connected := [], false, 0, 0;
      initialized, scripts := false, [];
    }

    method SetTunnel(t: Tunnel)
      modifies this`tunnels
      ensures tunnels == Update(old(tunnels), t)
    {
      var list := tunnels;
      for k := 0 to |tunnels|
        invariant |list| == |tunnels|
        invariant forall i :: 0 <= i < |list| ==>
                    list[i] == if i < k && tunnels[i].id == t.id then t else tunnels[i]
      {
        if tunnels[k].id == t.id {
          list := list[k := t];
        }
      }
      tunnels := list;
    }

    method UpdateStatus()
      requires Valid()
      modifies this`fallbackMode, this`connected
      ensures Valid() && State() == S.UpdateStatus(old(State()))
    {
      fallbackMode := if fallbackAvailable then 1 else 0;
      connected := 0;
      for k := 0 to |tunnels|
        invariant connected == UpCount(tunnels[..k])
        invariant fallbackMode == if NormalUp(tunnels[..k]) || !fallbackAvailable then 0 else 1
      {
        UpCountSplit(tunnels, k);
        assert tunnels[..k + 1] == tunnels[..k] + [tunnels[k]];
        assert forall i :: 0 <= i < k ==> tunnels[..k + 1][i] == tunnels[..k][i];
        if tunnels[k].status.Up() {
          if tunnels[k].fallbackOnly == 0 {
            assert tunnels[..k + 1][k].fallbackOnly == 0;
            fallbackMode := 0;
          }
          connected := connected + 1;
        }
      }
      assert tunnels[..|tunnels|] == tunnels;
    }

    /** False is the fatal exit for too many tunnels. */
    method WrrReset() returns (ok: bool)
      requires Valid()
      modifies wrr, wrr.tunnel, wrr.tunval
      ensures Valid()
      ensures match S.WrrReset(old(State()))
              case None => !ok
              case Some(s) => ok && State() == s
    {
      ok := wrr.Reset(tunnels, fallbackMode);
    }

    method StatusUp(t: Tunnel) returns (ok: bool)
      requires Valid()
      modifies this, wrr, wrr.tunnel, wrr.tunval
      ensures Valid()
      ensures match S.StatusUp(old(State()), t)
              case None => !ok
              case Some(s) => ok && State() == s
    {
      hide EligibleIds, UpCount;
      SetTunnel(t.(status := AuthOk));
      UpdateStatus();
      ok := WrrReset();
      if !ok {
        return;
      }
      scripts := scripts + [RtunUp(t.id)];
      if connected > 0 && !initialized {
        scripts := scripts + [TuntapUp];
        initialized := true;
      }
    }

    method StatusDown(t: Tunnel) returns (ok: bool)
      requires Valid()
      modifies this, wrr, wrr.tunnel, wrr.tunval
      ensures Valid()
      ensures match S.StatusDown(old(State()), t)
              case None => !ok
              case Some(s) => ok && State() == s
    {
      hide EligibleIds, UpCount;
      SetTunnel(t.(status := Disconnected));
      UpdateStatus();
      ok := true;
      if t.status.Up() {
        scripts := scripts + [RtunDown(t.id)];
        ok := WrrReset();
        if !ok {
          return;
        }
        if connected == 0 && initialized {
          scripts := scripts + [TuntapDown];
          initialized := false;
        }
      }
    }

    method ReceiveAuth(t: Tunnel) returns (ok: bool)
      requires Valid()
      modifies this, wrr, wrr.tunnel, wrr.tunval
      ensures Valid()
      ensures match S.ReceiveAuth(old(State()), t)
              case None => !ok
              case Some(s) => ok && State() == s
    {
      hide S.StatusUp;
      ok := true;
      if t.server {
        if t.status == Disconnected || t.status.Up() {
          var u := t;
          if !t.status.Up() {
            u := t.(status := AuthSent);
          }
          SetTunnel(u);
          ok := StatusUp(u);
        }
      } else if t.status == AuthSent {
        ok := StatusUp(t);
      }
    }

    method SwitchToFallback() returns (ok: bool)
      requires Valid()
      modifies this`fallbackMode, wrr, wrr.tunnel, wrr.tunval
      ensures Valid()
      ensures match S.SwitchToFallback(old(State()))
              case None => !ok
              case Some(s) => ok && State() == s
    {
      hide EligibleIds;
      for k := 0 to |tunnels|
        invariant forall i :: 0 <= i < k ==> !Healthy(tunnels[i])
        invariant Valid() && State() == old(State())
      {
        if Healthy(tunnels[k]) {
          fallbackMode := 0;
          ok := WrrReset();
          return;
        }
      }
      ok := true;
      if fallbackAvailable {
        fallbackMode := 1;
        ok := WrrReset();
      }
    }

    /** Marks a tunnel lossy or slow, or clears the mark. */
    method Flip(t: Tunnel, bad: bool, badStatus: S.Status) returns (ok: bool)
      requires Valid()
      modifies this, wrr, wrr.tunnel, wrr.tunval
      ensures Valid()
      ensures match S.Flip(old(State()), t, bad, badStatus)
              case None => !ok
              case Some(s) => ok && State() == s
    {
      hide S.SwitchToFallback;
      ok := true;
      if bad && t.status == AuthOk {
        SetTunnel(t.(status := badStatus));
        ok := SwitchToFallback();
      } else if !bad && t.status == badStatus {
        SetTunnel(t.(status := AuthOk));
        ok := SwitchToFallback();
      }
    }
  }
}
