/** The tunnels of src/mlvpn.c as a state machine: authentication, up and down, lossy and slow
    links, fallback, and the changes a configuration reload makes. */
module Session {
  import opened Words

  datatype Status = Disconnected | AuthSent | AuthOk | Lossy | HighLatency
  {
    /** status >= MLVPN_AUTHOK */
    predicate Up() { AuthOk? || Lossy? || HighLatency? }
  }

  /** `id` stands for the tunnel's address; `fallbackOnly` is the configured number, not a flag. */
  datatype Tunnel = Tunnel(id: nat, server: bool, fallbackOnly: nat,
                           lossTolerance: nat, latencyTolerance: nat, status: Status)

  datatype Script = RtunUp(id: nat) | RtunDown(id: nat) | TuntapUp | TuntapDown

  const MAX_TUNNELS: nat := 128

  /** `table` lists the tunnels of the round robin; `scripts` is what the status script was run with. */
  datatype Session = Session(tunnels: seq<Tunnel>, fallbackAvailable: bool, fallbackMode: nat,
                             connected: nat, initialized: bool,
                             table: seq<nat>, scripts: seq<Script>)

  const START := Session([], false, 0, 0, false, [], [])

  // ---- Parts of the list ----

  function Find(ts: seq<Tunnel>, id: nat): (o: Option<Tunnel>) {
    if ts == [] then None else if ts[0].id == id then Some(ts[0]) else Find(ts[1..], id)
  }

  function Update(ts: seq<Tunnel>, t: Tunnel): (us: seq<Tunnel>)
    ensures |us| == |ts|
  {
    seq(|ts|, i requires 0 <= i < |ts| => if ts[i].id == t.id then t else ts[i])
  }

  function Remove(ts: seq<Tunnel>, id: nat): (us: seq<Tunnel>) {
    if ts == [] then [] else if ts[0].id == id then ts[1..] else [ts[0]] + Remove(ts[1..], id)
  }

  function UpCount(ts: seq<Tunnel>): (n: nat) {
    if ts == [] then 0 else (if ts[0].status.Up() then 1 else 0) + UpCount(ts[1..])
  }

  predicate NormalUp(ts: seq<Tunnel>) {
    exists i :: 0 <= i < |ts| && ts[i].status.Up() && ts[i].fallbackOnly == 0
  }

  predicate Eligible(t: Tunnel, mode: nat) {
    && t.fallbackOnly == mode
    && ((t.fallbackOnly != 0 && t.status.Up()) || t.status.AuthOk?)
  }

  function EligibleIds(ts: seq<Tunnel>, mode: nat): (ids: seq<nat>) {
    if ts == [] then []
    else (if Eligible(ts[0], mode) then [ts[0].id] else []) + EligibleIds(ts[1..], mode)
  }

  lemma EligibleStep(ts: seq<Tunnel>, k: nat, mode: nat)
    requires k <= |ts|
    ensures EligibleIds(ts[k..], mode)
         == if k == |ts| then []
            else (if Eligible(ts[k], mode) then [ts[k].id] else []) + EligibleIds(ts[k + 1..], mode)
  {
    assert k < |ts| ==> ts[k..][1..] == ts[k + 1..];
  }

  /** Rebuilds the round robin table; None is the fatal exit for too many tunnels. */
  function WrrReset(s: Session): (o: Option<Session>)
    ensures o.Some? ==> o.value == s.(table := EligibleIds(s.tunnels, s.fallbackMode))
  {
    var ids := EligibleIds(s.tunnels, s.fallbackMode);
    if |ids| > MAX_TUNNELS then None else Some(s.(table := ids))
  }

  function UpdateStatus(s: Session): (u: Session) {
    s.(fallbackMode := if NormalUp(s.tunnels) || !s.fallbackAvailable then 0 else 1,
       connected := UpCount(s.tunnels))
  }

  // ---- Up and down ----

  function StatusUp(s: Session, t: Tunnel): (o: Option<Session>) {
    match WrrReset(UpdateStatus(s.(tunnels := Update(s.tunnels, t.(status := AuthOk)))))
    case None => None
    case Some(u) =>
      var v := u.(scripts := u.scripts + [RtunUp(t.id)]);
      Some(if v.connected > 0 && !v.initialized
           then v.(scripts := v.scripts + [TuntapUp], initialized := true) else v)
  }

  function StatusDown(s: Session, t: Tunnel): (o: Option<Session>) {
    var u := UpdateStatus(s.(tunnels := Update(s.tunnels, t.(status := Disconnected))));
    if !t.status.Up() then Some(u)
    else
      match WrrReset(u.(scripts := u.scripts + [RtunDown(t.id)]))
      case None => None
      case Some(v) =>
        Some(if v.connected == 0 && v.initialized
             then v.(scripts := v.scripts + [TuntapDown], initialized := false) else v)
  }

  // ---- Authentication ----

  /** An AUTH or AUTH_OK packet arrived. */
  function ReceiveAuth(s: Session, t: Tunnel): (o: Option<Session>) {
    if t.server then
      if t.status.Disconnected? || t.status.Up() then
        var u := if t.status.Up() then t else t.(status := AuthSent);
        StatusUp(s.(tunnels := Update(s.tunnels, u)), u)
      else Some(s)
    else if t.status.AuthSent? then StatusUp(s, t)
    else Some(s)
  }

  /** A connection attempt; only a client whose socket is open sends a challenge. */
  function TickConnect(s: Session, t: Tunnel, socketOpen: bool): (u: Session) {
    if !t.server && socketOpen then s.(tunnels := Update(s.tunnels, t.(status := AuthSent))) else s
  }

  // ---- Lossy and slow links ----

  predicate Healthy(t: Tunnel) { t.fallbackOnly == 0 && !t.status.HighLatency? && !t.status.Lossy? }

  function SwitchToFallback(s: Session): (o: Option<Session>) {
    if exists i :: 0 <= i < |s.tunnels| && Healthy(s.tunnels[i]) then WrrReset(s.(fallbackMode := 0))
    else if s.fallbackAvailable then WrrReset(s.(fallbackMode := 1))
    else Some(s)
  }

  function Flip(s: Session, t: Tunnel, bad: bool, badStatus: Status): (o: Option<Session>) {
    if bad && t.status.AuthOk? then SwitchToFallback(s.(tunnels := Update(s.tunnels, t.(status := badStatus))))
    else if !bad && t.status == badStatus then SwitchToFallback(s.(tunnels := Update(s.tunnels, t.(status := AuthOk))))
    else Some(s)
  }

  function CheckLossy(s: Session, t: Tunnel, loss: nat): (o: Option<Session>) {
    Flip(s, t, loss >= t.lossTolerance, Lossy)
  }

  function CheckSlow(s: Session, t: Tunnel, srtt: real): (o: Option<Session>) {
    if t.latencyTolerance == 1000 then Some(s)
    else Flip(s, t, srtt >= t.latencyTolerance as real, HighLatency)
  }

  // ---- Events ----

  /** The periodic check of one tunnel, a packet or an error on its socket, and the list and option
      changes a reload is made of. */
  datatype Event =
    | Timer(id: nat, expired: bool, socketOpen: bool, loss: nat, srtt: real)
    | Auth(id: nat)
    | Disconnect(id: nat)
    | SocketError(id: nat)
    | Add(tunnel: Tunnel)
    | Drop(id: nat, sendFails: bool)
    | Configure(id: nat, fallbackOnly: nat, lossTolerance: nat, latencyTolerance: nat)
    | SetFallback(available: bool)

  function Then(o: Option<Session>, id: nat, f: (Session, Tunnel) -> Option<Session>): (p: Option<Session>) {
    match o
    case None => None
    case Some(s) =>
      match Find(s.tunnels, id)
      case None => Some(s)
      case Some(t) => f(s, t)
  }

  function Check(s: Session, t: Tunnel, expired: bool, socketOpen: bool): (o: Option<Session>) {
    if t.status.Up() then if expired then StatusDown(s, t) else Some(s)
    else Some(TickConnect(s, t, socketOpen))
  }

  function Reconfigure(s: Session, t: Tunnel, fallbackOnly: nat, loss: nat, latency: nat): (o: Option<Session>) {
    var u := t.(fallbackOnly := fallbackOnly, lossTolerance := loss, latencyTolerance := latency);
    Some(s.(tunnels := Update(s.tunnels, u)))
  }

  function Step(s: Session, e: Event): (o: Option<Session>) {
    match e
    case Timer(id, expired, socketOpen, loss, srtt) =>
      var a := Then(Some(s), id, (s, t) => Check(s, t, expired, socketOpen));
      var b := Then(a, id, (s, t) => CheckLossy(s, t, loss));
      Then(b, id, (s, t) => CheckSlow(s, t, srtt))
    case Auth(id) => Then(Some(s), id, (s, t) => ReceiveAuth(s, t))
    case Disconnect(id) => Then(Some(s), id, (s, t: Tunnel) => if t.status.Up() then StatusDown(s, t) else Some(s))
    case SocketError(id) => Then(Some(s), id, (s, t) => StatusDown(s, t))
    case Add(t) =>
      if Find(s.tunnels, t.id).Some? then Some(s)
      else Some(s.(tunnels := [t.(status := Disconnected)] + s.tunnels))
    case Drop(id, sendFails) =>
      var a := if sendFails then Then(Some(s), id, (s, t) => StatusDown(s, t)) else Some(s);
      var b := Then(a, id, (s, t) => StatusDown(s, t));
      Then(b, id, (s: Session, t) => Some(s.(tunnels := Remove(s.tunnels, id))))
    case Configure(id, fb, loss, lat) =>
      Then(Some(s), id, (s, t) => Reconfigure(s, t, fb, loss, lat))
    case SetFallback(b) => Some(s.(fallbackAvailable := b))
  }

  function Run(s: Session, es: seq<Event>): (o: Option<Session>)
    decreases |es|
  {
    if es == [] then Some(s)
    else
      match Step(s, es[0])
      case None => None
      case Some(u) => Run(u, es[1..])
  }
}
