/** Which links carry traffic: the round robin holds every healthy ordinary link, and fallback mode
    is never on while there is one. */
module SessionServed {
  import opened Words
  import opened Session
  import opened SessionRuns

  /** An ordinary link in perfect order. */
  predicate Fine(t: Tunnel) { t.fallbackOnly == 0 && t.status.AuthOk? }

  ghost predicate Served(s: Session) {
    forall i :: 0 <= i < |s.tunnels| && Fine(s.tunnels[i]) ==> s.tunnels[i].id in s.table
  }

  ghost predicate Justified(s: Session) {
    s.fallbackMode != 0 ==> forall i :: 0 <= i < |s.tunnels| ==> !Fine(s.tunnels[i])
  }

  ghost predicate Fit(s: Session) { Served(s) && Justified(s) }

  lemma ResetFits(s: Session)
    requires Justified(s) && WrrReset(s).Some?
    ensures Fit(WrrReset(s).value)
  {
    hide EligibleIds;
    forall i | 0 <= i < |s.tunnels| && Fine(s.tunnels[i])
      ensures s.tunnels[i].id in EligibleIds(s.tunnels, s.fallbackMode)
    {
      EligibleExactly(s.tunnels, s.fallbackMode, s.tunnels[i].id);
      assert Eligible(s.tunnels[i], s.fallbackMode);
    }
  }

  lemma UpdateJustified(s: Session)
    ensures Justified(UpdateStatus(s))
  {
  }

  lemma UpFits(s: Session, t: Tunnel)
    requires StatusUp(s, t).Some?
    ensures Fit(StatusUp(s, t).value)
  {
    hide EligibleIds, UpCount, NormalUp;
    var u := s.(tunnels := Update(s.tunnels, t.(status := AuthOk)));
    UpdateJustified(u);
    ResetFits(UpdateStatus(u));
  }

  lemma DownFits(s: Session, t: Tunnel)
    requires Fit(s) && StatusDown(s, t).Some?
    ensures Fit(StatusDown(s, t).value)
  {
    hide EligibleIds, UpCount, NormalUp;
    var u := s.(tunnels := Update(s.tunnels, t.(status := Disconnected)));
    UpdateJustified(u);
    if t.status.Up() {
      var v := UpdateStatus(u);
      ResetFits(v.(scripts := v.scripts + [RtunDown(t.id)]));
    }
  }

  lemma SwitchFits(s: Session)
    requires SwitchToFallback(s).Some?
    requires !(exists i :: 0 <= i < |s.tunnels| && Healthy(s.tunnels[i])) ==> Fit(s)
    ensures Fit(SwitchToFallback(s).value)
  {
    hide EligibleIds;
    if exists i :: 0 <= i < |s.tunnels| && Healthy(s.tunnels[i]) {
      ResetFits(s.(fallbackMode := 0));
    } else if s.fallbackAvailable {
      assert forall i :: 0 <= i < |s.tunnels| && Fine(s.tunnels[i]) ==> Healthy(s.tunnels[i]);
      ResetFits(s.(fallbackMode := 1));
    }
  }

  lemma FlipFits(s: Session, t: Tunnel, bad: bool, badStatus: Status)
    requires Fit(s) && Find(s.tunnels, t.id) == Some(t) && (badStatus.Lossy? || badStatus.HighLatency?)
    requires Flip(s, t, bad, badStatus).Some?
    ensures Fit(Flip(s, t, bad, badStatus).value)
  {
    hide SwitchToFallback;
    var u := t.(status := if bad then badStatus else AuthOk);
    var v := s.(tunnels := Update(s.tunnels, u));
    var i := FindListed(s.tunnels, t.id);
    assert v.tunnels[i] == u;
    if (bad && t.status.AuthOk?) || (!bad && t.status == badStatus) {
      if !bad && t.fallbackOnly == 0 {
        assert Healthy(v.tunnels[i]);
      }
      SwitchFits(v);
    }
  }

  lemma AuthFits(s: Session, t: Tunnel)
    requires Fit(s) && ReceiveAuth(s, t).Some?
    ensures Fit(ReceiveAuth(s, t).value)
  {
    hide StatusUp;
    if t.server && !t.status.AuthSent? {
      var u := if t.status.Up() then t else t.(status := AuthSent);
      UpFits(s.(tunnels := Update(s.tunnels, u)), u);
    } else if !t.server && t.status.AuthSent? {
      UpFits(s, t);
    }
  }

  lemma CheckFits(s: Session, t: Tunnel, expired: bool, socketOpen: bool)
    requires Fit(s) && Check(s, t, expired, socketOpen).Some?
    ensures Fit(Check(s, t, expired, socketOpen).value)
  {
    hide StatusDown;
    if t.status.Up() && expired {
      DownFits(s, t);
    }
  }

  /** A reload may turn a fallback link that is up into an ordinary one without rebuilding anything;
      that is harmless only if it is in the table and fallback mode is off. */
  ghost predicate RoleKept(s: Session, e: Event) {
    e.Configure? && e.fallbackOnly == 0 && Find(s.tunnels, e.id).Some? && Find(s.tunnels, e.id).value.status.AuthOk? ==>
      e.id in s.table && s.fallbackMode == 0
  }

  /** Of a link that is fine afterwards a reconfiguration must not have changed the role. */
  lemma ConfigureFitsIff(s: Session, e: Event)
    requires Fit(s) && e.Configure?
    ensures Step(s, e).Some? && (Fit(Step(s, e).value) <==> RoleKept(s, e))
  {
    FindHasId(s.tunnels, e.id);
    if Find(s.tunnels, e.id).Some? {
      var t := Find(s.tunnels, e.id).value;
      var i := FindListed(s.tunnels, e.id);
      var v := Reconfigure(s, t, e.fallbackOnly, e.lossTolerance, e.latencyTolerance).value;
      assert v.tunnels[i].id == e.id && v.tunnels[i].status == t.status;
      assert Fine(v.tunnels[i]) <==> e.fallbackOnly == 0 && t.status.AuthOk?;
    }
  }

  /** A server's fallback link, up while it is the only one. */
  const BACKUP := Tunnel(0, true, 1, 100, 1000, Disconnected)

  const BACKUP_UP := Session([BACKUP.(status := AuthOk)], true, 1, 1, true, [0], [RtunUp(0), TuntapUp])

  lemma BackupGoesUp()
    ensures Run(START, [SetFallback(true), Add(BACKUP), Auth(0)]) == Some(BACKUP_UP)
  {
    var a := START.(fallbackAvailable := true);
    var b := a.(tunnels := [BACKUP]);
    var es := [SetFallback(true), Add(BACKUP), Auth(0)];
    assert Step(START, es[0]) == Some(a);
    assert [BACKUP] + [] == [BACKUP];
    assert Step(a, es[1]) == Some(b);
    BackupUp(b);
    assert es[1..] == [Add(BACKUP), Auth(0)] && es[1..][1..] == [Auth(0)] && es[1..][1..][1..] == [];
    assert Run(b, [Auth(0)]) == Run(BACKUP_UP, []) == Some(BACKUP_UP);
    assert Run(a, es[1..]) == Run(b, [Auth(0)]);
  }

  lemma BackupUp(b: Session)
    requires b == START.(fallbackAvailable := true, tunnels := [BACKUP])
    ensures Step(b, Auth(0)) == Some(BACKUP_UP)
  {
    var u, v := BACKUP.(status := AuthSent), BACKUP.(status := AuthOk);
    assert Update([BACKUP], u) == [u] && Update([u], v) == [v];
    assert [v][1..] == [];
    assert EligibleIds([v], 1) == [0] + [] == [0];
    assert UpCount([v]) == 1;
    assert [v][0].fallbackOnly == 1;
    assert [] + [RtunUp(0)] + [TuntapUp] == [RtunUp(0), TuntapUp];
  }

  /** From start-up: a fallback link comes up alone, and a reload that makes it an ordinary one leaves
      fallback mode on beside it. */
  lemma ReloadMisfits()
    ensures Run(START, [SetFallback(true), Add(BACKUP), Auth(0)]) == Some(BACKUP_UP) && Fit(BACKUP_UP)
    ensures var e := Configure(0, 0, 100, 1000);
            !RoleKept(BACKUP_UP, e) && Step(BACKUP_UP, e).Some? && !Fit(Step(BACKUP_UP, e).value)
  {
    BackupGoesUp();
    ConfigureFitsIff(BACKUP_UP, Configure(0, 0, 100, 1000));
  }

  lemma {:induction false} RemoveSubset(ts: seq<Tunnel>, id: nat)
    ensures forall t :: t in Remove(ts, id) ==> t in ts
  {
    if ts != [] {
      RemoveSubset(ts[1..], id);
      assert ts == [ts[0]] + ts[1..];
    }
  }

  lemma RemoveFits(s: Session, id: nat)
    requires Fit(s)
    ensures Fit(s.(tunnels := Remove(s.tunnels, id)))
  {
    hide Remove;
    RemoveSubset(s.tunnels, id);
    var us := Remove(s.tunnels, id);
    forall i | 0 <= i < |us|
      ensures us[i] in s.tunnels
    {
      assert us[i] in us;
    }
  }

  lemma TimerFits(s: Session, e: Event)
    requires Fit(s) && e.Timer? && Step(s, e).Some?
    ensures Fit(Step(s, e).value)
  {
    hide Fit, Check, Flip, Find;
    var id := e.id;
    var a := Then(Some(s), id, (s, t) => Check(s, t, e.expired, e.socketOpen));
    if Find(s.tunnels, id).Some? {
      CheckFits(s, Find(s.tunnels, id).value, e.expired, e.socketOpen);
    }
    FindHasId(a.value.tunnels, id);
    var b := Then(a, id, (s, t) => CheckLossy(s, t, e.loss));
    if Find(a.value.tunnels, id).Some? {
      var t := Find(a.value.tunnels, id).value;
      FlipFits(a.value, t, e.loss >= t.lossTolerance, Lossy);
    }
    FindHasId(b.value.tunnels, id);
    if Find(b.value.tunnels, id).Some? && Find(b.value.tunnels, id).value.latencyTolerance != 1000 {
      var t := Find(b.value.tunnels, id).value;
      FlipFits(b.value, t, e.srtt >= t.latencyTolerance as real, HighLatency);
    }
  }

  lemma DropFits(s: Session, e: Event)
    requires Fit(s) && e.Drop? && Step(s, e).Some?
    ensures Fit(Step(s, e).value)
  {
    hide Fit, StatusDown, Find, Remove;
    var id := e.id;
    var a := if e.sendFails then Then(Some(s), id, (s, t) => StatusDown(s, t)) else Some(s);
    if e.sendFails && Find(s.tunnels, id).Some? {
      DownFits(s, Find(s.tunnels, id).value);
    }
    var b := Then(a, id, (s, t) => StatusDown(s, t));
    if Find(a.value.tunnels, id).Some? {
      DownFits(a.value, Find(a.value.tunnels, id).value);
    }
    RemoveFits(b.value, id);
  }

  lemma StepFits(s: Session, e: Event)
    requires Fit(s) && RoleKept(s, e) && Step(s, e).Some?
    ensures Fit(Step(s, e).value)
  {
    hide StatusDown, ReceiveAuth, Find;
    match e {
      case Timer(_, _, _, _, _) =>
        TimerFits(s, e);
      case Drop(_, _) =>
        DropFits(s, e);
      case Configure(_, _, _, _) =>
        ConfigureFitsIff(s, e);
      case Auth(id) =>
        if Find(s.tunnels, id).Some? {
          AuthFits(s, Find(s.tunnels, id).value);
        }
      case Disconnect(id) =>
        if Find(s.tunnels, id).Some? && Find(s.tunnels, id).value.status.Up() {
          DownFits(s, Find(s.tunnels, id).value);
        }
      case SocketError(id) =>
        if Find(s.tunnels, id).Some? {
          DownFits(s, Find(s.tunnels, id).value);
        }
      case Add(t) =>
        if Find(s.tunnels, t.id).None? {
          var us := [t.(status := Disconnected)] + s.tunnels;
          assert forall i :: 0 < i < |us| ==> us[i] == s.tunnels[i - 1];
        }
      case SetFallback(_) =>
    }
  }

  ghost predicate RolesKept(s: Session, es: seq<Event>)
    decreases |es|
  {
    es != [] ==> RoleKept(s, es[0]) && (Step(s, es[0]).Some? ==> RolesKept(Step(s, es[0]).value, es[1..]))
  }

  lemma {:induction false} RunFits(s: Session, es: seq<Event>)
    requires Fit(s) && RolesKept(s, es) && Run(s, es).Some?
    ensures Fit(Run(s, es).value)
    decreases |es|
  {
    hide Fit, Step, RoleKept;
    if es != [] {
      StepFits(s, es[0]);
      RunFits(Step(s, es[0]).value, es[1..]);
    }
  }

  /** In every run from start-up whose reloads keep roles, each ordinary link in perfect order is in
      the round robin, and fallback mode is on only while there is none. */
  lemma HealthyLinksServed(es: seq<Event>)
    requires RolesKept(START, es) && Run(START, es).Some?
    ensures Fit(Run(START, es).value)
  {
    RunFits(START, es);
  }

  /** The link comes up by this packet. */
  predicate Raises(s: Session, id: nat) {
    var o := Find(s.tunnels, id);
    o.Some? && (if o.value.server then !o.value.status.AuthSent? else o.value.status.AuthSent?)
  }

  /** Whatever reloads came before, a link that comes up sets it right, and it stays right while
      reloads keep roles from then on. */
  lemma ServedSinceUp(s: Session, id: nat, es: seq<Event>)
    requires Raises(s, id) && Step(s, Auth(id)).Some?
    requires RolesKept(Step(s, Auth(id)).value, es) && Run(s, [Auth(id)] + es).Some?
    ensures Fit(Run(s, [Auth(id)] + es).value)
  {
    hide StatusUp, Find, Fit;
    var t := Find(s.tunnels, id).value;
    if t.server {
      var u := if t.status.Up() then t else t.(status := AuthSent);
      UpFits(s.(tunnels := Update(s.tunnels, u)), u);
    } else {
      UpFits(s, t);
    }
    assert ([Auth(id)] + es)[1..] == es;
    RunFits(Step(s, Auth(id)).value, es);
  }
}
