/** What every run of session events keeps. */
module SessionRuns {
  import opened Words
  import opened Session
  import Wrr

  ghost predicate Distinct(ts: seq<Tunnel>) {
    forall i, j :: 0 <= i < j < |ts| ==> ts[i].id != ts[j].id
  }

  ghost predicate UpIn(ts: seq<Tunnel>, id: nat) {
    exists i :: 0 <= i < |ts| && ts[i].id == id && ts[i].status.Up()
  }

  /** Every table entry is a listed tunnel that is up, and is there once. */
  ghost predicate TableOk(table: seq<nat>, ts: seq<Tunnel>) {
    && (forall k :: 0 <= k < |table| ==> UpIn(ts, table[k]))
    && forall k, l :: 0 <= k < l < |table| ==> table[k] != table[l]
  }

  /** Whether the last tuntap script brought the device up. */
  function DeviceUp(scripts: seq<Script>): (b: bool) {
    if scripts == [] then false
    else
      match scripts[|scripts| - 1]
      case TuntapUp => true
      case TuntapDown => false
      case _ => DeviceUp(scripts[..|scripts| - 1])
  }

  /** tuntap_up and tuntap_down alternate, starting with tuntap_up. */
  ghost predicate Alternates(scripts: seq<Script>) {
    scripts == [] ||
    var before, last := scripts[..|scripts| - 1], scripts[|scripts| - 1];
    && Alternates(before)
    && (last.TuntapUp? ==> !DeviceUp(before)) && (last.TuntapDown? ==> DeviceUp(before))
  }

  ghost predicate ScriptsOk(s: Session) { Alternates(s.scripts) && DeviceUp(s.scripts) == s.initialized }

  ghost predicate Inv(s: Session) {
    && Distinct(s.tunnels)
    && s.connected == UpCount(s.tunnels)
    && (s.initialized <==> s.connected > 0)
    && TableOk(s.table, s.tunnels)
    && ScriptsOk(s)
  }

  /** A server tunnel is never left waiting for its own challenge, so it answers every AUTH. */
  ghost predicate ServersReady(ts: seq<Tunnel>) {
    forall i :: 0 <= i < |ts| && ts[i].server ==> !ts[i].status.AuthSent?
  }

  // ---- The list ----

  lemma {:induction false} FindListed(ts: seq<Tunnel>, id: nat) returns (i: nat)
    requires Find(ts, id).Some?
    ensures i < |ts| && ts[i] == Find(ts, id).value && ts[i].id == id
  {
    if ts[0].id == id {
      i := 0;
    } else {
      var k := FindListed(ts[1..], id);
      i := k + 1;
    }
  }

  lemma {:induction false} FindMissing(ts: seq<Tunnel>, id: nat)
    requires Find(ts, id).None?
    ensures forall i :: 0 <= i < |ts| ==> ts[i].id != id
  {
    if ts != [] {
      FindMissing(ts[1..], id);
      assert ts == [ts[0]] + ts[1..];
    }
  }

  lemma {:induction false} SameUps(ts: seq<Tunnel>, us: seq<Tunnel>)
    requires |ts| == |us| && forall i :: 0 <= i < |ts| ==> ts[i].status.Up() == us[i].status.Up()
    ensures UpCount(ts) == UpCount(us)
  {
    if ts != [] {
      SameUps(ts[1..], us[1..]);
    }
  }

  /** The count is the number of places in the list whose tunnel is up. */
  lemma {:induction false} UpCountIs(ts: seq<Tunnel>, k: nat)
    requires k <= |ts|
    ensures UpCount(ts[k..]) == |set i: nat | k <= i < |ts| && ts[i].status.Up()|
    decreases |ts| - k
  {
    var up := set i: nat | k <= i < |ts| && ts[i].status.Up();
    if k == |ts| {
      assert up == {};
    } else {
      UpCountIs(ts, k + 1);
      var rest := set i: nat | k + 1 <= i < |ts| && ts[i].status.Up();
      assert ts[k..][1..] == ts[k + 1..] && ts[k..][0] == ts[k];
      assert up == rest + (if ts[k].status.Up() then {k} else {});
    }
  }

  lemma {:induction false} SomeUp(ts: seq<Tunnel>, i: nat)
    requires i < |ts| && ts[i].status.Up()
    ensures UpCount(ts) > 0
  {
    if i > 0 {
      SomeUp(ts[1..], i - 1);
    }
  }

  /** Replacing a listed tunnel by one with the same id changes only whether that id is up. */
  lemma UpdateOne(ts: seq<Tunnel>, t: Tunnel, i: nat)
    requires Distinct(ts) && i < |ts| && ts[i].id == t.id
    ensures Update(ts, t) == ts[i := t] && Distinct(Update(ts, t))
    ensures forall id :: id != t.id ==> UpIn(Update(ts, t), id) == UpIn(ts, id)
    ensures UpIn(Update(ts, t), t.id) <==> t.status.Up()
    ensures UpIn(ts, t.id) <==> ts[i].status.Up()
  {
    var us := Update(ts, t);
    assert us == ts[i := t];
    forall id | id != t.id
      ensures UpIn(us, id) == UpIn(ts, id)
    {
      if UpIn(us, id) {
        var k :| 0 <= k < |us| && us[k].id == id && us[k].status.Up();
        assert ts[k].id == id;
      }
      if UpIn(ts, id) {
        var k :| 0 <= k < |ts| && ts[k].id == id && ts[k].status.Up();
        assert us[k].id == id;
      }
    }
    assert us[i].id == t.id;
  }

  lemma TableKept(table: seq<nat>, ts: seq<Tunnel>, us: seq<Tunnel>)
    requires TableOk(table, ts) && forall id :: UpIn(ts, id) ==> UpIn(us, id)
    ensures TableOk(table, us)
  {
  }

  ghost predicate EligibleIn(ts: seq<Tunnel>, id: nat, mode: nat) {
    exists i :: 0 <= i < |ts| && ts[i].id == id && Eligible(ts[i], mode)
  }

  lemma {:induction false} EligibleExactly(ts: seq<Tunnel>, mode: nat, id: nat)
    ensures id in EligibleIds(ts, mode) <==> EligibleIn(ts, id, mode)
  {
    if ts != [] {
      var rest := ts[1..];
      EligibleExactly(rest, mode, id);
      if EligibleIn(rest, id, mode) {
        var i :| 0 <= i < |rest| && rest[i].id == id && Eligible(rest[i], mode);
        assert ts[i + 1] == rest[i];
      }
      if EligibleIn(ts, id, mode) {
        var i :| 0 <= i < |ts| && ts[i].id == id && Eligible(ts[i], mode);
        assert i > 0 ==> rest[i - 1] == ts[i];
      }
    }
  }

  lemma {:induction false} EligibleOnce(ts: seq<Tunnel>, mode: nat)
    requires Distinct(ts)
    ensures var ids := EligibleIds(ts, mode); forall k, l :: 0 <= k < l < |ids| ==> ids[k] != ids[l]
  {
    if ts != [] {
      EligibleOnce(ts[1..], mode);
      EligibleExactly(ts[1..], mode, ts[0].id);
    }
  }

  /** A reset puts each eligible tunnel into the table once, and no other. */
  lemma EligibleListed(ts: seq<Tunnel>, mode: nat)
    requires Distinct(ts)
    ensures TableOk(EligibleIds(ts, mode), ts)
    ensures forall id :: id in EligibleIds(ts, mode) <==> EligibleIn(ts, id, mode)
  {
    EligibleOnce(ts, mode);
    forall id
      ensures id in EligibleIds(ts, mode) <==> EligibleIn(ts, id, mode)
      ensures EligibleIn(ts, id, mode) ==> UpIn(ts, id)
    {
      EligibleExactly(ts, mode, id);
    }
  }

  // ---- Scripts ----

  lemma ScriptAppend(scripts: seq<Script>, x: Script)
    requires Alternates(scripts)
    requires (x.TuntapUp? ==> !DeviceUp(scripts)) && (x.TuntapDown? ==> DeviceUp(scripts))
    ensures Alternates(scripts + [x])
    ensures DeviceUp(scripts + [x])
         == (if x.TuntapUp? then true else if x.TuntapDown? then false else DeviceUp(scripts))
  {
    assert (scripts + [x])[..|scripts|] == scripts;
  }

  // ---- Up and down ----

  lemma ResetTable(s: Session)
    requires Distinct(s.tunnels) && WrrReset(s).Some?
    ensures TableOk(WrrReset(s).value.table, s.tunnels)
  {
    EligibleListed(s.tunnels, s.fallbackMode);
  }

  lemma UpKeeps(s: Session, t: Tunnel, i: nat)
    requires Distinct(s.tunnels) && ScriptsOk(s) && StatusUp(s, t).Some?
    requires i < |s.tunnels| && s.tunnels[i].id == t.id
    ensures Inv(StatusUp(s, t).value)
    ensures StatusUp(s, t).value.tunnels == Update(s.tunnels, t.(status := AuthOk))
  {
    hide UpCount, EligibleIds, Alternates, DeviceUp, NormalUp;
    var up := t.(status := AuthOk);
    UpdateOne(s.tunnels, up, i);
    SomeUp(Update(s.tunnels, up), i);
    var u := UpdateStatus(s.(tunnels := Update(s.tunnels, up)));
    ResetTable(u);
    ScriptAppend(s.scripts, RtunUp(t.id));
    if !s.initialized {
      ScriptAppend(s.scripts + [RtunUp(t.id)], TuntapUp);
    }
  }

  lemma DownKeeps(s: Session, t: Tunnel)
    requires Inv(s) && Find(s.tunnels, t.id) == Some(t) && StatusDown(s, t).Some?
    ensures Inv(StatusDown(s, t).value)
    ensures StatusDown(s, t).value.tunnels == Update(s.tunnels, t.(status := Disconnected))
  {
    hide UpCount, EligibleIds, Alternates, DeviceUp, NormalUp;
    var i := FindListed(s.tunnels, t.id);
    var down := t.(status := Disconnected);
    UpdateOne(s.tunnels, down, i);
    var u := UpdateStatus(s.(tunnels := Update(s.tunnels, down)));
    if !t.status.Up() {
      SameUps(s.tunnels, u.tunnels);
      TableKept(s.table, s.tunnels, u.tunnels);
    } else {
      SomeUp(s.tunnels, i);
      ResetTable(u.(scripts := u.scripts + [RtunDown(t.id)]));
      ScriptAppend(s.scripts, RtunDown(t.id));
      if u.connected == 0 {
        ScriptAppend(s.scripts + [RtunDown(t.id)], TuntapDown);
      }
    }
  }

  /** A change of a tunnel that keeps it up or keeps it not up. */
  lemma ChangeKeeps(s: Session, t: Tunnel, u: Tunnel)
    requires Inv(s) && Find(s.tunnels, t.id) == Some(t) && u.id == t.id && u.status.Up() == t.status.Up()
    ensures Inv(s.(tunnels := Update(s.tunnels, u)))
  {
    hide UpCount, Alternates, DeviceUp;
    var i := FindListed(s.tunnels, t.id);
    UpdateOne(s.tunnels, u, i);
    SameUps(s.tunnels, Update(s.tunnels, u));
    TableKept(s.table, s.tunnels, Update(s.tunnels, u));
  }

  lemma SwitchKeeps(s: Session)
    requires Inv(s) && SwitchToFallback(s).Some?
    ensures Inv(SwitchToFallback(s).value) && SwitchToFallback(s).value.tunnels == s.tunnels
  {
    hide UpCount, Alternates, DeviceUp, EligibleIds;
    EligibleListed(s.tunnels, 0);
    EligibleListed(s.tunnels, 1);
  }

  /** Lossy and slow marks keep every table entry up, also where no table is rebuilt. */
  lemma FlipKeeps(s: Session, t: Tunnel, bad: bool, badStatus: Status)
    requires Inv(s) && Find(s.tunnels, t.id) == Some(t) && badStatus.Up() && Flip(s, t, bad, badStatus).Some?
    ensures Inv(Flip(s, t, bad, badStatus).value)
    ensures ServersReady(s.tunnels) ==> ServersReady(Flip(s, t, bad, badStatus).value.tunnels)
  {
    hide Inv, SwitchToFallback;
    var next := if bad then badStatus else AuthOk;
    if (bad && t.status.AuthOk?) || (!bad && t.status == badStatus) {
      ChangeKeeps(s, t, t.(status := next));
      SwitchKeeps(s.(tunnels := Update(s.tunnels, t.(status := next))));
    }
  }

  lemma AuthKeeps(s: Session, t: Tunnel)
    requires Inv(s) && ServersReady(s.tunnels) && Find(s.tunnels, t.id) == Some(t) && ReceiveAuth(s, t).Some?
    ensures Inv(ReceiveAuth(s, t).value) && ServersReady(ReceiveAuth(s, t).value.tunnels)
  {
    hide StatusUp, UpCount, TableOk;
    var i := FindListed(s.tunnels, t.id);
    if t.server && !t.status.AuthSent? {
      var u := if t.status.Up() then t else t.(status := AuthSent);
      UpdateOne(s.tunnels, u, i);
      UpKeeps(s.(tunnels := Update(s.tunnels, u)), u, i);
    } else if !t.server && t.status.AuthSent? {
      UpKeeps(s, t, i);
    }
  }

  lemma CheckKeeps(s: Session, t: Tunnel, expired: bool, socketOpen: bool)
    requires Inv(s) && ServersReady(s.tunnels) && Find(s.tunnels, t.id) == Some(t)
    requires Check(s, t, expired, socketOpen).Some?
    ensures Inv(Check(s, t, expired, socketOpen).value)
    ensures ServersReady(Check(s, t, expired, socketOpen).value.tunnels)
  {
    hide Inv, StatusDown;
    if t.status.Up() {
      if expired {
        DownKeeps(s, t);
      }
    } else {
      ChangeKeeps(s, t, t.(status := AuthSent));
    }
  }

  // ---- Adding and dropping ----

  lemma AddKeeps(s: Session, t: Tunnel)
    requires Inv(s) && Find(s.tunnels, t.id).None?
    ensures Inv(s.(tunnels := [t.(status := Disconnected)] + s.tunnels))
  {
    hide Alternates, DeviceUp;
    FindMissing(s.tunnels, t.id);
    var us := [t.(status := Disconnected)] + s.tunnels;
    assert us[1..] == s.tunnels;
    forall id | UpIn(s.tunnels, id)
      ensures UpIn(us, id)
    {
      var i :| 0 <= i < |s.tunnels| && s.tunnels[i].id == id && s.tunnels[i].status.Up();
      assert us[i + 1] == s.tunnels[i];
    }
    TableKept(s.table, s.tunnels, us);
  }

  lemma {:induction false} RemoveListed(ts: seq<Tunnel>, i: nat)
    requires Distinct(ts) && i < |ts|
    ensures Remove(ts, ts[i].id) == ts[..i] + ts[i + 1..]
  {
    if i > 0 {
      assert ts[0].id != ts[i].id;
      RemoveListed(ts[1..], i - 1);
      assert ts[..i] + ts[i + 1..] == [ts[0]] + (ts[1..][..i - 1] + ts[1..][i..]);
    }
  }

  lemma {:induction false} CountWithout(ts: seq<Tunnel>, i: nat)
    requires i < |ts| && !ts[i].status.Up()
    ensures UpCount(ts[..i] + ts[i + 1..]) == UpCount(ts)
  {
    if i == 0 {
      assert ts[..0] + ts[1..] == ts[1..];
    } else {
      CountWithout(ts[1..], i - 1);
      var us := ts[..i] + ts[i + 1..];
      assert us[1..] == ts[1..][..i - 1] + ts[1..][i..];
    }
  }

  lemma RemoveKeeps(s: Session, t: Tunnel)
    requires Inv(s) && Find(s.tunnels, t.id) == Some(t) && !t.status.Up()
    ensures Inv(s.(tunnels := Remove(s.tunnels, t.id)))
    ensures ServersReady(s.tunnels) ==> ServersReady(Remove(s.tunnels, t.id))
    ensures t.id !in s.table
  {
    hide Alternates, DeviceUp, UpCount, Remove;
    var ts := s.tunnels;
    var i := FindListed(ts, t.id);
    UpdateOne(ts, t, i);
    RemoveListed(ts, i);
    CountWithout(ts, i);
    var us := ts[..i] + ts[i + 1..];
    forall id | UpIn(ts, id)
      ensures UpIn(us, id)
    {
      var k :| 0 <= k < |ts| && ts[k].id == id && ts[k].status.Up();
      assert us[if k < i then k else k - 1] == ts[k];
    }
    TableKept(s.table, ts, us);
  }

  // ---- Every event ----

  ghost predicate Good(s: Session) { Inv(s) && ServersReady(s.tunnels) }

  lemma DownGood(s: Session, t: Tunnel)
    requires Good(s) && Find(s.tunnels, t.id) == Some(t) && StatusDown(s, t).Some?
    ensures Good(StatusDown(s, t).value)
    ensures Find(StatusDown(s, t).value.tunnels, t.id) == Some(t.(status := Disconnected))
  {
    hide Inv, StatusDown;
    DownKeeps(s, t);
    FindUpdated(s.tunnels, t, t.(status := Disconnected));
  }

  lemma {:induction false} FindUpdated(ts: seq<Tunnel>, t: Tunnel, u: Tunnel)
    requires Find(ts, t.id) == Some(t) && u.id == t.id
    ensures Find(Update(ts, u), t.id) == Some(u)
  {
    if ts[0].id != t.id {
      FindUpdated(ts[1..], t, u);
      assert Update(ts, u)[1..] == Update(ts[1..], u);
    }
  }

  lemma {:induction false} FindHasId(ts: seq<Tunnel>, id: nat)
    ensures Find(ts, id).Some? ==> Find(ts, id).value.id == id
  {
    if ts != [] {
      FindHasId(ts[1..], id);
    }
  }

  lemma TimerGood(s: Session, e: Event)
    requires Good(s) && e.Timer? && Step(s, e).Some?
    ensures Good(Step(s, e).value)
  {
    hide Inv, ServersReady, Check, CheckLossy, CheckSlow, Find;
    var id := e.id;
    FindHasId(s.tunnels, id);
    var a := Then(Some(s), id, (s, t) => Check(s, t, e.expired, e.socketOpen));
    if Find(s.tunnels, id).Some? {
      CheckKeeps(s, Find(s.tunnels, id).value, e.expired, e.socketOpen);
    }
    assert Good(a.value);
    FindHasId(a.value.tunnels, id);
    var b := Then(a, id, (s, t) => CheckLossy(s, t, e.loss));
    if Find(a.value.tunnels, id).Some? {
      LossyGood(a.value, Find(a.value.tunnels, id).value, e.loss);
    }
    assert Good(b.value);
    FindHasId(b.value.tunnels, id);
    if Find(b.value.tunnels, id).Some? {
      SlowGood(b.value, Find(b.value.tunnels, id).value, e.srtt);
    }
  }

  lemma LossyGood(s: Session, t: Tunnel, loss: nat)
    requires Good(s) && Find(s.tunnels, t.id) == Some(t) && CheckLossy(s, t, loss).Some?
    ensures Good(CheckLossy(s, t, loss).value)
  {
    FlipKeeps(s, t, loss >= t.lossTolerance, Lossy);
  }

  lemma SlowGood(s: Session, t: Tunnel, srtt: real)
    requires Good(s) && Find(s.tunnels, t.id) == Some(t) && CheckSlow(s, t, srtt).Some?
    ensures Good(CheckSlow(s, t, srtt).value)
  {
    if t.latencyTolerance != 1000 {
      FlipKeeps(s, t, srtt >= t.latencyTolerance as real, HighLatency);
    }
  }

  lemma DropGood(s: Session, e: Event)
    requires Good(s) && e.Drop? && Step(s, e).Some?
    ensures Good(Step(s, e).value)
  {
    hide Inv, ServersReady, StatusDown, Find, Remove;
    var id := e.id;
    FindHasId(s.tunnels, id);
    if Find(s.tunnels, id).Some? {
      var t := Find(s.tunnels, id).value;
      var a := if e.sendFails then StatusDown(s, t) else Some(s);
      if e.sendFails {
        DownGood(s, t);
      }
      var t1 := Find(a.value.tunnels, id).value;
      DownGood(a.value, t1);
      RemoveKeeps(StatusDown(a.value, t1).value, t1.(status := Disconnected));
    }
  }

  lemma ConfigureGood(s: Session, t: Tunnel, u: Tunnel)
    requires Good(s) && Find(s.tunnels, t.id) == Some(t)
    requires u == t.(fallbackOnly := u.fallbackOnly, lossTolerance := u.lossTolerance,
                     latencyTolerance := u.latencyTolerance)
    ensures Good(s.(tunnels := Update(s.tunnels, u)))
  {
    hide Inv;
    var i := FindListed(s.tunnels, t.id);
    ChangeKeeps(s, t, u);
  }

  lemma StepGood(s: Session, e: Event)
    requires Good(s) && Step(s, e).Some?
    ensures Good(Step(s, e).value)
  {
    hide Inv, StatusDown, ReceiveAuth, Find;
    match e {
      case Timer(id, _, _, _, _) =>
        TimerGood(s, e);
      case Drop(id, _) =>
        DropGood(s, e);
      case Auth(id) =>
        FindHasId(s.tunnels, id);
        if Find(s.tunnels, id).Some? {
          AuthKeeps(s, Find(s.tunnels, id).value);
        }
      case Disconnect(id) =>
        FindHasId(s.tunnels, id);
        if Find(s.tunnels, id).Some? && Find(s.tunnels, id).value.status.Up() {
          DownGood(s, Find(s.tunnels, id).value);
        }
      case SocketError(id) =>
        FindHasId(s.tunnels, id);
        if Find(s.tunnels, id).Some? {
          DownGood(s, Find(s.tunnels, id).value);
        }
      case Add(t) =>
        if Find(s.tunnels, t.id).None? {
          AddKeeps(s, t);
        }
      case Configure(id, fb, loss, lat) =>
        FindHasId(s.tunnels, id);
        if Find(s.tunnels, id).Some? {
          var t := Find(s.tunnels, id).value;
          ConfigureGood(s, t, t.(fallbackOnly := fb, lossTolerance := loss, latencyTolerance := lat));
        }
      case SetFallback(b) =>
        FallbackGood(s, b);
    }
  }

  lemma FallbackGood(s: Session, b: bool)
    requires Good(s)
    ensures Good(s.(fallbackAvailable := b))
  {
  }

  lemma {:induction false} RunGood(s: Session, es: seq<Event>)
    requires Good(s) && Run(s, es).Some?
    ensures Good(Run(s, es).value)
    decreases |es|
  {
    hide Good, Step;
    if es != [] {
      StepGood(s, es[0]);
      RunGood(Step(s, es[0]).value, es[1..]);
    }
  }

  /** In every run from start-up: `connected` counts the tunnels that are up, the device is up
      exactly when some tunnel is, its scripts alternate, every round robin entry is a listed
      tunnel that is up, and no server waits in AUTHSENT. */
  lemma EveryRun(es: seq<Event>)
    requires Run(START, es).Some?
    ensures Good(Run(START, es).value)
  {
    RunGood(START, es);
  }

  /** The scheduler never hands out a dropped or unauthenticated tunnel. */
  lemma ChosenIsUp(es: seq<Event>, vals: seq<real>, periods: seq<real>, k: nat)
    requires Run(START, es).Some? && Wrr.Fits(vals, periods) && |vals| == |Run(START, es).value.table|
    ensures var s := Run(START, es).value; UpIn(s.tunnels, s.table[Wrr.Pick(vals, periods, k)])
  {
    EveryRun(es);
  }

  // ---- When a run ends ----

  lemma {:induction false} EligibleFew(ts: seq<Tunnel>, mode: nat)
    ensures |EligibleIds(ts, mode)| <= |ts|
  {
    if ts != [] {
      EligibleFew(ts[1..], mode);
    }
  }

  lemma ResetLives(s: Session)
    requires |s.tunnels| <= MAX_TUNNELS
    ensures WrrReset(s).Some?
  {
    EligibleFew(s.tunnels, s.fallbackMode);
  }

  ghost predicate Lives(o: Option<Session>, n: nat) { o.Some? && |o.value.tunnels| <= n }

  lemma UpDownLive(s: Session, t: Tunnel, n: nat)
    requires |s.tunnels| <= n <= MAX_TUNNELS
    ensures Lives(StatusUp(s, t), n) && Lives(StatusDown(s, t), n) && Lives(ReceiveAuth(s, t), n)
  {
    hide EligibleIds, UpCount, NormalUp;
    var a := UpdateStatus(s.(tunnels := Update(s.tunnels, t.(status := AuthOk))));
    ResetLives(a);
    var d := UpdateStatus(s.(tunnels := Update(s.tunnels, t.(status := Disconnected))));
    ResetLives(d.(scripts := d.scripts + [RtunDown(t.id)]));
    var w := t.(status := AuthSent);
    var b := UpdateStatus(s.(tunnels := Update(Update(s.tunnels, t), t.(status := AuthOk))));
    ResetLives(b);
    var c := UpdateStatus(s.(tunnels := Update(Update(s.tunnels, w), w.(status := AuthOk))));
    ResetLives(c);
  }

  lemma FlipLives(s: Session, t: Tunnel, bad: bool, badStatus: Status, n: nat)
    requires |s.tunnels| <= n <= MAX_TUNNELS
    ensures Lives(Flip(s, t, bad, badStatus), n)
  {
    hide EligibleIds;
    var u := s.(tunnels := Update(s.tunnels, t.(status := if bad then badStatus else AuthOk)));
    ResetLives(u.(fallbackMode := 0));
    ResetLives(u.(fallbackMode := 1));
  }

  lemma {:induction false} RemoveShorter(ts: seq<Tunnel>, id: nat)
    ensures |Remove(ts, id)| <= |ts|
  {
    if ts != [] {
      RemoveShorter(ts[1..], id);
    }
  }

  lemma StepLives(s: Session, e: Event, n: nat)
    requires |s.tunnels| <= n && n + (if e.Add? then 1 else 0) <= MAX_TUNNELS
    ensures Lives(Step(s, e), n + (if e.Add? then 1 else 0))
  {
    hide StatusUp, StatusDown, Flip, ReceiveAuth, Find, Remove;
    forall u: Session, t: Tunnel | |u.tunnels| <= n
      ensures Lives(StatusUp(u, t), n) && Lives(StatusDown(u, t), n) && Lives(ReceiveAuth(u, t), n)
    {
      UpDownLive(u, t, n);
    }
    forall u: Session, t: Tunnel, bad: bool, st: Status | |u.tunnels| <= n
      ensures Lives(Flip(u, t, bad, st), n)
    {
      FlipLives(u, t, bad, st, n);
    }
    match e {
      case Drop(id, sendFails) =>
        var a := if sendFails then Then(Some(s), id, (s, t) => StatusDown(s, t)) else Some(s);
        var b := Then(a, id, (s, t) => StatusDown(s, t));
        assert Lives(a, n) && Lives(b, n);
        RemoveShorter(b.value.tunnels, id);
      case Timer(id, expired, socketOpen, loss, srtt) =>
        var a := Then(Some(s), id, (s, t) => Check(s, t, expired, socketOpen));
        assert Lives(a, n);
        var b := Then(a, id, (s, t) => CheckLossy(s, t, loss));
        assert Lives(b, n);
      case Auth(id) =>
        if Find(s.tunnels, id).Some? {
          UpDownLive(s, Find(s.tunnels, id).value, n);
        }
      case _ =>
    }
  }

  function Adds(es: seq<Event>): (n: nat) {
    if es == [] then 0 else (if es[0].Add? then 1 else 0) + Adds(es[1..])
  }

  /** The program never exits for too many tunnels while at most 128 were ever added. */
  lemma {:induction false} RunLives(s: Session, es: seq<Event>, n: nat)
    requires |s.tunnels| <= n && n + Adds(es) <= MAX_TUNNELS
    ensures Run(s, es).Some?
    decreases |es|
  {
    hide Step;
    if es != [] {
      StepLives(s, es[0], n);
      RunLives(Step(s, es[0]).value, es[1..], n + (if es[0].Add? then 1 else 0));
    }
  }
}
