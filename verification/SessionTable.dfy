/** Which links are in the round robin, exactly, and what the periodic check makes of a link. */
module SessionTable {
  import opened Words
  import opened Session
  import opened SessionRuns

  // ---- The table ----

  /** A link of this mode that is authenticated; a lossy or slow one only as a fallback. */
  ghost predicate Carries(t: Tunnel, mode: nat) {
    && t.fallbackOnly == mode
    && (t.status == AuthOk || ((t.status == Lossy || t.status == HighLatency) && t.fallbackOnly != 0))
  }

  ghost predicate CarriesIn(ts: seq<Tunnel>, id: nat, mode: nat) {
    exists i :: 0 <= i < |ts| && ts[i].id == id && Carries(ts[i], mode)
  }

  /** The table holds exactly the links that carry traffic in the present mode. */
  ghost predicate Exact(s: Session) {
    forall id :: id in s.table <==> CarriesIn(s.tunnels, id, s.fallbackMode)
  }

  lemma CarriesEligible(t: Tunnel, mode: nat)
    ensures Eligible(t, mode) <==> Carries(t, mode)
  {
  }

  /** A reset makes the table exact. */
  lemma ResetExact(s: Session)
    requires WrrReset(s).Some?
    ensures Exact(WrrReset(s).value)
  {
    hide Eligible, EligibleIds, Carries;
    forall t: Tunnel
      ensures Eligible(t, s.fallbackMode) <==> Carries(t, s.fallbackMode)
    {
      CarriesEligible(t, s.fallbackMode);
    }
    forall id
      ensures id in EligibleIds(s.tunnels, s.fallbackMode) <==> CarriesIn(s.tunnels, id, s.fallbackMode)
    {
      EligibleExactly(s.tunnels, s.fallbackMode, id);
    }
  }

  /** After a status change fallback mode is on exactly if there are fallback links and no ordinary link
      is up. */
  ghost predicate Fallen(s: Session) {
    s.fallbackMode == if s.fallbackAvailable && forall i :: 0 <= i < |s.tunnels| && s.tunnels[i].status.Up() ==>
                                                  s.tunnels[i].fallbackOnly != 0 then 1 else 0
  }

  lemma UpExact(s: Session, t: Tunnel)
    requires StatusUp(s, t).Some?
    ensures Exact(StatusUp(s, t).value) && Fallen(StatusUp(s, t).value)
  {
    hide EligibleIds, UpCount, CarriesIn;
    ResetExact(UpdateStatus(s.(tunnels := Update(s.tunnels, t.(status := AuthOk)))));
  }

  lemma DownExact(s: Session, t: Tunnel)
    requires t.status.Up() && StatusDown(s, t).Some?
    ensures Exact(StatusDown(s, t).value) && Fallen(StatusDown(s, t).value)
  {
    hide EligibleIds, UpCount, CarriesIn;
    var u := UpdateStatus(s.(tunnels := Update(s.tunnels, t.(status := Disconnected))));
    ResetExact(u.(scripts := u.scripts + [RtunDown(t.id)]));
  }

  /** An ordinary link without a mark, connected or not. */
  ghost predicate Unmarked(ts: seq<Tunnel>) {
    exists i :: 0 <= i < |ts| && ts[i].fallbackOnly == 0 && ts[i].status != Lossy && ts[i].status != HighLatency
  }

  /** The fallback switch: back to the ordinary links while one is without a mark, to the fallback
      links if there are any, and otherwise nothing. */
  lemma SwitchIs(s: Session)
    requires SwitchToFallback(s).Some?
    ensures var u := SwitchToFallback(s).value;
            && u.tunnels == s.tunnels && u.fallbackAvailable == s.fallbackAvailable
            && (Unmarked(s.tunnels) ==> u.fallbackMode == 0 && Exact(u))
            && (!Unmarked(s.tunnels) && s.fallbackAvailable ==> u.fallbackMode == 1 && Exact(u))
            && (!Unmarked(s.tunnels) && !s.fallbackAvailable ==> u == s)
  {
    hide EligibleIds, CarriesIn;
    assert Unmarked(s.tunnels) <==> exists i :: 0 <= i < |s.tunnels| && Healthy(s.tunnels[i]);
    if Unmarked(s.tunnels) {
      ResetExact(s.(fallbackMode := 0));
    } else if s.fallbackAvailable {
      ResetExact(s.(fallbackMode := 1));
    }
  }

  /** While the table is exact, no ordinary link that is lossy or slow is in it, in fallback mode every
      fallback link that is up is, and a link whose role is neither 0 nor 1 never is. */
  lemma ExactMeans(s: Session, i: nat)
    requires Exact(s) && Distinct(s.tunnels) && i < |s.tunnels| && s.fallbackMode <= 1
    ensures var t := s.tunnels[i];
            && (t.fallbackOnly == 0 && (t.status == Lossy || t.status == HighLatency) ==> t.id !in s.table)
            && (s.fallbackMode == 1 && t.fallbackOnly == 1 && t.status.Up() ==> t.id in s.table)
            && (t.fallbackOnly >= 2 ==> t.id !in s.table)
  {
  }

  // ---- The mode is 0 or 1 ----

  ghost predicate Bit(o: Option<Session>) { o.Some? ==> o.value.fallbackMode <= 1 }

  lemma UpBit(s: Session, t: Tunnel)
    ensures Bit(StatusUp(s, t))
  {
    hide EligibleIds, UpCount, NormalUp, Update;
  }

  lemma DownBit(s: Session, t: Tunnel)
    ensures Bit(StatusDown(s, t))
  {
    hide EligibleIds, UpCount, NormalUp, Update;
  }

  lemma FlipBit(s: Session, t: Tunnel, bad: bool, badStatus: Status)
    requires s.fallbackMode <= 1
    ensures Bit(Flip(s, t, bad, badStatus))
  {
    hide EligibleIds, Update;
  }

  lemma TimerBit(s: Session, e: Event)
    requires s.fallbackMode <= 1 && e.Timer?
    ensures Bit(Step(s, e))
  {
    hide StatusDown, Flip, Find, Update;
    forall s: Session, t: Tunnel
      ensures Bit(StatusDown(s, t))
    {
      DownBit(s, t);
    }
    forall s: Session, t: Tunnel, bad: bool, badStatus: Status | s.fallbackMode <= 1
      ensures Bit(Flip(s, t, bad, badStatus))
    {
      FlipBit(s, t, bad, badStatus);
    }
  }

  lemma StepBit(s: Session, e: Event)
    requires s.fallbackMode <= 1
    ensures Bit(Step(s, e))
  {
    hide StatusUp, StatusDown, Flip, Find, Update, Remove;
    if e.Timer? {
      TimerBit(s, e);
    } else {
      forall s: Session, t: Tunnel
        ensures Bit(StatusDown(s, t)) && Bit(StatusUp(s, t))
      {
        DownBit(s, t);
        UpBit(s, t);
      }
    }
  }

  lemma {:induction false} RunBit(s: Session, es: seq<Event>)
    requires s.fallbackMode <= 1
    ensures Bit(Run(s, es))
    decreases |es|
  {
    hide Step;
    if es != [] {
      StepBit(s, es[0]);
      if Step(s, es[0]).Some? {
        RunBit(Step(s, es[0]).value, es[1..]);
      }
    }
  }

  /** Whether fallback links are available, as the last change of that option said. */
  function LastSaid(es: seq<Event>, before: bool): (available: bool)
    decreases |es|
  {
    if es == [] then before else LastSaid(es[1..], if es[0].SetFallback? then es[0].available else before)
  }

  lemma SwitchKeepsOption(s: Session, t: Tunnel, bad: bool, badStatus: Status)
    requires Flip(s, t, bad, badStatus).Some?
    ensures Flip(s, t, bad, badStatus).value.fallbackAvailable == s.fallbackAvailable
  {
    hide EligibleIds;
  }

  lemma StatusKeepsOption(s: Session, t: Tunnel)
    ensures StatusUp(s, t).Some? ==> StatusUp(s, t).value.fallbackAvailable == s.fallbackAvailable
    ensures StatusDown(s, t).Some? ==> StatusDown(s, t).value.fallbackAvailable == s.fallbackAvailable
  {
    hide EligibleIds, UpCount, NormalUp, Update;
  }

  lemma StepOption(s: Session, e: Event)
    requires Step(s, e).Some?
    ensures Step(s, e).value.fallbackAvailable == if e.SetFallback? then e.available else s.fallbackAvailable
  {
    hide Find, StatusUp, StatusDown, Flip, Update, Remove;
    forall s: Session, t: Tunnel
      ensures StatusUp(s, t).Some? ==> StatusUp(s, t).value.fallbackAvailable == s.fallbackAvailable
      ensures StatusDown(s, t).Some? ==> StatusDown(s, t).value.fallbackAvailable == s.fallbackAvailable
    {
      StatusKeepsOption(s, t);
    }
    forall s: Session, t: Tunnel, bad: bool, badStatus: Status | Flip(s, t, bad, badStatus).Some?
      ensures Flip(s, t, bad, badStatus).value.fallbackAvailable == s.fallbackAvailable
    {
      SwitchKeepsOption(s, t, bad, badStatus);
    }
  }

  /** In every run it is what the last change said, and none before the first. */
  lemma {:induction false} OptionIs(s: Session, es: seq<Event>)
    requires Run(s, es).Some?
    ensures Run(s, es).value.fallbackAvailable == LastSaid(es, s.fallbackAvailable)
    decreases |es|
  {
    hide Step;
    if es != [] {
      StepOption(s, es[0]);
      OptionIs(Step(s, es[0]).value, es[1..]);
    }
  }

  // ---- Status changes ----

  /** What the periodic check makes of a link: an expired one goes down; one that is up is slow or lossy
      exactly at its tolerances, a slow one being looked at for its delay only; a client that is not up
      tries to connect. */
  function Verdict(t: Tunnel, e: Event): (status: Status)
    requires e.Timer?
  {
    var slow := t.latencyTolerance != 1000 && e.srtt >= t.latencyTolerance as real;
    if !t.status.Up() then if !t.server && e.socketOpen then AuthSent else t.status
    else if e.expired then Disconnected
    else if t.status == HighLatency then if t.latencyTolerance == 1000 || slow then HighLatency else AuthOk
    else if e.loss >= t.lossTolerance then Lossy
    else if slow then HighLatency
    else AuthOk
  }

  /** The list of u is that of s with t in this status, and the table is as a switch leaves it if the
      status of t changed. */
  ghost predicate Turned(s: Session, t: Tunnel, status: Status, u: Session) {
    && u.tunnels == Update(s.tunnels, t.(status := status)) && u.fallbackAvailable == s.fallbackAvailable
    && (status != t.status && Unmarked(u.tunnels) ==> u.fallbackMode == 0 && Exact(u))
    && (status != t.status && !Unmarked(u.tunnels) && u.fallbackAvailable ==> u.fallbackMode == 1 && Exact(u))
  }

  lemma UpdateNothing(ts: seq<Tunnel>, t: Tunnel)
    requires Distinct(ts) && Find(ts, t.id) == Some(t)
    ensures Update(ts, t) == ts
  {
    var i := FindListed(ts, t.id);
  }

  lemma UpdateTwice(ts: seq<Tunnel>, t: Tunnel, u: Tunnel)
    requires u.id == t.id
    ensures Update(Update(ts, t), u) == Update(ts, u)
  {
  }

  function Marked(t: Tunnel, bad: bool, badStatus: Status): (status: Status) {
    if bad && t.status == AuthOk then badStatus else if !bad && t.status == badStatus then AuthOk else t.status
  }

  lemma FlipTurns(s: Session, t: Tunnel, bad: bool, badStatus: Status)
    requires Distinct(s.tunnels) && Find(s.tunnels, t.id) == Some(t) && Flip(s, t, bad, badStatus).Some?
    requires badStatus != AuthOk
    ensures Turned(s, t, Marked(t, bad, badStatus), Flip(s, t, bad, badStatus).value)
    ensures Marked(t, bad, badStatus) == t.status ==> Flip(s, t, bad, badStatus) == Some(s)
  {
    hide SwitchToFallback, Exact, Unmarked, Find;
    UpdateNothing(s.tunnels, t);
    if bad && t.status == AuthOk {
      SwitchIs(s.(tunnels := Update(s.tunnels, t.(status := badStatus))));
    } else if !bad && t.status == badStatus {
      SwitchIs(s.(tunnels := Update(s.tunnels, t.(status := AuthOk))));
    }
  }

  /** Two turns in a row. */
  lemma TurnedTwice(s: Session, t: Tunnel, a: Status, u: Session, b: Status, v: Session)
    requires Turned(s, t, a, u) && Turned(u, t.(status := a), b, v) && (b == a ==> v == u)
    requires a != t.status ==> b != t.status
    ensures Turned(s, t, b, v)
  {
    hide Exact, Unmarked, Update;
    UpdateTwice(s.tunnels, t.(status := a), t.(status := b));
  }

  lemma TurnedFinds(s: Session, t: Tunnel, a: Status, u: Session)
    requires Distinct(s.tunnels) && Find(s.tunnels, t.id) == Some(t) && Turned(s, t, a, u)
    ensures Distinct(u.tunnels) && Find(u.tunnels, t.id) == Some(t.(status := a))
  {
    hide Exact, Unmarked;
    FindUpdated(s.tunnels, t, t.(status := a));
  }

  lemma SlowTurns(s: Session, t: Tunnel, srtt: real)
    requires Distinct(s.tunnels) && Find(s.tunnels, t.id) == Some(t) && CheckSlow(s, t, srtt).Some?
    ensures var bad := srtt >= t.latencyTolerance as real;
            var status := if t.latencyTolerance == 1000 then t.status else Marked(t, bad, HighLatency);
            && Turned(s, t, status, CheckSlow(s, t, srtt).value)
            && (status == t.status ==> CheckSlow(s, t, srtt) == Some(s))
  {
    hide Exact, Unmarked, Find, Flip;
    if t.latencyTolerance == 1000 {
      UpdateNothing(s.tunnels, t);
    } else {
      FlipTurns(s, t, srtt >= t.latencyTolerance as real, HighLatency);
    }
  }

  /** The two checks of a link one after the other. */
  lemma ChecksTurn(s: Session, t: Tunnel, loss: nat, srtt: real) returns (a: Session, t1: Tunnel, b: Session)
    requires Distinct(s.tunnels) && Find(s.tunnels, t.id) == Some(t) && CheckLossy(s, t, loss).Some?
    requires forall t1: Tunnel :: Find(CheckLossy(s, t, loss).value.tunnels, t.id) == Some(t1) ==>
               CheckSlow(CheckLossy(s, t, loss).value, t1, srtt).Some?
    ensures CheckLossy(s, t, loss) == Some(a) && Find(a.tunnels, t.id) == Some(t1) && CheckSlow(a, t1, srtt) == Some(b)
    ensures var lossy := Marked(t, loss >= t.lossTolerance, Lossy);
            && t1 == t.(status := lossy)
            && Turned(s, t, if t.latencyTolerance == 1000 then lossy
                            else Marked(t1, srtt >= t.latencyTolerance as real, HighLatency), b)
            && (t.status != AuthOk && t.status != Lossy && t.status != HighLatency ==> b == s)
  {
    hide Exact, Unmarked, Find, Flip, Turned, CheckSlow;
    a := CheckLossy(s, t, loss).value;
    FlipTurns(s, t, loss >= t.lossTolerance, Lossy);
    TurnedFinds(s, t, Marked(t, loss >= t.lossTolerance, Lossy), a);
    t1 := t.(status := Marked(t, loss >= t.lossTolerance, Lossy));
    b := CheckSlow(a, t1, srtt).value;
    SlowTurns(a, t1, srtt);
    var status := if t.latencyTolerance == 1000 then t1.status
                  else Marked(t1, srtt >= t1.latencyTolerance as real, HighLatency);
    TurnedTwice(s, t, t1.status, a, status, b);
  }

  lemma CheckIs(s: Session, t: Tunnel, e: Event)
    requires e.Timer? && Distinct(s.tunnels) && Find(s.tunnels, t.id) == Some(t)
    requires Check(s, t, e.expired, e.socketOpen).Some?
    ensures var a := Check(s, t, e.expired, e.socketOpen).value;
            var status := if t.status.Up() then if e.expired then Disconnected else t.status else Verdict(t, e);
            && a.tunnels == Update(s.tunnels, t.(status := status)) && Distinct(a.tunnels)
            && Find(a.tunnels, t.id) == Some(t.(status := status))
            && (t.status.Up() && e.expired ==> Exact(a) && Fallen(a)) && (t.status.Up() && !e.expired ==> a == s)
            && (!t.status.Up() ==> a == s.(tunnels := a.tunnels))
  {
    hide Find, Exact, Fallen, EligibleIds, UpCount, NormalUp;
    UpdateNothing(s.tunnels, t);
    FindUpdated(s.tunnels, t, t.(status := Disconnected));
    FindUpdated(s.tunnels, t, t.(status := AuthSent));
    if t.status.Up() && e.expired {
      DownExact(s, t);
    }
  }

  lemma StepOfTimer(s: Session, e: Event, t: Tunnel, a: Session, t0: Tunnel, b: Session, t1: Tunnel)
    requires e.Timer? && Find(s.tunnels, e.id) == Some(t) && Check(s, t, e.expired, e.socketOpen) == Some(a)
    requires Find(a.tunnels, e.id) == Some(t0) && CheckLossy(a, t0, e.loss) == Some(b)
    requires Find(b.tunnels, e.id) == Some(t1)
    ensures Step(s, e) == CheckSlow(b, t1, e.srtt)
  {
    hide Find, Check, Flip, CheckSlow;
  }

  lemma TimerSome(s: Session, e: Event, t: Tunnel)
    requires e.Timer? && Find(s.tunnels, e.id) == Some(t) && Step(s, e).Some?
    ensures Check(s, t, e.expired, e.socketOpen).Some?
    ensures var a := Check(s, t, e.expired, e.socketOpen).value;
            forall t0: Tunnel :: Find(a.tunnels, e.id) == Some(t0) ==> CheckLossy(a, t0, e.loss).Some?
  {
    hide Find, Check, Flip, CheckSlow;
  }

  lemma SlowSome(s: Session, e: Event, t: Tunnel, a: Session, t0: Tunnel, b: Session)
    requires e.Timer? && Find(s.tunnels, e.id) == Some(t) && Check(s, t, e.expired, e.socketOpen) == Some(a)
    requires Find(a.tunnels, e.id) == Some(t0) && CheckLossy(a, t0, e.loss) == Some(b) && Step(s, e).Some?
    ensures forall t1: Tunnel :: Find(b.tunnels, e.id) == Some(t1) ==> CheckSlow(b, t1, e.srtt).Some?
  {
    hide Find, Check, Flip, CheckSlow;
  }

  /** The periodic check leaves a link as Verdict says and every other link alone. A link that expired
      leaves the table exact, a link that is up and changed leaves mode and table as the switch does, and
      nothing else touches them. */
  lemma TimerIs(s: Session, e: Event, t: Tunnel)
    requires e.Timer? && Distinct(s.tunnels) && Find(s.tunnels, e.id) == Some(t) && Step(s, e).Some?
    ensures var u := Step(s, e).value;
            && u.tunnels == Update(s.tunnels, t.(status := Verdict(t, e)))
            && (t.status.Up() && e.expired ==> Exact(u) && Fallen(u))
            && (t.status.Up() && !e.expired ==> Turned(s, t, Verdict(t, e), u))
            && (!t.status.Up() ==> u.table == s.table && u.fallbackMode == s.fallbackMode)
  {
    hide Find, Check, Flip, CheckSlow, CheckLossy, Exact, Fallen, Unmarked, Step;
    FindHasId(s.tunnels, e.id);
    TimerSome(s, e, t);
    CheckIs(s, t, e);
    var a := Check(s, t, e.expired, e.socketOpen).value;
    var t0 := Find(a.tunnels, e.id).value;
    SlowSome(s, e, t, a, t0, CheckLossy(a, t0, e.loss).value);
    var b, t1, c := ChecksTurn(a, t0, e.loss, e.srtt);
    StepOfTimer(s, e, t, a, t0, b, t1);
  }

  // ---- Over whole runs ----

  /** Events after which the table was rebuilt for good. */
  ghost predicate Rebuilds(s: Session, e: Event) {
    (e.Timer? || e.Auth? || e.Disconnect? || e.SocketError? || e.Drop?) && Find(s.tunnels, e.id).Some? &&
    var t := Find(s.tunnels, e.id).value;
    match e
    case Timer(_, expired, _, _, _) => t.status.Up() && (expired || (Verdict(t, e) != t.status && s.fallbackAvailable))
    case Auth(_) => if t.server then t.status != AuthSent else t.status == AuthSent
    case _ => t.status.Up()
  }

  lemma AuthExact(s: Session, t: Tunnel)
    requires ReceiveAuth(s, t).Some? && (if t.server then t.status != AuthSent else t.status == AuthSent)
    ensures Exact(ReceiveAuth(s, t).value)
  {
    hide StatusUp, Exact;
    if t.server {
      var u := if t.status.Up() then t else t.(status := AuthSent);
      UpExact(s.(tunnels := Update(s.tunnels, u)), u);
    } else {
      UpExact(s, t);
    }
  }

  lemma {:induction false} RemoveIsDrop(ts: seq<Tunnel>, id: nat) returns (i: nat)
    requires Find(ts, id).Some?
    ensures i < |ts| && ts[i] == Find(ts, id).value && ts[i].id == id && Remove(ts, id) == ts[..i] + ts[i + 1..]
  {
    if ts[0].id == id {
      i := 0;
    } else {
      var k := RemoveIsDrop(ts[1..], id);
      i := k + 1;
      assert ts[..i] + ts[i + 1..] == [ts[0]] + (ts[1..][..k] + ts[1..][k + 1..]);
    }
  }

  lemma DropCarries(ts: seq<Tunnel>, i: nat, id: nat, mode: nat)
    requires i < |ts| && !Carries(ts[i], mode)
    ensures CarriesIn(ts[..i] + ts[i + 1..], id, mode) <==> CarriesIn(ts, id, mode)
  {
    var us := ts[..i] + ts[i + 1..];
    if k :| 0 <= k < |us| && us[k].id == id && Carries(us[k], mode) {
      assert ts[if k < i then k else k + 1] == us[k];
    }
    if k :| 0 <= k < |ts| && ts[k].id == id && Carries(ts[k], mode) {
      assert us[if k < i then k else k - 1] == ts[k];
    }
  }

  /** Removing a link that is down leaves the table exact. */
  lemma RemoveExact(s: Session, id: nat)
    requires Exact(s) && Find(s.tunnels, id).Some? && Find(s.tunnels, id).value.status == Disconnected
    ensures Exact(s.(tunnels := Remove(s.tunnels, id)))
  {
    hide CarriesIn, Remove, Find;
    var i := RemoveIsDrop(s.tunnels, id);
    forall x
      ensures CarriesIn(Remove(s.tunnels, id), x, s.fallbackMode) <==> CarriesIn(s.tunnels, x, s.fallbackMode)
    {
      DropCarries(s.tunnels, i, x, s.fallbackMode);
    }
  }

  /** Taking a link down that is down already changes nothing after the first time. */
  lemma DownAgain(s: Session, t: Tunnel)
    requires Distinct(s.tunnels) && Find(s.tunnels, t.id) == Some(t) && StatusDown(s, t).Some?
    ensures var u, d := StatusDown(s, t).value, t.(status := Disconnected);
            && Find(u.tunnels, t.id) == Some(d) && StatusDown(u, d) == Some(u)
  {
    hide Find, EligibleIds, UpCount, NormalUp;
    var d := t.(status := Disconnected);
    FindUpdated(s.tunnels, t, d);
    UpdateTwice(s.tunnels, d, d);
  }

  lemma DropExact(s: Session, e: Event, t: Tunnel)
    requires e.Drop? && Distinct(s.tunnels) && Find(s.tunnels, e.id) == Some(t) && t.status.Up() && Step(s, e).Some?
    ensures Exact(Step(s, e).value)
  {
    hide Find, StatusDown, Remove, Exact;
    FindHasId(s.tunnels, e.id);
    assert StatusDown(s, t).Some?;
    DownAgain(s, t);
    DownExact(s, t);
    RemoveExact(StatusDown(s, t).value, e.id);
  }

  lemma StepExact(s: Session, e: Event)
    requires Distinct(s.tunnels) && Rebuilds(s, e) && Step(s, e).Some?
    ensures Exact(Step(s, e).value)
  {
    hide Find, StatusDown, ReceiveAuth, Remove, Exact, Check, Flip, Update;
    var t := Find(s.tunnels, e.id).value;
    match e
    case Timer(_, _, _, _, _) => TimerIs(s, e, t);
    case Auth(_) => AuthExact(s, t);
    case Disconnect(_) => DownExact(s, t);
    case SocketError(_) => DownExact(s, t);
    case Drop(_, _) => DropExact(s, e, t);
  }

  /** In every run from start-up, right after a link came up, went down, was dropped, or changed its mark
      with a fallback available, the table holds exactly the links that carry traffic in the present
      mode, which is 0 or 1. */
  lemma RebuiltExact(es: seq<Event>, e: Event)
    requires Run(START, es).Some? && Rebuilds(Run(START, es).value, e) && Step(Run(START, es).value, e).Some?
    ensures var u := Step(Run(START, es).value, e).value; Exact(u) && u.fallbackMode <= 1
  {
    hide Run, Step, Exact, Rebuilds, UpCount, TableOk, ScriptsOk;
    EveryRun(es);
    RunBit(START, es);
    StepBit(Run(START, es).value, e);
    StepExact(Run(START, es).value, e);
  }

  // ---- Links, event by event ----

  /** The status an event leaves the link it names in. */
  function StatusAfter(t: Tunnel, e: Event): (status: Status) {
    match e
    case Timer(_, _, _, _, _) => Verdict(t, e)
    case Auth(_) =>
      if t.server then if t.status == AuthSent then AuthSent else AuthOk
      else if t.status == AuthSent then AuthOk else t.status
    case Disconnect(_) => if t.status.Up() then Disconnected else t.status
    case SocketError(_) => Disconnected
    case _ => t.status
  }

  /** Packets, errors and the periodic check change the link they name as StatusAfter says, and no other. */
  lemma LinkAfter(s: Session, e: Event, t: Tunnel)
    requires e.Timer? || e.Auth? || e.Disconnect? || e.SocketError?
    requires Distinct(s.tunnels) && Find(s.tunnels, e.id) == Some(t) && Step(s, e).Some?
    ensures Step(s, e).value.tunnels == Update(s.tunnels, t.(status := StatusAfter(t, e)))
  {
    hide Find, Check, Flip, Exact, Fallen, EligibleIds, UpCount, NormalUp;
    FindHasId(s.tunnels, e.id);
    UpdateNothing(s.tunnels, t);
    match e
    case Timer(_, _, _, _, _) => TimerIs(s, e, t);
    case Auth(_) =>
      var u := if t.status.Up() then t else t.(status := AuthSent);
      UpdateTwice(s.tunnels, u, t.(status := AuthOk));
    case Disconnect(_) =>
    case SocketError(_) =>
  }
}
