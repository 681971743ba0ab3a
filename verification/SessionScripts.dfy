/** The status script: its last word on every link is whether the link is up. */
module SessionScripts {
  import opened Words
  import opened Session
  import opened SessionRuns
  import opened SessionTable

  /** Whether the last rtun script run for a link said that it is up. */
  function SaidUp(scripts: seq<Script>, id: nat): (b: bool) {
    if scripts == [] then false
    else
      match scripts[|scripts| - 1]
      case RtunUp(x) => x == id || SaidUp(scripts[..|scripts| - 1], id)
      case RtunDown(x) => x != id && SaidUp(scripts[..|scripts| - 1], id)
      case _ => SaidUp(scripts[..|scripts| - 1], id)
  }

  /** The status script's last word on every link is whether it is up. */
  ghost predicate Told(s: Session) { forall id :: SaidUp(s.scripts, id) <==> UpIn(s.tunnels, id) }

  lemma SaidAppend(scripts: seq<Script>, x: Script, id: nat)
    ensures SaidUp(scripts + [x], id) == match x
                                         case RtunUp(y) => y == id || SaidUp(scripts, id)
                                         case RtunDown(y) => y != id && SaidUp(scripts, id)
                                         case _ => SaidUp(scripts, id)
  {
    assert (scripts + [x])[..|scripts|] == scripts;
  }

  lemma UpTold(s: Session, t: Tunnel, i: nat)
    requires Distinct(s.tunnels) && i < |s.tunnels| && s.tunnels[i].id == t.id && StatusUp(s, t).Some?
    requires forall id :: id != t.id ==> (SaidUp(s.scripts, id) <==> UpIn(s.tunnels, id))
    ensures Told(StatusUp(s, t).value)
  {
    hide EligibleIds, UpCount, NormalUp, UpIn, SaidUp, Update;
    UpdateOne(s.tunnels, t.(status := AuthOk), i);
    forall id
      ensures SaidUp(StatusUp(s, t).value.scripts, id) <==> UpIn(StatusUp(s, t).value.tunnels, id)
    {
      SaidAppend(s.scripts, RtunUp(t.id), id);
      SaidAppend(s.scripts + [RtunUp(t.id)], TuntapUp, id);
    }
  }

  lemma DownTold(s: Session, t: Tunnel)
    requires Distinct(s.tunnels) && Find(s.tunnels, t.id) == Some(t) && Told(s) && StatusDown(s, t).Some?
    ensures Told(StatusDown(s, t).value)
  {
    hide EligibleIds, UpCount, NormalUp, UpIn, SaidUp, Update, Find;
    var i := FindListed(s.tunnels, t.id);
    UpdateOne(s.tunnels, t.(status := Disconnected), i);
    forall id
      ensures SaidUp(StatusDown(s, t).value.scripts, id) <==> UpIn(StatusDown(s, t).value.tunnels, id)
    {
      SaidAppend(s.scripts, RtunDown(t.id), id);
      SaidAppend(s.scripts + [RtunDown(t.id)], TuntapDown, id);
    }
  }

  /** A change that keeps the link up or keeps it not up, with the same scripts. */
  lemma ChangeTold(s: Session, t: Tunnel, u: Tunnel, v: Session)
    requires Distinct(s.tunnels) && Find(s.tunnels, t.id) == Some(t) && Told(s)
    requires u.id == t.id && u.status.Up() == t.status.Up()
    requires v.tunnels == Update(s.tunnels, u) && v.scripts == s.scripts
    ensures Told(v)
  {
    hide UpIn, SaidUp, Update, Find;
    var i := FindListed(s.tunnels, t.id);
    UpdateOne(s.tunnels, u, i);
  }

  lemma FlipScripts(s: Session, t: Tunnel, bad: bool, badStatus: Status)
    requires Flip(s, t, bad, badStatus).Some?
    ensures Flip(s, t, bad, badStatus).value.scripts == s.scripts
  {
    hide EligibleIds;
  }

  lemma CheckTold(s: Session, t: Tunnel, expired: bool, socketOpen: bool)
    requires Distinct(s.tunnels) && Find(s.tunnels, t.id) == Some(t) && Told(s)
    requires Check(s, t, expired, socketOpen).Some?
    ensures Told(Check(s, t, expired, socketOpen).value)
  {
    hide Told, StatusDown, Find, Update;
    if t.status.Up() && expired {
      DownTold(s, t);
    } else if !t.status.Up() {
      ChangeTold(s, t, t.(status := AuthSent), s.(tunnels := Update(s.tunnels, t.(status := AuthSent))));
    }
  }

  lemma TimerTold(s: Session, e: Event, t: Tunnel)
    requires e.Timer? && Distinct(s.tunnels) && Find(s.tunnels, e.id) == Some(t) && Told(s) && Step(s, e).Some?
    ensures Told(Step(s, e).value)
  {
    hide Told, Find, Check, Flip, Exact, Fallen, Unmarked, Step;
    FindHasId(s.tunnels, e.id);
    TimerSome(s, e, t);
    CheckIs(s, t, e);
    CheckTold(s, t, e.expired, e.socketOpen);
    var a := Check(s, t, e.expired, e.socketOpen).value;
    var t0 := Find(a.tunnels, e.id).value;
    SlowSome(s, e, t, a, t0, CheckLossy(a, t0, e.loss).value);
    var b, t1, c := ChecksTurn(a, t0, e.loss, e.srtt);
    StepOfTimer(s, e, t, a, t0, b, t1);
    FlipScripts(a, t0, e.loss >= t0.lossTolerance, Lossy);
    if t1.latencyTolerance != 1000 {
      FlipScripts(b, t1, e.srtt >= t1.latencyTolerance as real, HighLatency);
    }
    var lossy := Marked(t0, e.loss >= t0.lossTolerance, Lossy);
    var status := if t0.latencyTolerance == 1000 then lossy
                  else Marked(t1, e.srtt >= t0.latencyTolerance as real, HighLatency);
    ChangeTold(a, t0, t0.(status := status), c);
  }

  lemma AuthTold(s: Session, t: Tunnel)
    requires Distinct(s.tunnels) && Find(s.tunnels, t.id) == Some(t) && Told(s) && ReceiveAuth(s, t).Some?
    ensures Told(ReceiveAuth(s, t).value)
  {
    hide StatusUp, Find, SaidUp, UpIn, Update;
    var i := FindListed(s.tunnels, t.id);
    if t.server && t.status != AuthSent {
      var u := if t.status.Up() then t else t.(status := AuthSent);
      UpdateOne(s.tunnels, u, i);
      UpTold(s.(tunnels := Update(s.tunnels, u)), u, i);
    } else if !t.server && t.status == AuthSent {
      UpTold(s, t, i);
    }
  }

  /** A link that is not up, in front of the list or taken out of it. */
  lemma WithoutUps(ts: seq<Tunnel>, i: nat)
    requires i < |ts| && !ts[i].status.Up()
    ensures forall id :: UpIn(ts[..i] + ts[i + 1..], id) == UpIn(ts, id)
  {
    var us := ts[..i] + ts[i + 1..];
    forall id
      ensures UpIn(us, id) == UpIn(ts, id)
    {
      if k :| 0 <= k < |us| && us[k].id == id && us[k].status.Up() {
        assert ts[if k < i then k else k + 1] == us[k];
      }
      if k :| 0 <= k < |ts| && ts[k].id == id && ts[k].status.Up() {
        assert us[if k < i then k else k - 1] == ts[k];
      }
    }
  }

  lemma AddTold(s: Session, t: Tunnel)
    requires Told(s) && !t.status.Up()
    ensures Told(s.(tunnels := [t] + s.tunnels))
  {
    hide UpIn, SaidUp;
    WithoutUps([t] + s.tunnels, 0);
    assert ([t] + s.tunnels)[..0] + ([t] + s.tunnels)[1..] == s.tunnels;
  }

  lemma DropTold(s: Session, e: Event, t: Tunnel)
    requires e.Drop? && Distinct(s.tunnels) && Find(s.tunnels, e.id) == Some(t) && Told(s) && Step(s, e).Some?
    ensures Told(Step(s, e).value)
  {
    hide Find, StatusDown, Remove, SaidUp, UpIn;
    FindHasId(s.tunnels, e.id);
    assert StatusDown(s, t).Some?;
    DownAgain(s, t);
    DownTold(s, t);
    var u := StatusDown(s, t).value;
    var i := RemoveIsDrop(u.tunnels, e.id);
    WithoutUps(u.tunnels, i);
  }

  lemma SameTold(s: Session, u: Session)
    requires Told(s) && u.tunnels == s.tunnels && u.scripts == s.scripts
    ensures Told(u)
  {
  }

  lemma ListedTold(s: Session, e: Event, t: Tunnel)
    requires !e.Add? && !e.SetFallback? && Distinct(s.tunnels) && Find(s.tunnels, e.id) == Some(t) && t.id == e.id
    requires Told(s) && Step(s, e).Some?
    ensures Told(Step(s, e).value)
  {
    hide Find, StatusDown, ReceiveAuth, Remove, Told, Check, Flip, Update;
    match e
    case Timer(_, _, _, _, _) => TimerTold(s, e, t);
    case Auth(_) => AuthTold(s, t);
    case Disconnect(_) =>
      if t.status.Up() {
        DownTold(s, t);
      }
    case SocketError(_) => DownTold(s, t);
    case Drop(_, _) => DropTold(s, e, t);
    case Configure(_, fb, loss, lat) =>
      var u := t.(fallbackOnly := fb, lossTolerance := loss, latencyTolerance := lat);
      ChangeTold(s, t, u, s.(tunnels := Update(s.tunnels, u)));
  }

  lemma StepTold(s: Session, e: Event)
    requires Distinct(s.tunnels) && Told(s) && Step(s, e).Some?
    ensures Told(Step(s, e).value)
  {
    hide Find, StatusDown, ReceiveAuth, Remove, Told, Check, Flip, Update;
    match e
    case Add(t) =>
      AddTold(s, t.(status := Disconnected));
    case SetFallback(b) => SameTold(s, s.(fallbackAvailable := b));
    case _ =>
      if Find(s.tunnels, e.id).Some? {
        FindHasId(s.tunnels, e.id);
        ListedTold(s, e, Find(s.tunnels, e.id).value);
      }
  }

  lemma {:induction false} RunTold(s: Session, es: seq<Event>)
    requires Inv(s) && ServersReady(s.tunnels) && Told(s) && Run(s, es).Some?
    ensures Told(Run(s, es).value)
    decreases |es|
  {
    hide Step, Told, UpCount, TableOk, ScriptsOk, ServersReady;
    if es != [] {
      StepGood(s, es[0]);
      StepTold(s, es[0]);
      RunTold(Step(s, es[0]).value, es[1..]);
    }
  }

  /** In every run from start-up, the last status script run for a link said that it is up if and only
      if it is listed and up. */
  lemma EveryRunTold(es: seq<Event>, id: nat)
    requires Run(START, es).Some?
    ensures SaidUp(Run(START, es).value.scripts, id) <==> UpIn(Run(START, es).value.tunnels, id)
  {
    hide Run;
    assert Told(START);
    RunTold(START, es);
  }
}
