/** A client and a server tunnel over a network that loses, duplicates and reorders packets. */
module Handshake {
  import opened Session
  import Q = PacketRing
  import T = SessionTable

  datatype Msg = MsgAuth | MsgAuthOk | MsgKeepalive | MsgData | MsgDisconnect

  /** Each side's status and high priority queue, and every packet ever put on the wire in each direction:
      a packet there may arrive never, once or many times, in any order. */
  datatype World = World(client: Status, server: Status,
                         clientQueue: seq<Msg>, serverQueue: seq<Msg>,
                         toServer: set<Msg>, toClient: set<Msg>)

  const QUIET := World(Disconnected, Disconnected, [], [], {}, {})

  datatype Event =
    | ClientTick(socketOpen: bool)       // the periodic check while not connected
    | ClientDown | ServerDown            // timeout, socket error or drop
    | ClientMark(s: Status) | ServerMark(s: Status) // lossy or slow, or well again
    | ClientQueues(m: Msg) | ServerQueues(m: Msg)   // keepalives, disconnects and filtered data
    | ClientSends | ServerSends
    | ClientSendsData | ServerSendsData  // from the other queue, which holds data only
    | ToServer(m: Msg) | ToClient(m: Msg)

  const QUEUE_SIZE: nat := 1024

  predicate Full(queue: seq<Msg>) { |queue| >= QUEUE_SIZE }

  /** A write into a full queue drops the oldest packet. */
  function Push(queue: seq<Msg>, m: Msg): (q: seq<Msg>) {
    if Full(queue) then queue[1..] + [m] else queue + [m]
  }

  predicate Plain(m: Msg) { m != MsgAuth && m != MsgAuthOk }

  /** Keepalives and disconnects are not queued when there is no room; data is. */
  function Enqueue(queue: seq<Msg>, m: Msg): (q: seq<Msg>) {
    if m.MsgData? || !Full(queue) then Push(queue, m) else queue
  }

  /** A server answers AUTH and AUTH_OK unless it waits for its own challenge; a full queue is
      emptied first. */
  function ServerOnAuth(w: World): (v: World) {
    if w.server.AuthSent? then w
    else w.(server := AuthOk, serverQueue := (if Full(w.serverQueue) then [] else w.serverQueue) + [MsgAuthOk])
  }

  function ClientOnAuth(w: World): (v: World) {
    if w.client.AuthSent? then w.(client := AuthOk) else w
  }

  function Step(w: World, e: Event): (v: World) {
    match e
    case ClientTick(open) =>
      if w.client.Up() || !open then w
      else w.(client := AuthSent, clientQueue := Push(w.clientQueue, MsgAuth))
    case ClientDown => w.(client := Disconnected, clientQueue := [])
    case ServerDown => w.(server := Disconnected, serverQueue := [])
    case ClientMark(s) => if w.client.Up() && s.Up() then w.(client := s) else w
    case ServerMark(s) => if w.server.Up() && s.Up() then w.(server := s) else w
    case ClientQueues(m) => if Plain(m) then w.(clientQueue := Enqueue(w.clientQueue, m)) else w
    case ServerQueues(m) => if Plain(m) then w.(serverQueue := Enqueue(w.serverQueue, m)) else w
    case ClientSendsData => w.(toServer := w.toServer + {MsgData})
    case ServerSendsData => w.(toClient := w.toClient + {MsgData})
    case ClientSends =>
      if w.clientQueue == [] then w
      else w.(clientQueue := w.clientQueue[1..], toServer := w.toServer + {w.clientQueue[0]})
    case ServerSends =>
      if w.serverQueue == [] then w
      else w.(serverQueue := w.serverQueue[1..], toClient := w.toClient + {w.serverQueue[0]})
    case ToServer(m) =>
      if m !in w.toServer then w
      else if !Plain(m) then ServerOnAuth(w)
      else if m.MsgDisconnect? && w.server.Up() then w.(server := Disconnected, serverQueue := [])
      else w
    case ToClient(m) =>
      if m !in w.toClient then w
      else if !Plain(m) then ClientOnAuth(w)
      else if m.MsgDisconnect? && w.client.Up() then w.(client := Disconnected, clientQueue := [])
      else w
  }

  /** The world after the first k events. */
  function At(es: seq<Event>, k: nat): (w: World)
    requires k <= |es|
  {
    if k == 0 then QUIET else Step(At(es, k - 1), es[k - 1])
  }

  // ---- The two sides are the session's own transitions ----

  /** What ReceiveAuth of the session does to the status of the tunnel it is called on. */
  lemma SessionServer(s: Session, t: Tunnel, w: World)
    requires t.server && w.server == t.status && ReceiveAuth(s, t).Some?
    ensures t.status.AuthSent? ==> ReceiveAuth(s, t).value == s
    ensures !t.status.AuthSent? ==> forall i :: 0 <= i < |s.tunnels| && s.tunnels[i].id == t.id ==>
              ReceiveAuth(s, t).value.tunnels[i].status == ServerOnAuth(w).server
  {
  }

  lemma SessionClient(s: Session, t: Tunnel, w: World)
    requires !t.server && w.client == t.status && ReceiveAuth(s, t).Some?
    ensures ClientOnAuth(w).client == t.status ==> ReceiveAuth(s, t).value == s
    ensures ClientOnAuth(w).client != t.status ==>
              forall i :: 0 <= i < |s.tunnels| && s.tunnels[i].id == t.id ==>
                ReceiveAuth(s, t).value.tunnels[i].status == ClientOnAuth(w).client
  {
  }

  /** Every status change of the client side is the one the session makes of the same event. */
  lemma ClientIsLink(w: World, t: Tunnel, open: bool, loss: nat, srtt: real, m: Msg)
    requires !t.server && t.status == w.client
    ensures !t.status.Up() ==>
              Step(w, ClientTick(open)).client == T.StatusAfter(t, Timer(t.id, false, open, loss, srtt))
    ensures Step(w, ClientDown).client == T.StatusAfter(t, SocketError(t.id))
    ensures m in w.toClient && !Plain(m) ==> Step(w, ToClient(m)).client == T.StatusAfter(t, Auth(t.id))
    ensures MsgDisconnect in w.toClient ==>
              Step(w, ToClient(MsgDisconnect)).client == T.StatusAfter(t, Disconnect(t.id))
  {
  }

  /** And so is every one of the server side, which the periodic check leaves alone while it is not up. */
  lemma ServerIsLink(w: World, t: Tunnel, open: bool, loss: nat, srtt: real, m: Msg)
    requires t.server && t.status == w.server
    ensures !t.status.Up() ==> w.server == T.StatusAfter(t, Timer(t.id, false, open, loss, srtt))
    ensures Step(w, ServerDown).server == T.StatusAfter(t, SocketError(t.id))
    ensures m in w.toServer && !Plain(m) ==> Step(w, ToServer(m)).server == T.StatusAfter(t, Auth(t.id))
    ensures MsgDisconnect in w.toServer ==>
              Step(w, ToServer(MsgDisconnect)).server == T.StatusAfter(t, Disconnect(t.id))
  {
  }

  /** A queue is the bounded ring of the send buffers. */
  lemma PushKeepsNewest(queue: seq<Msg>, m: Msg)
    requires |queue| <= QUEUE_SIZE
    ensures Push(queue, m) == Q.Newest(queue + [m], QUEUE_SIZE)
    ensures Enqueue(queue, m) == if m == MsgData || |queue| < QUEUE_SIZE then Push(queue, m) else queue
  {
    assert queue != [] ==> queue[1..] + [m] == (queue + [m])[1..];
  }

  // ---- Safety over whole runs ----

  ghost predicate ServerUpBy(es: seq<Event>, k: nat)
    requires k <= |es|
  {
    exists i :: 0 <= i <= k && At(es, i).server.Up()
  }

  /** `up` says whether the server has been up so far. */
  ghost predicate Safe(w: World, up: bool) {
    && !w.server.AuthSent? && (w.server.Up() ==> up)
    && MsgAuthOk !in w.clientQueue && MsgAuthOk !in w.toServer
    && MsgAuth !in w.serverQueue && MsgAuth !in w.toClient
    && |w.clientQueue| <= QUEUE_SIZE && |w.serverQueue| <= QUEUE_SIZE
    && (up ==> MsgAuth in w.toServer)
    && (MsgAuthOk in w.serverQueue || MsgAuthOk in w.toClient || w.client.Up() ==> up)
  }

  lemma StepSafe(w: World, e: Event, up: bool)
    requires Safe(w, up)
    ensures var v := Step(w, e); Safe(v, up || v.server.Up())
  {
    match e
    case ToServer(m) =>
      assert m in w.toServer && !Plain(m) ==> m == MsgAuth;
    case ToClient(m) =>
      assert m in w.toClient && !Plain(m) ==> m == MsgAuthOk;
    case _ =>
  }

  lemma UpByGrows(es: seq<Event>, k: nat)
    requires k < |es|
    ensures ServerUpBy(es, k) ==> ServerUpBy(es, k + 1)
    ensures At(es, k + 1).server.Up() ==> ServerUpBy(es, k + 1)
    ensures ServerUpBy(es, k + 1) ==> ServerUpBy(es, k) || At(es, k + 1).server.Up()
  {
    hide At;
  }

  lemma {:induction false} Reachable(es: seq<Event>, k: nat)
    requires k <= |es|
    ensures Safe(At(es, k), ServerUpBy(es, k))
    decreases k
  {
    hide ServerUpBy, Step;
    if k == 0 {
      NotUpAtStart(es);
    } else {
      Reachable(es, k - 1);
      StepSafe(At(es, k - 1), es[k - 1], ServerUpBy(es, k - 1));
      UpByGrows(es, k - 1);
    }
  }

  lemma NotUpAtStart(es: seq<Event>)
    ensures !ServerUpBy(es, 0)
  {
  }

  lemma UpNow(es: seq<Event>, k: nat)
    requires k <= |es| && At(es, k).server.Up()
    ensures ServerUpBy(es, k)
  {
  }

  /** A client is up only if the server was up at that moment or earlier, and by then the client's
      AUTH had been on the wire. */
  lemma ClientUpNeedsServer(es: seq<Event>, k: nat)
    requires k <= |es| && At(es, k).client.Up()
    ensures exists i :: 0 <= i <= k && At(es, i).server.Up() && MsgAuth in At(es, i).toServer
  {
    Reachable(es, k);
    var i :| 0 <= i <= k && At(es, i).server.Up();
    Reachable(es, i);
    UpNow(es, i);
  }

  /** In every reachable world the server answers an AUTH that arrives: it is up, and its answer is
      the last of at most 1024 queued, behind all that were there unless the queue was full. */
  lemma ServerAnswers(es: seq<Event>, k: nat)
    requires k <= |es| && MsgAuth in At(es, k).toServer
    ensures var q := At(es, k).serverQueue;
            var v := Step(At(es, k), ToServer(MsgAuth));
            && v.server.AuthOk? && |q| <= QUEUE_SIZE && |v.serverQueue| <= QUEUE_SIZE
            && v.serverQueue == (if |q| == QUEUE_SIZE then [MsgAuthOk] else q + [MsgAuthOk])
  {
    Reachable(es, k);
  }

  /** Between a time the client is down and a later time it is up, it tried to connect and was then
      waiting for the answer. */
  lemma {:induction false} ClientUpNeedsAttempt(es: seq<Event>, i: nat, k: nat)
    requires i <= k <= |es| && At(es, i).client.Disconnected? && !At(es, k).client.Disconnected?
    ensures exists j :: i <= j < k && es[j].ClientTick? && At(es, j + 1).client.AuthSent?
    decreases k
  {
    if At(es, k - 1).client.Disconnected? {
      assert es[k - 1].ClientTick? && At(es, k - 1 + 1).client.AuthSent?;
    } else {
      ClientUpNeedsAttempt(es, i, k - 1);
    }
  }

  /** A client comes up only by an answer that arrives while it waits for one. */
  lemma ClientUpByAnswer(es: seq<Event>, k: nat)
    requires k < |es| && !At(es, k).client.Up() && At(es, k + 1).client.Up()
    ensures At(es, k).client.AuthSent? && es[k] == ToClient(MsgAuthOk) && MsgAuthOk in At(es, k).toClient
  {
    Reachable(es, k);
  }

  /** A side that is down has no challenge or answer of an earlier connection left to send. */
  ghost predicate Clean(w: World) {
    && (w.client.Disconnected? ==> MsgAuth !in w.clientQueue)
    && (w.server.Disconnected? ==> MsgAuthOk !in w.serverQueue)
  }

  lemma StepClean(w: World, e: Event)
    requires Clean(w)
    ensures Clean(Step(w, e))
  {
  }

  lemma {:induction false} NothingStale(es: seq<Event>, k: nat)
    requires k <= |es|
    ensures Clean(At(es, k))
    decreases k
  {
    hide Clean, Step;
    if k == 0 {
      assert Clean(QUIET) by { StartClean(); }
    } else {
      NothingStale(es, k - 1);
      StepClean(At(es, k - 1), es[k - 1]);
    }
  }

  lemma StartClean()
    ensures Clean(QUIET)
  {
  }

  // ---- A connection is always within reach ----

  function Play(w: World, es: seq<Event>): (v: World) {
    if es == [] then w else Step(Play(w, es[..|es| - 1]), es[|es| - 1])
  }

  lemma {:induction false} PlayAppend(w: World, a: seq<Event>, b: seq<Event>)
    ensures Play(w, a + b) == Play(Play(w, a), b)
    decreases |b|
  {
    hide Step;
    if b == [] {
      assert a + b == a;
    } else {
      PlayAppend(w, a, b[..|b| - 1]);
      assert (a + b)[..|a + b| - 1] == a + b[..|b| - 1];
    }
  }

  lemma PlayOne(w: World, e: Event)
    ensures Play(w, [e]) == Step(w, e)
  {
    hide Step;
    assert [e][..0] == [];
    assert Play(w, []) == w;
  }

  lemma {:induction false} AtIsPlay(es: seq<Event>, k: nat)
    requires k <= |es|
    ensures At(es, k) == Play(QUIET, es[..k])
  {
    hide Step;
    if k > 0 {
      AtIsPlay(es, k - 1);
      assert es[..k][..k - 1] == es[..k - 1];
    }
  }

  function Repeat(e: Event, n: nat): (es: seq<Event>)
    ensures |es| == n
  {
    if n == 0 then [] else Repeat(e, n - 1) + [e]
  }

  lemma RepeatStep(w: World, e: Event, n: nat)
    ensures Play(w, Repeat(e, n + 1)) == Step(Play(w, Repeat(e, n)), e)
  {
    hide Step;
    assert Repeat(e, n + 1)[..n] == Repeat(e, n);
  }

  lemma RepeatNone(w: World, e: Event)
    ensures Play(w, Repeat(e, 0)) == w
  {
  }

  lemma ClientSendsOne(w: World)
    requires w.clientQueue != []
    ensures Step(w, ClientSends) == w.(clientQueue := w.clientQueue[1..], toServer := w.toServer + {w.clientQueue[0]})
  {
  }

  lemma ServerSendsOne(w: World)
    requires w.serverQueue != []
    ensures Step(w, ServerSends) == w.(serverQueue := w.serverQueue[1..], toClient := w.toClient + {w.serverQueue[0]})
  {
  }

  /** Sending n times puts the first n packets of the queue on the wire. */
  lemma {:induction false} ClientFlush(w: World, n: nat)
    requires n <= |w.clientQueue|
    ensures var v := Play(w, Repeat(ClientSends, n));
            && v == w.(clientQueue := w.clientQueue[n..], toServer := v.toServer)
            && w.toServer <= v.toServer && forall i :: 0 <= i < n ==> w.clientQueue[i] in v.toServer
  {
    hide Step, Play, Repeat;
    if n == 0 {
      RepeatNone(w, ClientSends);
      assert w.clientQueue[0..] == w.clientQueue;
    } else {
      ClientFlush(w, n - 1);
      RepeatStep(w, ClientSends, n - 1);
      ClientSendsOne(Play(w, Repeat(ClientSends, n - 1)));
      assert w.clientQueue[n - 1..][1..] == w.clientQueue[n..];
    }
  }

  lemma {:induction false} ServerFlush(w: World, n: nat)
    requires n <= |w.serverQueue|
    ensures var v := Play(w, Repeat(ServerSends, n));
            && v == w.(serverQueue := w.serverQueue[n..], toClient := v.toClient)
            && w.toClient <= v.toClient && forall i :: 0 <= i < n ==> w.serverQueue[i] in v.toClient
  {
    hide Step, Play, Repeat;
    if n == 0 {
      RepeatNone(w, ServerSends);
      assert w.serverQueue[0..] == w.serverQueue;
    } else {
      ServerFlush(w, n - 1);
      RepeatStep(w, ServerSends, n - 1);
      ServerSendsOne(Play(w, Repeat(ServerSends, n - 1)));
      assert w.serverQueue[n - 1..][1..] == w.serverQueue[n..];
    }
  }

  /** A tick, and the challenge gets through: the server is up and its answer queued. */
  lemma Challenge(w: World) returns (es: seq<Event>)
    requires !w.client.Up() && !w.server.AuthSent?
    ensures var v := Play(w, es);
            && v.client.AuthSent? && v.server.AuthOk? && v.serverQueue != []
            && v.serverQueue[|v.serverQueue| - 1] == MsgAuthOk
  {
    var a := Step(w, ClientTick(true));
    var n := |a.clientQueue|;
    ClientFlush(a, n);
    var b := Play(a, Repeat(ClientSends, n));
    assert a.clientQueue[n - 1] == MsgAuth && MsgAuth in b.toServer;
    es := [ClientTick(true)] + Repeat(ClientSends, n) + [ToServer(MsgAuth)];
    PlayOne(w, ClientTick(true));
    PlayAppend(w, [ClientTick(true)], Repeat(ClientSends, n));
    PlayAppend(w, [ClientTick(true)] + Repeat(ClientSends, n), [ToServer(MsgAuth)]);
    PlayOne(b, ToServer(MsgAuth));
  }

  /** The answer gets through: the client is up as well. */
  lemma Answer(w: World) returns (es: seq<Event>)
    requires w.client.AuthSent? && w.server.Up() && w.serverQueue != []
    requires w.serverQueue[|w.serverQueue| - 1] == MsgAuthOk
    ensures Play(w, es).client.Up() && Play(w, es).server.Up()
  {
    var n := |w.serverQueue|;
    ServerFlush(w, n);
    var b := Play(w, Repeat(ServerSends, n));
    es := Repeat(ServerSends, n) + [ToClient(MsgAuthOk)];
    PlayAppend(w, Repeat(ServerSends, n), [ToClient(MsgAuthOk)]);
    PlayOne(b, ToClient(MsgAuthOk));
  }

  /** From every reachable world in which the client is not up, some continuation brings both sides up:
      nothing either side did can shut the other out for good. */
  lemma CanConnect(es: seq<Event>) returns (more: seq<Event>)
    requires !At(es, |es|).client.Up()
    ensures var w := At(es + more, |es + more|); w.client.Up() && w.server.Up()
  {
    hide Step, Play;
    Reachable(es, |es|);
    var w := At(es, |es|);
    var a := Challenge(w);
    var b := Answer(Play(w, a));
    more := a + b;
    PlayAppend(w, a, b);
    AtIsPlay(es, |es|);
    AtIsPlay(es + more, |es + more|);
    assert es[..|es|] == es && (es + more)[..|es + more|] == es + more;
    PlayAppend(QUIET, es, more);
  }
}
