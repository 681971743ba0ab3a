/** The request protocol of src/privsep.c between the unprivileged child and its privileged parent. */
module Privsep {
  import opened Words
  import opened Wire

  const MAXPATHLEN: nat := 4096
  const IFNAMSIZ: nat := 16
  const MAXHNAMSTR: nat := 256

  // ---- Reading and writing whole buffers ----

  /** One call to read or write: it moves some bytes, is interrupted and tried again, or fails. */
  datatype Call = Moves(n: Count) | Again | Fails

  type Count = n: nat | n > 0 witness 1

  /** Whether a transfer of n bytes is complete, ended the process, or still waits when the calls
      seen so far are used up. */
  datatype Outcome = Done | Exited | Waiting

  /** `open` bytes can still be moved; after the last of them a call moves none, which is an exit. */
  function Transfer(calls: seq<Call>, open: nat, n: nat): (o: Outcome)
    ensures o.Done? ==> n <= open
    decreases |calls|
  {
    if n == 0 then Done
    else if calls == [] then Waiting
    else
      match calls[0]
      case Again => Transfer(calls[1..], open, n)
      case Fails => Exited
      case Moves(c) =>
        if open == 0 then Exited
        else
          var k := Least(c, Least(n, open));
          Transfer(calls[1..], open - k, n - k)
  }

  function Least(a: nat, b: nat): (m: nat) { if a < b then a else b }

  function Volume(calls: seq<Call>): (v: nat) {
    if calls == [] then 0 else (if calls[0].Moves? then calls[0].n else 0) + Volume(calls[1..])
  }

  /** Without a failing call, a transfer the stream is long enough for completes exactly when the
      calls are worth its length, however they cut it. */
  lemma {:induction false} TransferCompletes(calls: seq<Call>, open: nat, n: nat)
    requires n <= open && forall i :: 0 <= i < |calls| ==> !calls[i].Fails?
    ensures Transfer(calls, open, n) == if n <= Volume(calls) then Done else Waiting
    decreases |calls|
  {
    if n > 0 && calls != [] {
      var k := if calls[0].Moves? then Least(calls[0].n, Least(n, open)) else 0;
      TransferCompletes(calls[1..], open - k, n - k);
    }
  }

  lemma TransferStep(calls: seq<Call>, i: nat)
    requires i < |calls|
    ensures calls[i..] != [] && calls[i..][0] == calls[i] && calls[i..][1..] == calls[i + 1..]
  {
  }

  /** must_read: however the bytes trickle in, the buffer gets exactly the next n of them; a stream
      that ends or fails before ends the process. */
  method MustRead(wire: Bytes, n: nat, calls: seq<Call>) returns (o: Outcome, buf: Bytes, rest: Bytes)
    ensures o == Transfer(calls, |wire|, n) && buf + rest == wire
    ensures o.Done? ==> buf == wire[..n] && rest == wire[n..]
  {
    buf, rest := [], wire;
    var i := 0;
    assert calls[0..] == calls;
    while |buf| < n
      invariant |buf| <= n && i <= |calls| && buf + rest == wire
      invariant Transfer(calls[i..], |rest|, n - |buf|) == Transfer(calls, |wire|, n)
      decreases |calls| - i
    {
      if i == |calls| {
        return Waiting, buf, rest;
      }
      TransferStep(calls, i);
      var call := calls[i];
      i := i + 1;
      if call.Fails? || (call.Moves? && rest == []) {
        return Exited, buf, rest;
      }
      if call.Moves? {
        var res := Least(call.n, Least(n - |buf|, |rest|));
        assert buf + rest[..res] + rest[res..] == buf + rest;
        buf, rest := buf + rest[..res], rest[res..];
      }
    }
    o := Done;
  }

  /** must_write: however short the writes, the wire gets exactly the buffer, or a front part of it
      and the process ends. */
  method MustWrite(wire: Bytes, buf: Bytes, calls: seq<Call>) returns (o: Outcome, out: Bytes, ghost pos: nat)
    ensures o == Transfer(calls, |buf|, |buf|) && pos <= |buf| && out == wire + buf[..pos]
    ensures o.Done? <==> out == wire + buf
  {
    out := wire;
    var at, i := 0, 0;
    assert calls[0..] == calls;
    while at < |buf|
      invariant 0 <= at <= |buf| && i <= |calls| && out == wire + buf[..at]
      invariant Transfer(calls[i..], |buf| - at, |buf| - at) == Transfer(calls, |buf|, |buf|)
      decreases |calls| - i
    {
      if i == |calls| {
        return Waiting, out, at;
      }
      TransferStep(calls, i);
      var call := calls[i];
      i := i + 1;
      if call.Fails? {
        return Exited, out, at;
      }
      if call.Moves? {
        var res := Least(call.n, |buf| - at);
        assert buf[..at] + buf[at..at + res] == buf[..at + res];
        out := out + buf[at..at + res];
        at := at + res;
      }
    }
    assert buf[..at] == buf;
    o, pos := Done, at;
  }

  // ---- Requests ----

  /** A C string: its bytes before the terminating 0. */
  type Text = Bytes

  datatype Request =
    | OpenConfig(path: Text)
    | InitScript(path: Text)
    | OpenTun(mode: U32, name: Option<Text>, mtu: U32)
    | RunScript(argv: seq<Text>, env: seq<Text>)
    | ReloadResolver
    | GetAddrInfo(host: Option<Text>, serv: Option<Text>, hints: U64)
    | SetRunning

  predicate IsText(s: Text) { forall i :: 0 <= i < |s| ==> s[i] != 0 }

  ghost predicate IsRequest(r: Request) {
    match r
    case OpenConfig(p) => IsText(p) && |p| + 1 < TWO64
    case InitScript(p) => IsText(p) && |p| + 1 < TWO64
    case OpenTun(_, name, _) => name.Some? ==> IsText(name.value) && |name.value| + 1 < TWO64
    case RunScript(argv, env) => Texts(argv) && Texts(env)
    case GetAddrInfo(host, serv, _) =>
      (host.Some? ==> IsText(host.value)) && (serv.Some? ==> IsText(serv.value))
    case _ => true
  }

  ghost predicate Texts(ts: seq<Text>) {
    |ts| < TWO32 && forall i :: 0 <= i < |ts| ==> IsText(ts[i]) && |ts[i]| + 1 < TWO64
  }

  // ---- What the child writes: an int is 4 bytes, a size_t 8 ----

  function PutText(s: Text): (b: Bytes) { Big(|s| + 1, 8) + s + [0] }

  function PutOptional(o: Option<Text>): (b: Bytes) { if o.None? then Big(0, 8) else PutText(o.value) }

  function PutTexts(ts: seq<Text>): (b: Bytes) { if ts == [] then [] else PutText(ts[0]) + PutTexts(ts[1..]) }

  /** Names are first copied into 256-byte buffers. */
  function Cut(o: Option<Text>): (p: Option<Text>) {
    if o.Some? && |o.value| >= MAXHNAMSTR then Some(o.value[..MAXHNAMSTR - 1]) else o
  }

  /** The command numbers of the enumeration. `hints` stands for the address hints, a fixed block. */
  function Put(r: Request): (b: Bytes) {
    match r
    case OpenConfig(p) => Big(0, 4) + PutText(p)
    case InitScript(p) => Big(1, 4) + PutText(p)
    case OpenTun(mode, name, mtu) => Big(2, 4) + (Big(mode, 4) + (PutOptional(name) + Big(mtu, 4)))
    case RunScript(argv, env) => Big(3, 4) + (Big(|argv|, 4) + (PutTexts(argv) + (Big(|env|, 4) + PutTexts(env))))
    case ReloadResolver => Big(4, 4)
    case GetAddrInfo(host, serv, hints) =>
      Big(5, 4) + (PutOptional(Cut(host)) + (PutOptional(Cut(serv)) + Big(hints, 8)))
    case SetRunning => Big(6, 4)
  }

  // ---- What the parent reads; None means it exits ----

  datatype Got<+T> = Got(value: T, rest: Bytes)

  function GetWord(s: Bytes, k: nat): (o: Option<Got<nat>>)
    ensures o.Some? ==> o.value.value < Pow256(k) && |o.value.rest| + k == |s|
  {
    if |s| < k then None else Some(Got(UnBig(s[..k]), s[k..]))
  }

  /** The string in a buffer whose last byte is forced to 0. */
  function CText(b: Bytes): (t: Text)
    requires b != []
    ensures |t| < |b| && IsText(t)
  {
    if |b| == 1 || b[0] == 0 then [] else [b[0]] + CText(b[1..])
  }

  /** A length of at least `min` and at most `max`, then that many bytes; length 0 is no string. */
  function GetText(s: Bytes, min: nat, max: nat): (o: Option<Got<Option<Text>>>)
    ensures o.Some? ==> |o.value.rest| < |s|
    ensures o.Some? && min > 0 ==> o.value.value.Some?
  {
    match GetWord(s, 8)
    case None => None
    case Some(Got(len, t)) =>
      if len < min || len > max || len > |t| then None
      else if len == 0 then Some(Got(None, t))
      else Some(Got(Some(CText(t[..len])), t[len..]))
  }

  function GetTexts(s: Bytes, n: nat): (o: Option<Got<seq<Text>>>)
    ensures o.Some? ==> |o.value.rest| <= |s|
    decreases n
  {
    if n == 0 then Some(Got([], s))
    else
      match GetText(s, 1, TWO64)
      case None => None
      case Some(Got(t, r)) =>
        match GetTexts(r, n - 1)
        case None => None
        case Some(Got(ts, q)) => Some(Got([t.value] + ts, q))
  }

  /** An int is negative from 2^31 on. */
  predicate Positive(n: nat) { 0 < n < 0x8000_0000 }

  function GetOpenTun(s: Bytes): (o: Option<Got<Request>>)
    ensures o.Some? ==> |o.value.rest| <= |s|
  {
    Powers();
    match GetWord(s, 4)
    case None => None
    case Some(Got(mode, a)) =>
      if mode > 1 then None
      else
        match GetText(a, 0, IFNAMSIZ)
        case None => None
        case Some(Got(name, b)) =>
          match GetWord(b, 4)
          case None => None
          case Some(Got(mtu, c)) => if mtu > 1500 then None else Some(Got(OpenTun(mode, name, mtu), c))
  }

  function GetRunScript(s: Bytes): (o: Option<Got<Request>>)
    ensures o.Some? ==> |o.value.rest| <= |s|
  {
    match GetWord(s, 4)
    case None => None
    case Some(Got(argc, a)) =>
      if !Positive(argc) then None
      else
        match GetTexts(a, argc)
        case None => None
        case Some(Got(argv, b)) =>
          match GetWord(b, 4)
          case None => None
          case Some(Got(envc, c)) =>
            if !Positive(envc) then None
            else
              match GetTexts(c, envc)
              case None => None
              case Some(Got(env, d)) => Some(Got(RunScript(argv, env), d))
  }

  /** An empty name is passed to the resolver as no name. */
  function NotEmpty(o: Option<Text>): (p: Option<Text>) { if o == Some([]) then None else o }

  function GetAddr(s: Bytes): (o: Option<Got<Request>>)
    ensures o.Some? ==> |o.value.rest| <= |s|
  {
    Powers();
    match GetText(s, 0, MAXHNAMSTR)
    case None => None
    case Some(Got(host, a)) =>
      match GetText(a, 0, MAXHNAMSTR)
      case None => None
      case Some(Got(serv, b)) =>
        match GetWord(b, 8)
        case None => None
        case Some(Got(hints, c)) => Some(Got(GetAddrInfo(NotEmpty(host), NotEmpty(serv), hints), c))
  }

  function Get(s: Bytes): (o: Option<Got<Request>>)
    ensures o.Some? ==> |o.value.rest| < |s|
  {
    match GetWord(s, 4)
    case None => None
    case Some(Got(cmd, a)) =>
      if cmd == 0 || cmd == 1 then
        match GetText(a, 1, MAXPATHLEN)
        case None => None
        case Some(Got(p, b)) => Some(Got(if cmd == 0 then OpenConfig(p.value) else InitScript(p.value), b))
      else if cmd == 2 then GetOpenTun(a)
      else if cmd == 3 then GetRunScript(a)
      else if cmd == 4 then Some(Got(ReloadResolver, a))
      else if cmd == 5 then GetAddr(a)
      else if cmd == 6 then Some(Got(SetRunning, a))
      else None
  }

  // ---- The parent decodes exactly the fields sent ----

  /** Requests within the parent's limits; it exits on all others. */
  ghost predicate Accepted(r: Request) {
    match r
    case OpenConfig(p) => |p| < MAXPATHLEN
    case InitScript(p) => |p| < MAXPATHLEN
    case OpenTun(mode, name, mtu) => mode <= 1 && mtu <= 1500 && (name.Some? ==> |name.value| < IFNAMSIZ)
    case RunScript(argv, env) => Positive(|argv|) && Positive(|env|)
    case _ => true
  }

  /** Host and service names arrive cut to 255 bytes, and empty ones as none. */
  function Normal(r: Request): (n: Request) {
    match r
    case GetAddrInfo(host, serv, hints) => GetAddrInfo(NotEmpty(Cut(host)), NotEmpty(Cut(serv)), hints)
    case _ => r
  }

  lemma GetWordPut(n: nat, k: nat, rest: Bytes)
    requires n < Pow256(k)
    ensures GetWord(Big(n, k) + rest, k) == Some(Got(n, rest))
  {
    BigRoundTrip(n, k);
    assert (Big(n, k) + rest)[..k] == Big(n, k) && (Big(n, k) + rest)[k..] == rest;
  }

  lemma {:induction false} CTextOf(s: Text)
    requires IsText(s)
    ensures CText(s + [0]) == s
  {
    if s != [] {
      CTextOf(s[1..]);
      assert (s + [0])[1..] == s[1..] + [0] && (s + [0])[0] == s[0];
    }
  }

  lemma GetTextPut(s: Text, min: nat, max: nat, rest: Bytes)
    requires IsText(s) && |s| + 1 < TWO64
    ensures GetText(PutText(s) + rest, min, max)
         == if min <= |s| + 1 <= max then Some(Got(Some(s), rest)) else None
  {
    hide Big, UnBig, Pow256, CText, GetWord;
    Powers();
    var t := s + [0] + rest;
    assert PutText(s) + rest == Big(|s| + 1, 8) + t;
    GetWordPut(|s| + 1, 8, t);
    assert t[..|s| + 1] == s + [0] && t[|s| + 1..] == rest;
    CTextOf(s);
  }

  /** An optional string of a length the limit allows, or none. */
  lemma GetOptionalPut(o: Option<Text>, max: nat, rest: Bytes)
    requires o.Some? ==> IsText(o.value) && |o.value| + 1 < TWO64
    ensures GetText(PutOptional(o) + rest, 0, max)
         == if o.Some? && |o.value| + 1 > max then None else Some(Got(o, rest))
  {
    hide Big, PutText, GetWord;
    if o.None? {
      GetWordPut(0, 8, rest);
    } else {
      GetTextPut(o.value, 0, max, rest);
    }
  }

  lemma {:induction false} GetTextsPut(ts: seq<Text>, rest: Bytes)
    requires forall i :: 0 <= i < |ts| ==> IsText(ts[i]) && |ts[i]| + 1 < TWO64
    ensures GetTexts(PutTexts(ts) + rest, |ts|) == Some(Got(ts, rest))
  {
    hide GetText, PutText;
    if ts == [] {
      assert PutTexts(ts) + rest == rest;
    } else {
      GetTextPut(ts[0], 1, TWO64, PutTexts(ts[1..]) + rest);
      GetTextsPut(ts[1..], rest);
      assert PutTexts(ts) + rest == PutText(ts[0]) + (PutTexts(ts[1..]) + rest);
      assert [ts[0]] + ts[1..] == ts;
    }
  }

  lemma OpenTunPut(mode: U32, name: Option<Text>, mtu: U32, rest: Bytes)
    requires name.Some? ==> IsText(name.value) && |name.value| + 1 < TWO64
    ensures GetOpenTun(Big(mode, 4) + (PutOptional(name) + Big(mtu, 4)) + rest)
         == if Accepted(OpenTun(mode, name, mtu)) then Some(Got(OpenTun(mode, name, mtu), rest)) else None
  {
    hide Big, UnBig, Pow256, GetWord, GetText, PutOptional;
    Powers();
    var c := Big(mtu, 4) + rest;
    var b := PutOptional(name) + c;
    assert Big(mode, 4) + (PutOptional(name) + Big(mtu, 4)) + rest == Big(mode, 4) + b;
    GetWordPut(mode, 4, b);
    GetOptionalPut(name, IFNAMSIZ, c);
    GetWordPut(mtu, 4, rest);
  }

  lemma RunScriptPut(argv: seq<Text>, env: seq<Text>, rest: Bytes)
    requires Texts(argv) && Texts(env)
    ensures GetRunScript(Big(|argv|, 4) + (PutTexts(argv) + (Big(|env|, 4) + PutTexts(env))) + rest)
         == if Accepted(RunScript(argv, env)) then Some(Got(RunScript(argv, env), rest)) else None
  {
    hide Big, UnBig, Pow256, GetWord, GetTexts, PutTexts;
    Powers();
    var c := PutTexts(env) + rest;
    var b := Big(|env|, 4) + c;
    var a := PutTexts(argv) + b;
    assert Big(|argv|, 4) + (PutTexts(argv) + (Big(|env|, 4) + PutTexts(env))) + rest == Big(|argv|, 4) + a;
    GetWordPut(|argv|, 4, a);
    GetTextsPut(argv, b);
    GetWordPut(|env|, 4, c);
    GetTextsPut(env, rest);
  }

  lemma AddrPut(host: Option<Text>, serv: Option<Text>, hints: U64, rest: Bytes)
    requires (host.Some? ==> IsText(host.value)) && (serv.Some? ==> IsText(serv.value))
    ensures GetAddr(PutOptional(Cut(host)) + (PutOptional(Cut(serv)) + Big(hints, 8)) + rest)
         == Some(Got(Normal(GetAddrInfo(host, serv, hints)), rest))
  {
    hide Big, UnBig, Pow256, GetWord, GetText, PutOptional;
    Powers();
    var b := Big(hints, 8) + rest;
    var a := PutOptional(Cut(serv)) + b;
    assert PutOptional(Cut(host)) + (PutOptional(Cut(serv)) + Big(hints, 8)) + rest == PutOptional(Cut(host)) + a;
    GetOptionalPut(Cut(host), MAXHNAMSTR, a);
    GetOptionalPut(Cut(serv), MAXHNAMSTR, b);
    GetWordPut(hints, 8, rest);
  }

  lemma CommandPut(cmd: nat, body: Bytes, rest: Bytes)
    requires cmd < 7
    ensures GetWord(Big(cmd, 4) + body + rest, 4) == Some(Got(cmd, body + rest))
  {
    Powers();
    assert Big(cmd, 4) + body + rest == Big(cmd, 4) + (body + rest);
    GetWordPut(cmd, 4, body + rest);
  }

  /** For every request and whatever follows it: the parent recovers the fields and stops exactly at
      the request's end, or exits because a limit is exceeded. */
  lemma GetPut(r: Request, rest: Bytes)
    requires IsRequest(r)
    ensures Get(Put(r) + rest) == if Accepted(r) then Some(Got(Normal(r), rest)) else None
  {
    hide Big, UnBig, Pow256, GetWord, GetText, PutText, GetOpenTun, GetRunScript, GetAddr, PutOptional, PutTexts;
    match r {
      case OpenConfig(p) =>
        CommandPut(0, PutText(p), rest);
        GetTextPut(p, 1, MAXPATHLEN, rest);
      case InitScript(p) =>
        CommandPut(1, PutText(p), rest);
        GetTextPut(p, 1, MAXPATHLEN, rest);
      case OpenTun(mode, name, mtu) =>
        CommandPut(2, Big(mode, 4) + (PutOptional(name) + Big(mtu, 4)), rest);
        OpenTunPut(mode, name, mtu, rest);
      case RunScript(argv, env) =>
        CommandPut(3, Big(|argv|, 4) + (PutTexts(argv) + (Big(|env|, 4) + PutTexts(env))), rest);
        RunScriptPut(argv, env, rest);
      case ReloadResolver =>
        CommandPut(4, [], rest);
        assert Big(4, 4) + [] == Big(4, 4) && [] + rest == rest;
      case GetAddrInfo(host, serv, hints) =>
        CommandPut(5, PutOptional(Cut(host)) + (PutOptional(Cut(serv)) + Big(hints, 8)), rest);
        AddrPut(host, serv, hints, rest);
      case SetRunning =>
        CommandPut(6, [], rest);
        assert Big(6, 4) + [] == Big(6, 4) && [] + rest == rest;
    }
  }

  function PutAll(rs: seq<Request>): (b: Bytes) { if rs == [] then [] else Put(rs[0]) + PutAll(rs[1..]) }

  /** All requests the parent reads before it exits or the stream ends. */
  function GetAll(s: Bytes): (rs: seq<Request>)
    decreases |s|
  {
    match Get(s)
    case None => []
    case Some(Got(r, rest)) => [r] + GetAll(rest)
  }

  function Normals(rs: seq<Request>): (ns: seq<Request>)
    ensures |ns| == |rs|
  {
    seq(|rs|, i requires 0 <= i < |rs| => Normal(rs[i]))
  }

  /** The requests before the first one that exceeds a limit. */
  ghost function Within(rs: seq<Request>): (ps: seq<Request>) {
    if rs == [] || !Accepted(rs[0]) then [] else [rs[0]] + Within(rs[1..])
  }

  /** A whole session stays aligned: the parent reads the requests the child wrote, one for one, up
      to the first that exceeds a limit, where it exits. */
  lemma {:induction false} StreamAligned(rs: seq<Request>)
    requires forall i :: 0 <= i < |rs| ==> IsRequest(rs[i])
    ensures GetAll(PutAll(rs)) == Normals(Within(rs))
  {
    hide Get, Put, Accepted, IsRequest;
    if rs == [] {
      assert Get([]).None? by { NothingToGet(); }
    } else {
      GetPut(rs[0], PutAll(rs[1..]));
      if Accepted(rs[0]) {
        StreamAligned(rs[1..]);
        assert Normals(Within(rs)) == [Normal(rs[0])] + Normals(Within(rs[1..]));
      }
    }
  }

  lemma NothingToGet()
    ensures Get([]).None?
  {
  }

  // ---- Answers ----

  const ERRMSGSIZ: nat := 8192

  datatype Address = Address(flags: U32, family: U32, socktype: U32, protocol: U32, addr: Bytes)

  /** What goes back: the device name or nothing, the complaint about a script, a script's exit
      status, the resolved addresses. File descriptors travel beside the bytes. */
  datatype Answer = Tun(name: Option<Text>) | Complaint(text: Text) | Ran(status: U32) | Resolved(list: seq<Address>)

  ghost predicate IsAnswer(a: Answer) {
    match a
    case Tun(name) => name.Some? ==> IsText(name.value) && |name.value| + 1 < TWO64
    case Complaint(t) => IsText(t) && |t| < ERRMSGSIZ
    case Ran(_) => true
    case Resolved(list) => |list| < TWO64 && forall i :: 0 <= i < |list| ==> |list[i].addr| < TWO32
  }

  function PutAddress(a: Address): (b: Bytes) {
    Big(a.flags, 4) + (Big(a.family, 4) + (Big(a.socktype, 4) + (Big(a.protocol, 4) + (Big(|a.addr|, 4) + a.addr))))
  }

  function PutAddresses(list: seq<Address>): (b: Bytes) {
    if list == [] then [] else PutAddress(list[0]) + PutAddresses(list[1..])
  }

  function PutAnswer(a: Answer): (b: Bytes) {
    match a
    case Tun(name) => PutOptional(name)
    case Complaint(t) => PutText(t)
    case Ran(status) => Big(status, 4)
    case Resolved(list) => Big(|list|, 8) + PutAddresses(list)
  }

  function GetAddress(s: Bytes): (o: Option<Got<Address>>) {
    if |s| < 20 then None
    else
      Powers();
      var len := UnBig(s[16..20]);
      if |s| < 20 + len then None
      else
        var address := Address(UnBig(s[0..4]), UnBig(s[4..8]), UnBig(s[8..12]), UnBig(s[12..16]), s[20..20 + len]);
        Some(Got(address, s[20 + len..]))
  }

  function GetAddresses(s: Bytes, n: nat): (o: Option<Got<seq<Address>>>)
    decreases n
  {
    if n == 0 then Some(Got([], s))
    else
      match GetAddress(s)
      case None => None
      case Some(Got(a, r)) =>
        match GetAddresses(r, n - 1)
        case None => None
        case Some(Got(list, q)) => Some(Got([a] + list, q))
  }

  /** The child knows which answer it waits for; None means it exits. A device name must leave room
      below IFNAMSIZ, one byte less than the parent allows in the request. */
  function GetAnswer(waiting: Answer, s: Bytes): (o: Option<Got<Answer>>) {
    match waiting
    case Tun(_) =>
      (match GetText(s, 0, IFNAMSIZ - 1)
       case None => None
       case Some(Got(name, r)) => Some(Got(Tun(name), r)))
    case Complaint(_) =>
      (match GetText(s, 1, ERRMSGSIZ)
       case None => None
       case Some(Got(t, r)) => Some(Got(Complaint(t.value), r)))
    case Ran(_) =>
      Powers();
      (match GetWord(s, 4)
       case None => None
       case Some(Got(n, r)) => Some(Got(Ran(n), r)))
    case Resolved(_) =>
      (match GetWord(s, 8)
       case None => None
       case Some(Got(n, r)) =>
         match GetAddresses(r, n)
         case None => None
         case Some(Got(list, q)) => Some(Got(Resolved(list), q)))
  }

  lemma GetAddressPut(a: Address, rest: Bytes)
    requires |a.addr| < TWO32
    ensures GetAddress(PutAddress(a) + rest) == Some(Got(a, rest))
  {
    hide Big, UnBig, Pow256;
    Powers();
    BigRoundTrip(a.flags, 4);
    BigRoundTrip(a.family, 4);
    BigRoundTrip(a.socktype, 4);
    BigRoundTrip(a.protocol, 4);
    BigRoundTrip(|a.addr|, 4);
    var s := PutAddress(a) + rest;
    assert s[0..4] == Big(a.flags, 4) && s[4..8] == Big(a.family, 4) && s[8..12] == Big(a.socktype, 4);
    assert s[12..16] == Big(a.protocol, 4) && s[16..20] == Big(|a.addr|, 4);
    assert s[20..20 + |a.addr|] == a.addr && s[20 + |a.addr|..] == rest;
  }

  lemma {:induction false} GetAddressesPut(list: seq<Address>, rest: Bytes)
    requires forall i :: 0 <= i < |list| ==> |list[i].addr| < TWO32
    ensures GetAddresses(PutAddresses(list) + rest, |list|) == Some(Got(list, rest))
  {
    hide GetAddress, PutAddress;
    if list == [] {
      assert PutAddresses(list) + rest == rest;
    } else {
      GetAddressPut(list[0], PutAddresses(list[1..]) + rest);
      GetAddressesPut(list[1..], rest);
      assert PutAddresses(list) + rest == PutAddress(list[0]) + (PutAddresses(list[1..]) + rest);
      assert [list[0]] + list[1..] == list;
    }
  }

  /** The reverse stream is aligned too: the child recovers every answer, except that it exits on a
      device name of 15 bytes or more. */
  lemma GetAnswerPut(a: Answer, rest: Bytes)
    requires IsAnswer(a)
    ensures GetAnswer(a, PutAnswer(a) + rest)
         == if a.Tun? && a.name.Some? && |a.name.value| + 1 >= IFNAMSIZ then None else Some(Got(a, rest))
  {
    hide Big, UnBig, Pow256, GetWord, GetText, PutText, PutOptional, GetAddresses, PutAddresses;
    Powers();
    match a {
      case Tun(name) =>
        GetOptionalPut(name, IFNAMSIZ - 1, rest);
      case Complaint(t) =>
        GetTextPut(t, 1, ERRMSGSIZ, rest);
      case Ran(status) =>
        GetWordPut(status, 4, rest);
      case Resolved(list) =>
        assert PutAnswer(a) + rest == Big(|list|, 8) + (PutAddresses(list) + rest);
        GetWordPut(|list|, 8, PutAddresses(list) + rest);
        GetAddressesPut(list, rest);
    }
  }

  // ---- What a child can make the parent do ----

  datatype Mode = Config | Running

  /** `configPath` and `scriptPath` are the parent's two remembered paths; the logs list the config
      files it opened, the scripts it ran, and how often it opened a tun device. */
  datatype Parent = Parent(mode: Mode, configPath: Text, scriptPath: Text,
                           files: seq<Text>, ran: seq<Text>, tuns: nat)

  const NEWBORN := Parent(Config, [], [], [], [], 0)

  /** One command; `safe` is the outcome of the permission checks on a script. None is an exit. */
  function Act(p: Parent, r: Request, safe: bool): (o: Option<Parent>) {
    match r
    case OpenConfig(path) =>
      var q := if p.mode.Config? then p.(configPath := path) else p;
      if q.configPath == [] then None
      else if q.configPath[0] == 124 then Some(q) // '|' is never opened
      else Some(q.(files := q.files + [q.configPath]))
    case OpenTun(_, _, _) => if p.mode.Config? then Some(p.(tuns := p.tuns + 1)) else None
    case InitScript(path) =>
      if p.mode.Running? then None else Some(if safe then p.(scriptPath := path) else p)
    case RunScript(_, _) => Some(if p.scriptPath == [] then p else p.(ran := p.ran + [p.scriptPath]))
    case SetRunning => if p.mode.Running? then None else Some(p.(mode := Running))
    case _ => Some(p)
  }

  /** The command loop over any bytes at all, well-formed or not. */
  function Serve(p: Parent, s: Bytes, safe: seq<bool>): (q: Parent)
    decreases |s|
  {
    match Get(s)
    case None => p
    case Some(Got(r, rest)) =>
      match Act(p, r, safe != [] && safe[0])
      case None => p
      case Some(q) => Serve(q, rest, if safe == [] then [] else safe[1..])
  }

  /** `all` extends `before` by copies of x only. */
  ghost predicate OnlyMore(before: seq<Text>, all: seq<Text>, x: Text) {
    |before| <= |all| && all[..|before|] == before && forall i :: |before| <= i < |all| ==> all[i] == x
  }

  lemma OnlyMoreTrans(a: seq<Text>, b: seq<Text>, c: seq<Text>, x: Text)
    requires OnlyMore(a, b, x) && OnlyMore(b, c, x)
    ensures OnlyMore(a, c, x)
  {
    assert c[..|a|] == c[..|b|][..|a|];
    forall i | |a| <= i < |c|
      ensures c[i] == x
    {
      if i < |b| {
        assert c[..|b|][i] == b[i];
      }
    }
  }

  /** Once running, no bytes from the child change the two paths, open another tun device, open any
      file but that one, or run any script but that one. */
  lemma {:induction false} RunningIsSealed(p: Parent, s: Bytes, safe: seq<bool>)
    requires p.mode.Running?
    ensures var q := Serve(p, s, safe);
            && q.mode.Running? && q.configPath == p.configPath && q.scriptPath == p.scriptPath && q.tuns == p.tuns
            && OnlyMore(p.files, q.files, p.configPath) && OnlyMore(p.ran, q.ran, p.scriptPath)
    decreases |s|
  {
    hide Get;
    match Get(s) {
      case None =>
      case Some(Got(r, rest)) =>
        var a := Act(p, r, safe != [] && safe[0]);
        if a.Some? {
          assert OnlyMore(p.files, a.value.files, p.configPath) && OnlyMore(p.ran, a.value.ran, p.scriptPath);
          var more := if safe == [] then [] else safe[1..];
          RunningIsSealed(a.value, rest, more);
          var q := Serve(a.value, rest, more);
          OnlyMoreTrans(p.files, a.value.files, q.files, p.configPath);
          OnlyMoreTrans(p.ran, a.value.ran, q.ran, p.scriptPath);
        }
    }
  }

  /** Some request of the stream names this script, and its permission check came out well. */
  ghost predicate Checked(s: Bytes, safe: seq<bool>, script: Text) {
    exists i :: 0 <= i < |GetAll(s)| && i < |safe| && safe[i] && GetAll(s)[i] == InitScript(script)
  }

  lemma CheckedLater(s: Bytes, safe: seq<bool>, script: Text)
    requires Get(s).Some? && safe != [] && Checked(Get(s).value.rest, safe[1..], script)
    ensures Checked(s, safe, script)
  {
    hide Get;
    var rest := Get(s).value.rest;
    var i :| 0 <= i < |GetAll(rest)| && i < |safe[1..]| && safe[1..][i] && GetAll(rest)[i] == InitScript(script);
    assert GetAll(s)[i + 1] == InitScript(script) && safe[i + 1];
  }

  lemma CheckedNow(s: Bytes, safe: seq<bool>, script: Text)
    requires Get(s).Some? && Get(s).value.value == InitScript(script) && safe != [] && safe[0]
    ensures Checked(s, safe, script)
  {
    hide Get;
    assert GetAll(s)[0] == InitScript(script);
  }

  /** Where a script that was run or is remembered comes from. */
  ghost predicate Known(p: Parent, s: Bytes, safe: seq<bool>, script: Text) {
    script == p.scriptPath || script in p.ran || Checked(s, safe, script)
  }

  lemma {:induction false} ServeKnows(p: Parent, s: Bytes, safe: seq<bool>, script: Text)
    requires [] !in p.ran
    ensures var q := Serve(p, s, safe);
            && [] !in q.ran && (script in q.ran || script == q.scriptPath ==> Known(p, s, safe, script))
    decreases |s|
  {
    hide Get, Checked;
    if Get(s).Some? {
      var Got(r, rest) := Get(s).value;
      var ok := safe != [] && safe[0];
      if Act(p, r, ok).Some? {
        var q, left := Act(p, r, ok).value, if safe == [] then [] else safe[1..];
        ServeKnows(q, rest, left, script);
        if Checked(rest, left, script) {
          assert safe != [] by { NothingChecked(rest, script); }
          CheckedLater(s, safe, script);
        } else if script == q.scriptPath != p.scriptPath {
          CheckedNow(s, safe, script);
        }
      }
    }
  }

  lemma NothingChecked(s: Bytes, script: Text)
    ensures !Checked(s, [], script)
  {
  }

  /** Over any byte stream from the start, every script the parent runs was named by a request of that
      stream whose permission check came out well. */
  lemma RunsOnlyChecked(s: Bytes, safe: seq<bool>, script: Text)
    requires script in Serve(NEWBORN, s, safe).ran
    ensures script != [] && Checked(s, safe, script)
  {
    hide Serve, Checked;
    ServeKnows(NEWBORN, s, safe, script);
  }

  // ---- The parent, told from the requests alone ----

  predicate Safe(safe: seq<bool>, i: nat) { i < |safe| && safe[i] }

  /** The parent after the first k requests; None if it has exited before. */
  function Handle(p: Parent, rs: seq<Request>, safe: seq<bool>, k: nat): (o: Option<Parent>)
    requires k <= |rs|
  {
    if k == 0 then Some(p)
    else
      match Handle(p, rs, safe, k - 1)
      case None => None
      case Some(q) => Act(q, rs[k - 1], Safe(safe, k - 1))
  }

  lemma {:induction false} HandleCons(p: Parent, q: Parent, rs: seq<Request>, safe: seq<bool>, k: nat)
    requires k < |rs| && Act(p, rs[0], Safe(safe, 0)) == Some(q)
    ensures Handle(p, rs, safe, k + 1) == Handle(q, rs[1..], if safe == [] then [] else safe[1..], k)
  {
    hide Act;
    if k == 0 {
      assert Handle(p, rs, safe, 0) == Some(p);
    } else {
      HandleCons(p, q, rs, safe, k - 1);
    }
  }

  /** The command loop over any bytes handles the requests they hold, up to its exit. */
  lemma {:induction false} ServeHandles(p: Parent, s: Bytes, safe: seq<bool>) returns (k: nat)
    ensures k <= |GetAll(s)| && Handle(p, GetAll(s), safe, k) == Some(Serve(p, s, safe))
    ensures k < |GetAll(s)| ==> Handle(p, GetAll(s), safe, k + 1) == None
    decreases |s|
  {
    hide Get, Act;
    k := 0;
    if Get(s).Some? {
      var Got(r, rest) := Get(s).value;
      var rs := GetAll(s);
      assert rs == [r] + GetAll(rest) && rs[1..] == GetAll(rest);
      assert Handle(p, rs, safe, 0) == Some(p);
      if Act(p, r, Safe(safe, 0)).Some? {
        var q, left := Act(p, r, Safe(safe, 0)).value, if safe == [] then [] else safe[1..];
        var n := ServeHandles(q, rest, left);
        HandleCons(p, q, rs, safe, n);
        if n < |GetAll(rest)| {
          HandleCons(p, q, rs, safe, n + 1);
        }
        k := n + 1;
      }
    }
  }

  ghost predicate Locked(rs: seq<Request>, k: nat)
    requires k <= |rs|
  {
    exists i :: 0 <= i < k && rs[i].SetRunning?
  }

  /** The last script named by a request whose check came out well; [] if there was none. */
  function LastScript(rs: seq<Request>, safe: seq<bool>, k: nat): (path: Text)
    requires k <= |rs|
  {
    if k == 0 then []
    else if rs[k - 1].InitScript? && Safe(safe, k - 1) then rs[k - 1].path
    else LastScript(rs, safe, k - 1)
  }

  /** One run for each request for one made while a script was set. */
  function Runs(rs: seq<Request>, safe: seq<bool>, k: nat): (ran: seq<Text>)
    requires k <= |rs|
  {
    if k == 0 then []
    else
      var script := LastScript(rs, safe, k - 1);
      Runs(rs, safe, k - 1) + (if rs[k - 1].RunScript? && script != [] then [script] else [])
  }

  function Tuns(rs: seq<Request>, k: nat): (n: nat)
    requires k <= |rs|
  {
    if k == 0 then 0 else Tuns(rs, k - 1) + (if rs[k - 1].OpenTun? then 1 else 0)
  }

  /** The last configuration file asked for before the lock. */
  ghost function LastConfig(rs: seq<Request>, k: nat): (path: Text)
    requires k <= |rs|
  {
    if k == 0 then []
    else if rs[k - 1].OpenConfig? && !Locked(rs, k - 1) then rs[k - 1].path
    else LastConfig(rs, k - 1)
  }

  /** Each request for the configuration opens that file, unless its name begins with '|'. */
  ghost function Opened(rs: seq<Request>, k: nat): (files: seq<Text>)
    requires k <= |rs|
  {
    if k == 0 then []
    else
      var path := LastConfig(rs, k);
      Opened(rs, k - 1) + (if rs[k - 1].OpenConfig? && path != [] && path[0] != 124 then [path] else [])
  }

  /** The requests on which the parent exits. */
  ghost predicate Fatal(rs: seq<Request>, k: nat)
    requires k < |rs|
  {
    || (Locked(rs, k) && (rs[k].InitScript? || rs[k].OpenTun? || rs[k].SetRunning?))
    || (rs[k].OpenConfig? && LastConfig(rs, k + 1) == [])
  }

  lemma LockedNext(rs: seq<Request>, k: nat)
    requires k < |rs|
    ensures Locked(rs, k + 1) <==> Locked(rs, k) || rs[k].SetRunning?
  {
  }

  /** What the first k requests leave behind. */
  ghost function Left(rs: seq<Request>, safe: seq<bool>, k: nat): (p: Parent)
    requires k <= |rs|
  {
    Parent(if Locked(rs, k) then Running else Config, LastConfig(rs, k), LastScript(rs, safe, k),
           Opened(rs, k), Runs(rs, safe, k), Tuns(rs, k))
  }

  lemma ActLeaves(rs: seq<Request>, safe: seq<bool>, k: nat)
    requires k < |rs|
    ensures Act(Left(rs, safe, k), rs[k], Safe(safe, k)) == if Fatal(rs, k) then None else Some(Left(rs, safe, k + 1))
  {
    hide Locked;
    LockedNext(rs, k);
    assert Opened(rs, k) + [] == Opened(rs, k) && Runs(rs, safe, k) + [] == Runs(rs, safe, k);
  }

  lemma {:induction false} HandledIs(rs: seq<Request>, safe: seq<bool>, k: nat)
    requires k <= |rs|
    ensures Handle(NEWBORN, rs, safe, k) ==
            if forall i :: 0 <= i < k ==> !Fatal(rs, i) then Some(Left(rs, safe, k)) else None
  {
    hide Left, Fatal, Act;
    if k == 0 {
      assert Left(rs, safe, 0) == NEWBORN by { NothingLeft(rs, safe); }
    } else {
      HandledIs(rs, safe, k - 1);
      ActLeaves(rs, safe, k - 1);
    }
  }

  lemma NothingLeft(rs: seq<Request>, safe: seq<bool>)
    ensures Left(rs, safe, 0) == NEWBORN
  {
  }

  /** From the start and over any bytes: the parent handles the requests in them up to the first on
      which it exits. By then it is running exactly if it was told to, has opened, run and remembered
      just what the requests say, and it exits on a script path, a tun device or a second lock once it
      is running. */
  lemma ParentIs(s: Bytes, safe: seq<bool>) returns (k: nat)
    ensures k <= |GetAll(s)| && (forall i :: 0 <= i < k ==> !Fatal(GetAll(s), i))
    ensures k < |GetAll(s)| ==> Fatal(GetAll(s), k)
    ensures Serve(NEWBORN, s, safe) == Left(GetAll(s), safe, k)
  {
    hide Serve, Fatal, Handle, Left, GetAll;
    k := ServeHandles(NEWBORN, s, safe);
    HandledIs(GetAll(s), safe, k);
    if k < |GetAll(s)| {
      HandledIs(GetAll(s), safe, k + 1);
    }
  }

  /** Between the lock and the exit nothing that was settled before it changes. */
  lemma {:induction false} LockSettles(rs: seq<Request>, safe: seq<bool>, i: nat, k: nat)
    requires i < k <= |rs| && rs[i].SetRunning? && forall n :: 0 <= n < k ==> !Fatal(rs, n)
    ensures LastScript(rs, safe, k) == LastScript(rs, safe, i)
    ensures LastConfig(rs, k) == LastConfig(rs, i) && Tuns(rs, k) == Tuns(rs, i)
    decreases k
  {
    if k > i + 1 {
      LockSettles(rs, safe, i, k - 1);
      assert Locked(rs, k - 1) && !Fatal(rs, k - 1);
    }
  }
}
