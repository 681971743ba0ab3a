/** The packet format of src/pkt.h and its writer and reader in src/mlvpn.c. */
module Wire {
  import opened Words
  import T = Timing

  type Bytes = seq<Byte>

  const HEADER: nat := 28     // sizeof(mlvpn_proto_t) less its data
  const DATA_MAX: nat := 1500 // DEFAULT_MTU, the data array of both structures
  const PAD: nat := 16        // crypto_secretbox_MACBYTES
  const VERSION: nat := 1

  const PKT_DATA: nat := 3

  /** The tun device is read with at most this many bytes (tuntap.maxmtu). */
  const TUN_MAX: nat := 1500 - HEADER - 28

  // ---- Big-endian numbers ----

  function Pow256(k: nat): (n: nat)
    ensures n > 0
  {
    if k == 0 then 1 else 256 * Pow256(k - 1)
  }

  function Big(n: nat, k: nat): (b: Bytes)
    ensures |b| == k
  {
    if k == 0 then [] else Big(n / 256, k - 1) + [n % 256]
  }

  function UnBig(b: Bytes): (n: nat)
    ensures n < Pow256(|b|)
  {
    if b == [] then 0 else UnBig(b[..|b| - 1]) * 256 + b[|b| - 1]
  }

  lemma {:induction false} BigRoundTrip(n: nat, k: nat)
    requires n < Pow256(k)
    ensures UnBig(Big(n, k)) == n
  {
    if k > 0 {
      BigRoundTrip(n / 256, k - 1);
      assert Big(n, k)[..k - 1] == Big(n / 256, k - 1);
    }
  }

  lemma Powers()
    ensures Pow256(2) == 65536 && Pow256(4) == TWO32 && Pow256(8) == TWO64
  {
    assert Pow256(1) == 256;
    assert Pow256(3) == 256 * Pow256(2);
    assert Pow256(5) == 256 * Pow256(4);
    assert Pow256(6) == 256 * Pow256(5);
    assert Pow256(7) == 256 * Pow256(6);
  }

  // ---- Header ----

  datatype Header = Header(len: T.U16, version: nat, flags: nat, reorder: bool,
                           stamp: T.U16, reply: T.U16, flow: U32, seqn: U64, dataSeq: U64)
  {
    predicate Fits() { version < 16 && flags < 64 }
  }

  /** The bit fields are not byte-swapped: version and the low flag bits come first. */
  function Write(h: Header): (b: Bytes)
    requires h.Fits()
    ensures |b| == HEADER
  {
    Big(h.len, 2) + [h.version + h.flags % 16 * 16, h.flags / 16 + (if h.reorder then 4 else 0)]
    + Big(h.stamp, 2) + Big(h.reply, 2) + Big(h.flow, 4) + Big(h.seqn, 8) + Big(h.dataSeq, 8)
  }

  function Parse(b: Bytes): (h: Header)
    requires |b| >= HEADER
    ensures h.Fits()
  {
    Powers();
    Header(UnBig(b[0..2]), b[2] % 16, b[2] / 16 + b[3] % 4 * 16, b[3] / 4 % 2 == 1,
           UnBig(b[4..6]), UnBig(b[6..8]), UnBig(b[8..12]), UnBig(b[12..20]), UnBig(b[20..28]))
  }

  lemma HeaderRoundTrip(h: Header, data: Bytes)
    requires h.Fits()
    ensures Parse(Write(h) + data) == h
  {
    hide Big, UnBig, Pow256;
    Powers();
    BigRoundTrip(h.len, 2);
    BigRoundTrip(h.stamp, 2);
    BigRoundTrip(h.reply, 2);
    BigRoundTrip(h.flow, 4);
    BigRoundTrip(h.seqn, 8);
    BigRoundTrip(h.dataSeq, 8);
    var b := Write(h) + data;
    assert b[0..2] == Big(h.len, 2) && b[4..6] == Big(h.stamp, 2) && b[6..8] == Big(h.reply, 2);
    assert b[8..12] == Big(h.flow, 4) && b[12..20] == Big(h.seqn, 8) && b[20..28] == Big(h.dataSeq, 8);
    FlagsRoundTrip(h.flags);
  }

  lemma FlagsRoundTrip(flags: nat)
    requires flags < 64
    ensures flags % 16 + flags / 16 * 16 == flags && flags / 16 < 4
  {
  }

  // ---- Sealing ----

  /** The nonce is the sequence number and the flow, then zeros. */
  datatype Nonce = Nonce(seqn: U64, flow: U32)

  /** An authenticated cipher that adds 16 bytes and opens what it sealed under the same nonce. */
  datatype Cipher = Cipher(seal: (Bytes, Nonce) -> Bytes, open: (Bytes, Nonce) -> Option<Bytes>)
  {
    ghost predicate Works() {
      forall m: Bytes, n: Nonce :: |seal(m, n)| == |m| + PAD && open(seal(m, n), n) == Some(m)
    }
  }

  // ---- Sending ----

  /** What a tunnel keeps for sending; the data sequence is shared by all tunnels. */
  datatype Sender = Sender(seqn: U64, dataSeq: U64, flow: U32, cleartext: bool)

  datatype Packet = Packet(kind: nat, data: Bytes)
  {
    /** A slot of the send queue: one of the five types, at most 1500 bytes. */
    predicate Valid() { kind < 5 && |data| <= DATA_MAX }
  }

  predicate Clear(cleartext: bool, kind: nat) { cleartext && kind == PKT_DATA }

  function HeaderOf(s: Sender, p: Packet, len: T.U16, stamp: T.U16, reply: T.U16): (h: Header)
    requires p.kind < 5
    ensures h.Fits()
  {
    Header(len, VERSION, p.kind, true, stamp, reply, s.flow, s.seqn, if p.kind == PKT_DATA then s.dataSeq else 0)
  }

  /** The counters move even when the packet turns out too long to seal. */
  function Sent(s: Sender, p: Packet): (t: Sender) {
    s.(seqn := Add64(s.seqn, 1), dataSeq := if p.kind == PKT_DATA then Add64(s.dataSeq, 1) else s.dataSeq)
  }

  function Send(s: Sender, p: Packet, stamp: T.U16, reply: T.U16, c: Cipher): (o: Option<Bytes>)
    requires p.Valid()
  {
    if Clear(s.cleartext, p.kind) then
      Some(Write(HeaderOf(s, p, |p.data|, stamp, reply)) + p.data)
    else if HEADER + |p.data| + PAD > DATA_MAX then None
    else
      Some(Write(HeaderOf(s, p, |p.data| + PAD, stamp, reply)) + c.seal(p.data, Nonce(s.seqn, s.flow)))
  }

  // ---- Receiving ----

  datatype Received = Received(data: Bytes, kind: nat, reorder: bool, dataSeq: U64,
                               nonce: Nonce, stamp: T.U16, reply: T.U16)

  /** A datagram is cut to the 1500 bytes of the receive buffer. */
  function Datagram(b: Bytes): (d: Bytes)
    ensures |d| <= DATA_MAX
  {
    if |b| <= DATA_MAX then b else b[..DATA_MAX]
  }

  /** The data area after copying: what arrived, then zeros. */
  function Area(b: Bytes): (a: Bytes)
    requires HEADER <= |b| <= DATA_MAX
    ensures |a| == DATA_MAX
  {
    seq(DATA_MAX, i requires 0 <= i < DATA_MAX => if HEADER + i < |b| then b[HEADER + i] else 0)
  }

  function Read(b: Bytes, cleartext: bool, c: Cipher): (o: Option<Received>)
    requires |b| <= DATA_MAX
  {
    if |b| < HEADER then None
    else
      var h := Parse(b);
      if h.len == 0 || h.len > DATA_MAX then None
      else
        var body, nonce := Area(b)[..h.len], Nonce(h.seqn, h.flow);
        var plain := if Clear(cleartext, h.flags) then Some(body) else c.open(body, nonce);
        match plain
        case None => None
        case Some(data) =>
          if h.version >= 1 then Some(Received(data, h.flags, h.reorder, h.dataSeq, nonce, h.stamp, h.reply))
          else Some(Received(data, h.flags, false, 0, nonce, h.stamp, h.reply))
  }

  // ---- Round trip ----

  lemma AreaOf(header: Bytes, body: Bytes)
    requires |header| == HEADER && HEADER + |body| <= DATA_MAX
    ensures Area(header + body)[..|body|] == body
  {
  }

  /** What the receiver should get. */
  function Intended(s: Sender, p: Packet, stamp: T.U16, reply: T.U16): (r: Received) {
    Received(p.data, p.kind, true, if p.kind == PKT_DATA then s.dataSeq else 0, Nonce(s.seqn, s.flow), stamp, reply)
  }

  /** A payload that both length checks and the receive buffer let through: an encrypted one of at
      most 1456 bytes; a cleartext one that is not empty and has nothing but zeros past byte 1472. */
  predicate Carried(s: Sender, p: Packet)
    requires p.Valid()
  {
    if Clear(s.cleartext, p.kind)
    then p.data != [] && forall i :: DATA_MAX - HEADER <= i < |p.data| ==> p.data[i] == 0
    else HEADER + |p.data| + PAD <= DATA_MAX
  }

  lemma SealedRoundTrip(s: Sender, p: Packet, stamp: T.U16, reply: T.U16, c: Cipher)
    requires c.Works() && p.Valid() && !Clear(s.cleartext, p.kind) && HEADER + |p.data| + PAD <= DATA_MAX
    ensures var b := Send(s, p, stamp, reply, c).value;
            Datagram(b) == b && Read(b, s.cleartext, c) == Some(Intended(s, p, stamp, reply))
  {
    hide Write, Parse, Area;
    var n := Nonce(s.seqn, s.flow);
    var h, body := HeaderOf(s, p, |p.data| + PAD, stamp, reply), c.seal(p.data, n);
    assert |body| == |p.data| + PAD && c.open(body, n) == Some(p.data);
    HeaderRoundTrip(h, body);
    AreaOf(Write(h), body);
  }

  lemma ClearRead(s: Sender, p: Packet, stamp: T.U16, reply: T.U16, c: Cipher)
    requires p.Valid() && Clear(s.cleartext, p.kind) && p.data != []
    ensures var b := Datagram(Send(s, p, stamp, reply, c).value);
            && Read(b, s.cleartext, c).Some?
            && Read(b, s.cleartext, c).value
               == Intended(s, p, stamp, reply).(data := Read(b, s.cleartext, c).value.data)
            && |Read(b, s.cleartext, c).value.data| == |p.data|
            && forall i :: 0 <= i < |p.data| ==>
                 Read(b, s.cleartext, c).value.data[i] == if i < DATA_MAX - HEADER then p.data[i] else 0
  {
    hide Write, Parse;
    var h := HeaderOf(s, p, |p.data|, stamp, reply);
    var all := Write(h) + p.data;
    var kept := if |p.data| <= DATA_MAX - HEADER then p.data else p.data[..DATA_MAX - HEADER];
    assert Datagram(all) == Write(h) + kept;
    HeaderRoundTrip(h, kept);
  }

  /** What the reader makes of a sent packet is what was meant, nonce and data sequence included,
      exactly for the payloads that are carried. */
  lemma RoundTripIff(s: Sender, p: Packet, stamp: T.U16, reply: T.U16, c: Cipher)
    requires c.Works() && p.Valid()
    ensures Carried(s, p) <==>
            && Send(s, p, stamp, reply, c).Some?
            && Read(Datagram(Send(s, p, stamp, reply, c).value), s.cleartext, c) == Some(Intended(s, p, stamp, reply))
  {
    if !Clear(s.cleartext, p.kind) {
      if HEADER + |p.data| + PAD <= DATA_MAX {
        SealedRoundTrip(s, p, stamp, reply, c);
      }
    } else if p.data == [] {
      HeaderRoundTrip(HeaderOf(s, p, 0, stamp, reply), []);
    } else {
      hide Read, Send, Datagram;
      ClearRead(s, p, stamp, reply, c);
      var got := Read(Datagram(Send(s, p, stamp, reply, c).value), s.cleartext, c).value;
      if Carried(s, p) {
        assert got.data == p.data;
      }
    }
  }

  /** In particular everything MLVPN sends: control packets of at most two bytes, and non-empty
      payloads up to the tun limit. */
  lemma TrafficRoundTrips(s: Sender, p: Packet, stamp: T.U16, reply: T.U16, c: Cipher)
    requires c.Works() && p.kind < 5
    requires if p.kind == PKT_DATA then 1 <= |p.data| <= TUN_MAX else |p.data| <= 2
    ensures Send(s, p, stamp, reply, c).Some?
    ensures Read(Datagram(Send(s, p, stamp, reply, c).value), s.cleartext, c) == Some(Intended(s, p, stamp, reply))
  {
    RoundTripIff(s, p, stamp, reply, c);
  }

  /** A datagram is accepted if and only if it has a whole header, a length from 1 to 1500, and opens
      under the nonce in its header unless it is cleartext data; version 0 is never reorderable. */
  lemma ReadIff(h: Header, body: Bytes, cleartext: bool, c: Cipher)
    requires h.Fits() && HEADER + |body| <= DATA_MAX
    ensures var padded := body + seq(DATA_MAX - |body|, _ => 0);
            var o := Read(Write(h) + body, cleartext, c);
            && (o.Some? <==> 0 < h.len <= DATA_MAX &&
                             (Clear(cleartext, h.flags) || c.open(padded[..h.len], Nonce(h.seqn, h.flow)).Some?))
            && (o.Some? ==> && o.value.kind == h.flags && o.value.reorder == (h.reorder && h.version >= 1)
                            && o.value.dataSeq == (if h.version >= 1 then h.dataSeq else 0)
                            && o.value.stamp == h.stamp && o.value.reply == h.reply
                            && o.value.data == if Clear(cleartext, h.flags) then padded[..h.len]
                                               else c.open(padded[..h.len], Nonce(h.seqn, h.flow)).value)
  {
    hide Write, Parse;
    var b := Write(h) + body;
    HeaderRoundTrip(h, body);
    var padded := body + seq(DATA_MAX - |body|, _ => 0);
    assert Area(b) == padded;
  }

  lemma ShortRejected(b: Bytes, cleartext: bool, c: Cipher)
    requires |b| < HEADER
    ensures Read(b, cleartext, c) == None
  {
  }

  // ---- Nonces ----

  function Nonces(s: Sender, ps: seq<Packet>): (ns: seq<Nonce>)
    ensures |ns| == |ps|
    decreases |ps|
  {
    if ps == [] then [] else [Nonce(s.seqn, s.flow)] + Nonces(Sent(s, ps[0]), ps[1..])
  }

  lemma {:induction false} NonceAt(s: Sender, ps: seq<Packet>, k: nat)
    requires k < |ps|
    ensures Nonces(s, ps)[k] == Nonce(Add64(s.seqn, k), s.flow)
    decreases k
  {
    AddAdd64(s.seqn, 0, 0);
    if k > 0 {
      NonceAt(Sent(s, ps[0]), ps[1..], k - 1);
      AddAdd64(s.seqn, 1, k - 1);
    }
  }

  /** A tunnel's counter is never set back, so among its first 2^64 packets no nonce repeats,
      however often it reconnects. */
  lemma NoncesDistinct(s: Sender, ps: seq<Packet>, i: nat, j: nat)
    requires |ps| <= TWO64 && i < j < |ps|
    ensures Nonces(s, ps)[i] != Nonces(s, ps)[j]
  {
    hide Nonces, Add64;
    NonceAt(s, ps, i);
    NonceAt(s, ps, j);
    AdvanceDistance(s.seqn, i);
    AdvanceDistance(s.seqn, j);
  }

  // ---- All tunnels together ----

  /** A packet handed to a tunnel, with the stamps it is sent with. */
  datatype Post = Post(tunnel: nat, packet: Packet, stamp: T.U16, reply: T.U16)

  /** The data sequence all tunnels share, and each tunnel's own counter and flow. */
  datatype Office = Office(dataSeq: U64, seqns: seq<U64>, flows: seq<U32>, cleartext: bool)
  {
    predicate Takes(p: Post) { p.tunnel < |seqns| == |flows| && p.packet.Valid() }
  }

  function SenderOf(o: Office, i: nat): (s: Sender)
    requires i < |o.seqns| == |o.flows|
  {
    Sender(o.seqns[i], o.dataSeq, o.flows[i], o.cleartext)
  }

  function PostOne(o: Office, p: Post): (q: Office)
    requires o.Takes(p)
  {
    var s := Sent(SenderOf(o, p.tunnel), p.packet);
    o.(dataSeq := s.dataSeq, seqns := o.seqns[p.tunnel := s.seqn])
  }

  ghost predicate TakesAll(o: Office, ps: seq<Post>) { forall i :: 0 <= i < |ps| ==> o.Takes(ps[i]) }

  /** After the first k packets, in the order they were sent over whichever tunnel. */
  function PostAll(o: Office, ps: seq<Post>, k: nat): (q: Office)
    requires TakesAll(o, ps) && k <= |ps|
    ensures |q.seqns| == |o.seqns| && q.flows == o.flows && q.cleartext == o.cleartext
  {
    if k == 0 then o else PostOne(PostAll(o, ps, k - 1), ps[k - 1])
  }

  /** How many of the first k packets are data, and how many go over tunnel i. */
  function DataBefore(ps: seq<Post>, k: nat): (n: nat)
    requires k <= |ps|
  {
    if k == 0 then 0 else DataBefore(ps, k - 1) + (if ps[k - 1].packet.kind == PKT_DATA then 1 else 0)
  }

  function OverBefore(ps: seq<Post>, i: nat, k: nat): (n: nat)
    requires k <= |ps|
  {
    if k == 0 then 0 else OverBefore(ps, i, k - 1) + (if ps[k - 1].tunnel == i then 1 else 0)
  }

  lemma {:induction false} CountersAre(o: Office, ps: seq<Post>, k: nat, i: nat)
    requires TakesAll(o, ps) && k <= |ps| && i < |o.seqns| == |o.flows|
    ensures PostAll(o, ps, k).dataSeq == Add64(o.dataSeq, DataBefore(ps, k))
    ensures PostAll(o, ps, k).seqns[i] == Add64(o.seqns[i], OverBefore(ps, i, k))
  {
    hide Add64;
    AddAdd64(o.dataSeq, 0, 0);
    AddAdd64(o.seqns[i], 0, 0);
    if k > 0 {
      CountersAre(o, ps, k - 1, i);
      CountersAre(o, ps, k - 1, ps[k - 1].tunnel);
      AddAdd64(o.dataSeq, DataBefore(ps, k - 1), 1);
      AddAdd64(o.seqns[i], OverBefore(ps, i, k - 1), 1);
    }
  }

  /** Over any interleaving of packets on any tunnels: what is read from the k-th packet, if it is
      carried, is its payload with the number of data packets before it as its data sequence, none for
      control packets, and the number of packets before it on its own tunnel in its nonce. */
  lemma NumberedInOrder(o: Office, ps: seq<Post>, k: nat, c: Cipher)
    requires c.Works() && TakesAll(o, ps) && k < |ps|
    ensures var p := ps[k];
            var s := SenderOf(PostAll(o, ps, k), p.tunnel);
            Carried(s, p.packet) ==>
              && Send(s, p.packet, p.stamp, p.reply, c).Some?
              && Read(Datagram(Send(s, p.packet, p.stamp, p.reply, c).value), o.cleartext, c)
                 == Some(Received(p.packet.data, p.packet.kind, true,
                                  if p.packet.kind == PKT_DATA then Add64(o.dataSeq, DataBefore(ps, k)) else 0,
                                  Nonce(Add64(o.seqns[p.tunnel], OverBefore(ps, p.tunnel, k)), o.flows[p.tunnel]),
                                  p.stamp, p.reply))
  {
    hide Send, Read, Datagram, Carried, Add64;
    var p := ps[k];
    CountersAre(o, ps, k, p.tunnel);
    RoundTripIff(SenderOf(PostAll(o, ps, k), p.tunnel), p.packet, p.stamp, p.reply, c);
  }
}
