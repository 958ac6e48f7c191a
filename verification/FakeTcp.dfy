/**
  * One end of a FakeTCP connection (internal/pcap/faketcpconn.go): sequence and acknowledgement
  * numbers per client, a wrapping IPv4 Id, the handshake packets, and reading and writing.
  */
module FakeTcp {
  import opened Words
  import opened Packets
  import opened Segments

  datatype Endpoint = Endpoint(ip: IP, port: U16)

  // What stays the same; `dec` yields nothing when decryption fails.
  datatype Config = Config(local: Endpoint, remote: Endpoint, mtu: nat,
                           enc: seq<Byte> -> seq<Byte>, dec: seq<Byte> -> Option<seq<Byte>>)

  // `clientIndicator`.
  datatype Client = Client(seq_: U32, ack_: U32)

  datatype State = State(clients: map<Endpoint, Client>, id: U16, isConnected: bool, isReconnected: bool)

  datatype ReadResult = Empty | Data(contents: seq<Byte>) | Unauthorized | Undecryptable

  const NO_FLAGS := TcpHeader(0, 0, 0, 0, false, false, false, false, false, [])

  /** The headers of every frame have no options, so a frame has room for `mtu - 40` bytes. */
  ghost predicate Usable(cfg: Config) {
    40 < cfg.mtu <= 65535 && forall b :: cfg.dec(cfg.enc(b)) == Some(b)
  }

  /** CreateTCPLayer: a data segment has PSH and ACK set. */
  function CreateTCPLayer(srcPort: U16, dstPort: U16, seq_: U32, ack_: U32): TcpHeader {
    NO_FLAGS.(srcPort := srcPort, dstPort := dstPort, seq_ := seq_, ack_ := ack_, psh := true, ack := true)
  }

  function FlagTCP(t: TcpHeader, syn: bool, psh: bool, ack: bool): TcpHeader {
    t.(syn := syn, psh := psh, ack := ack)
  }

  function CreateIPv4Layer(src: IP, dst: IP, id: U16, ttl: nat): IPv4 {
    IPv4(src, dst, id, ttl, 0, 0, [])
  }

  /** CreateLayers: the headers of the next packet to `to`. */
  function Headers(cfg: Config, srcPort: U16, to: Endpoint, c: Client, id: U16, hop: nat): Segment
    requires hop > 0
  {
    Segment(CreateIPv4Layer(cfg.local.ip, to.ip, id, hop - 1),
            CreateTCPLayer(srcPort, to.port, c.seq_, c.ack_), [])
  }

  function Src(p: Segment): Endpoint {
    Endpoint(p.ip.src, p.tcp.srcPort)
  }

  function ClientOf(s: State, e: Endpoint): Client {
    if e in s.clients then s.clients[e] else Client(0, 0)
  }

  function HandshakeSYN(cfg: Config, s: State): (State, Segment) {
    var c := ClientOf(s, cfg.remote);
    var p := Headers(cfg, cfg.local.port, cfg.remote, c, s.id, 128);
    (s.(clients := s.clients[cfg.remote := c.(seq_ := Wrap32(c.seq_ + 1))], id := Wrap16(s.id + 1)),
     p.(tcp := FlagTCP(p.tcp, true, false, false)))
  }

  function HandshakeSYNACK(cfg: Config, s: State, got: Segment): (State, Segment) {
    var c := ClientOf(s, Src(got)).(ack_ := Wrap32(got.tcp.seq_ + 1));
    var p := Headers(cfg, got.tcp.dstPort, Src(got), c, s.id, 64);
    (s.(clients := s.clients[Src(got) := c.(seq_ := Wrap32(c.seq_ + 1))], id := Wrap16(s.id + 1)),
     p.(tcp := FlagTCP(p.tcp, true, false, true)))
  }

  function HandshakeACK(cfg: Config, s: State, got: Segment): (State, Segment)
    requires Src(got) in s.clients
  {
    var c := s.clients[Src(got)].(ack_ := Wrap32(got.tcp.seq_ + 1));
    var p := Headers(cfg, got.tcp.dstPort, Src(got), c, s.id, 128);
    (s.(clients := s.clients[Src(got) := c], id := Wrap16(s.id + 1)),
     p.(tcp := FlagTCP(p.tcp, false, false, true)))
  }

  function Reconnect(cfg: Config, s: State): (State, Segment) {
    HandshakeSYN(cfg, s.(isReconnected := false))
  }

  /** The acknowledgement number after `length` bytes at `seq_`: it moves forward, or anywhere when
      the end of the data wraps past 2^32. */
  function UpdateAck(ack: U32, seq_: U32, length: nat): U32 {
    var expected := Wrap32(seq_ + Wrap32(length));
    if expected > ack || U32_SIZE - 1 - seq_ < Wrap32(length) then expected else ack
  }

  /** ReadFrom, for one TCP packet that has arrived: the packets it sends and what it returns. */
  function Receive(cfg: Config, s: State, got: Segment): (State, seq<Segment>, ReadResult) {
    var (s1, sent) := if got.tcp.rst then var (s', p) := Reconnect(cfg, s); (s', [p]) else (s, []);
    if got.tcp.syn then
      if got.tcp.ack then
        var s2 := s1.(isConnected := true, isReconnected := true);
        if Src(got) !in s2.clients then (s2, sent, Unauthorized)
        else var (s3, p) := HandshakeACK(cfg, s2, got); (s3, sent + [p], Empty)
      else
        var (s3, p) := HandshakeSYNACK(cfg, s1, got); (s3, sent + [p], Empty)
    else if got.payload == [] then (s1, sent, Empty)
    else if Src(got) !in s1.clients then (s1, sent, Unauthorized)
    else
      var c := s1.clients[Src(got)];
      var c' := c.(ack_ := UpdateAck(c.ack_, got.tcp.seq_, |got.payload|));
      var contents := cfg.dec(got.payload);
      (s1.(clients := s1.clients[Src(got) := c']), sent,
       if contents.None? then Undecryptable else Data(contents.value))
  }

  /** WriteTo; the Boolean says whether the client is known. There is always a link layer. */
  function Write(cfg: Config, s: State, to: Endpoint, p: seq<Byte>): (State, seq<Segment>, bool)
    requires cfg.mtu > 40
  {
    if to !in s.clients then (s, [], false)
    else
      var c := s.clients[to];
      var h := Headers(cfg, cfg.local.port, to, c, s.id, 128);
      var contents := cfg.enc(p);
      var segments := SegmentPackets(true, h.ip, h.tcp, contents, cfg.mtu);
      (s.(clients := s.clients[to := c.(seq_ := Wrap32(c.seq_ + Wrap32(|contents|)))],
          id := Wrap16(s.id + Wrap16(|segments|))),
       segments, true)
  }

  /** Accept: a SYN from a new client makes a connection, which answers it. */
  function Accept(cfg: Config, got: Segment): (State, Segment) {
    HandshakeSYNACK(cfg, State(map[Src(got) := Client(0, 0)], 0, false, false), got)
  }

  // ------------------------------------------------------------ the handshake

  /** `p` goes from `from` to `to`, in one piece and without options. */
  predicate Goes(p: Segment, from: Endpoint, to: Endpoint) {
    && p.ip.src == from.ip && p.tcp.srcPort == from.port
    && p.ip.dst == to.ip && p.tcp.dstPort == to.port
    && p.ip.flags == 0 && p.ip.fragOffset == 0 && p.ip.options == [] && p.tcp.options == []
    && !p.tcp.rst && !p.tcp.fin
  }

  /** A packet with these flags and numbers and nothing in it; a SYN and ACK has half the hop limit. */
  predicate IsHandshake(p: Segment, from: Endpoint, to: Endpoint, syn: bool, ack: bool, seq_: U32, ack_: U32) {
    && Goes(p, from, to) && p.ip.ttl == (if syn && ack then 63 else 127)
    && p.tcp.syn == syn && p.tcp.ack == ack && !p.tcp.psh
    && p.tcp.seq_ == seq_ && p.tcp.ack_ == ack_ && p.payload == []
  }

  /** A packet that carries data. */
  predicate IsDataPacket(p: Segment, from: Endpoint, to: Endpoint, c: Client) {
    && Goes(p, from, to) && p.ip.ttl == 127
    && !p.tcp.syn && p.tcp.ack && p.tcp.psh
    && p.tcp.seq_ == c.seq_ && p.tcp.ack_ == c.ack_
  }

  /** The three-way handshake (section 3.4 of RFC 793), first or repeated, from whatever numbers the
      two ends have: SYN, SYN and ACK, ACK, each acknowledging the other's; afterwards both ends
      count one more and expect what the other will send, and the dialler is connected. */
  lemma ThreeWayHandshake(cd: Config, ca: Config, d: State, a: State, again: bool)
    requires cd.remote == ca.local && ca.remote == cd.local
    ensures var (d1, syn) := if again then Reconnect(cd, d) else HandshakeSYN(cd, d);
            var (a1, answers, r1) := Receive(ca, a, syn);
            |answers| == 1 && r1 == Empty &&
            var (d2, acks, r2) := Receive(cd, d1, answers[0]);
            |acks| == 1 && r2 == Empty &&
            var (a2, none, r3) := Receive(ca, a1, acks[0]);
            var s, t := ClientOf(d, ca.local), ClientOf(a, cd.local);
            && IsHandshake(syn, cd.local, ca.local, true, false, s.seq_, s.ack_)
            && IsHandshake(answers[0], ca.local, cd.local, true, true, t.seq_, Wrap32(s.seq_ + 1))
            && IsHandshake(acks[0], cd.local, ca.local, false, true, Wrap32(s.seq_ + 1), Wrap32(t.seq_ + 1))
            && none == [] && r3 == Empty
            && ClientOf(d2, ca.local) == Client(Wrap32(s.seq_ + 1), Wrap32(t.seq_ + 1))
            && ClientOf(a2, cd.local) == Client(Wrap32(t.seq_ + 1), Wrap32(s.seq_ + 1))
            && d2.isConnected && d2.isReconnected
  {
  }

  // ------------------------------------------------------------ what one operation does

  /** All clients but `peer` are as they were. */
  ghost predicate OthersKept(s: State, s': State, peer: Endpoint) {
    forall e | e != peer ::
      (e in s'.clients <==> e in s.clients) && (e in s.clients ==> s'.clients[e] == s.clients[e])
  }

  /** Dialling and reconnecting send a SYN with the client's numbers, and count it. */
  lemma SynEffect(cfg: Config, s: State, again: bool)
    ensures var (s', p) := if again then Reconnect(cfg, s) else HandshakeSYN(cfg, s);
            var c := ClientOf(s, cfg.remote);
            && IsHandshake(p, cfg.local, cfg.remote, true, false, c.seq_, c.ack_)
            && cfg.remote in s'.clients && s'.clients[cfg.remote] == Client(Wrap32(c.seq_ + 1), c.ack_)
            && OthersKept(s, s', cfg.remote)
            && s'.isConnected == s.isConnected && s'.isReconnected == (!again && s.isReconnected)
  {
  }

  /** A connection that is accepted answers the SYN, from the port it came to, and knows this client
      only. */
  lemma AcceptEffect(cfg: Config, got: Segment)
    ensures var (s, p) := Accept(cfg, got);
            var to := Endpoint(got.ip.src, got.tcp.srcPort);
            && IsHandshake(p, Endpoint(cfg.local.ip, got.tcp.dstPort), to, true, true, 0, Wrap32(got.tcp.seq_ + 1))
            && p.ip.id == 0 && s.id == 1 && !s.isConnected && !s.isReconnected
            && s.clients == map[to := Client(1, Wrap32(got.tcp.seq_ + 1))]
  {
  }

  /** What a write sends and leaves behind. A client that is not known gets nothing. Otherwise the
      packets go to it with its numbers, they carry the encrypted contents in order, one of them if
      they fit, and the sequence number moves past them. */
  lemma WriteEffect(cfg: Config, s: State, to: Endpoint, bytes: seq<Byte>)
    requires cfg.mtu > 40
    ensures var (s', sent, ok) := Write(cfg, s, to, bytes);
            if to !in s.clients then (s', sent, ok) == (s, [], false)
            else
              var c := s.clients[to];
              && ok
              && (forall k {:trigger sent[k].ip} | 0 <= k < |sent| ::
                    IsDataPacket(sent[k], cfg.local, to, c) && |sent[k].payload| + 40 <= cfg.mtu)
              && Carried(sent, |sent|) == cfg.enc(bytes)
              && (|sent| == 1 <==> |cfg.enc(bytes)| + 40 <= cfg.mtu)
              && to in s'.clients && s'.clients[to] == Client(Wrap32(c.seq_ + |cfg.enc(bytes)|), c.ack_)
              && OthersKept(s, s', to)
              && s'.isConnected == s.isConnected && s'.isReconnected == s.isReconnected
  {
    if to in s.clients {
      var h := Headers(cfg, cfg.local.port, to, s.clients[to], s.id, 128);
      var contents := cfg.enc(bytes);
      assert HeaderLen(h.ip) == 20 && TcpLen(h.tcp) == 20;
      WrapAdd32(|contents|, s.clients[to].seq_);
      hide SegmentPackets, Carried, Wrap32, Wrap16;
      SegmentsJoin(true, h.ip, h.tcp, contents, cfg.mtu);
      forall k | 0 <= k < |SegmentPackets(true, h.ip, h.tcp, contents, cfg.mtu)|
        ensures var p := SegmentPackets(true, h.ip, h.tcp, contents, cfg.mtu)[k];
                IsDataPacket(p, cfg.local, to, s.clients[to]) && |p.payload| + 40 <= cfg.mtu
      {
        SegmentsTile(true, h.ip, h.tcp, contents, cfg.mtu, k);
      }
    }
  }

  /** The sender of a packet is known when ReadFrom looks for it: a RST makes the remote end known. */
  predicate Recognized(cfg: Config, s: State, got: Segment) {
    Src(got) in s.clients || (got.tcp.rst && Src(got) == cfg.remote)
  }

  /** What ReadFrom returns: the contents exactly when a known client sent data that decrypts, and an
      error exactly when data or an answer to a SYN comes from an unknown one or data do not decrypt. */
  lemma ReceiveReturns(cfg: Config, s: State, got: Segment)
    ensures var r := Receive(cfg, s, got).2;
            var known, data := Recognized(cfg, s, got), !got.tcp.syn && got.payload != [];
            && (forall b :: r == Data(b) <==> data && known && cfg.dec(got.payload) == Some(b))
            && (r.Undecryptable? <==> data && known && cfg.dec(got.payload).None?)
            && (r.Unauthorized? <==> !known && (data || (got.tcp.syn && got.tcp.ack)))
  {
  }

  /** The numbers of the sender of `got` after a RST has been answered, if there is one. */
  function Numbers(cfg: Config, s: State, got: Segment): Client {
    var c := ClientOf(s, Src(got));
    if got.tcp.rst && Src(got) == cfg.remote then c.(seq_ := Wrap32(c.seq_ + 1)) else c
  }

  /** ReadFrom answers a SYN, and a SYN and ACK of a known client. */
  predicate Answers(cfg: Config, s: State, got: Segment) {
    got.tcp.syn && (got.tcp.ack ==> Recognized(cfg, s, got))
  }

  /** What ReadFrom sends: a SYN to the remote end for a RST, and then, for a SYN, with or without ACK,
      the answer; nothing else. */
  lemma ReceiveSends(cfg: Config, s: State, got: Segment)
    ensures var sent := Receive(cfg, s, got).1;
            && |sent| == (if got.tcp.rst then 1 else 0) + (if Answers(cfg, s, got) then 1 else 0)
            && (got.tcp.rst ==>
                  var c := ClientOf(s, cfg.remote);
                  IsHandshake(sent[0], cfg.local, cfg.remote, true, false, c.seq_, c.ack_))
            && (Answers(cfg, s, got) ==>
                  IsHandshake(sent[|sent| - 1], Endpoint(cfg.local.ip, got.tcp.dstPort), Src(got), !got.tcp.ack, true,
                              Numbers(cfg, s, got).seq_, Wrap32(got.tcp.seq_ + 1)))
  {
  }

  /** What ReadFrom leaves behind: the numbers of the sender, those of the remote end after a RST, and
      whether the connection is established. */
  lemma ReceiveState(cfg: Config, s: State, got: Segment)
    ensures var s', from, c := Receive(cfg, s, got).0, Src(got), Numbers(cfg, s, got);
            var data := !got.tcp.syn && got.payload != [] && Recognized(cfg, s, got);
            && (from in s'.clients <==> Recognized(cfg, s, got) || Answers(cfg, s, got))
            && (Answers(cfg, s, got) ==>
                  s'.clients[from] == Client(if got.tcp.ack then c.seq_ else Wrap32(c.seq_ + 1),
                                             Wrap32(got.tcp.seq_ + 1)))
            && (data ==> s'.clients[from] == c.(ack_ := UpdateAck(c.ack_, got.tcp.seq_, |got.payload|)))
            && (!data && !Answers(cfg, s, got) && from in s'.clients ==> s'.clients[from] == c)
            && s'.isConnected == (s.isConnected || (got.tcp.syn && got.tcp.ack))
            && s'.isReconnected == ((got.tcp.syn && got.tcp.ack) || (!got.tcp.rst && s.isReconnected))
  {
  }

  /** The other clients. */
  lemma ReceiveKeepsOthers(cfg: Config, s: State, got: Segment, e: Endpoint)
    requires e != Src(got)
    ensures var s', c := Receive(cfg, s, got).0, ClientOf(s, e);
            if got.tcp.rst && e == cfg.remote
            then e in s'.clients && s'.clients[e] == c.(seq_ := Wrap32(c.seq_ + 1))
            else (e in s'.clients <==> e in s.clients) && (e in s.clients ==> s'.clients[e] == s.clients[e])
  {
  }

  // ------------------------------------------------------------ Ids

  /** The Ids of the packets count up from `id`, wrapping at 2^16. */
  ghost predicate IdsFrom(sent: seq<Segment>, id: int) {
    forall k {:trigger sent[k].ip} | 0 <= k < |sent| :: sent[k].ip.id == Wrap16(id + k)
  }

  lemma IdsAppend(a: seq<Segment>, b: seq<Segment>, id: int)
    requires IdsFrom(a, id) && IdsFrom(b, Wrap16(id + |a|))
    ensures IdsFrom(a + b, id)
  {
    forall k | 0 <= k < |a + b| ensures (a + b)[k].ip.id == Wrap16(id + k) {
      if k < |a| {
        assert (a + b)[k].ip == a[k].ip;
      } else {
        assert (a + b)[k].ip == b[k - |a|].ip;
        WrapAdd16(id + |a|, k - |a|);
      }
    }
  }

  lemma IdsOne(p: Segment, id: U16)
    requires p.ip.id == id
    ensures IdsFrom([p], id)
  {
  }

  lemma WriteIds(cfg: Config, s: State, to: Endpoint, p: seq<Byte>)
    requires cfg.mtu > 40
    ensures var (s', sent, _) := Write(cfg, s, to, p);
            IdsFrom(sent, s.id) && s'.id == Wrap16(s.id + |sent|)
  {
    if to in s.clients {
      var h := Headers(cfg, cfg.local.port, to, s.clients[to], s.id, 128);
      var segments := SegmentPackets(true, h.ip, h.tcp, cfg.enc(p), cfg.mtu);
      forall k | 0 <= k < |segments| ensures segments[k].ip.id == Wrap16(s.id + k) {
        SegmentsTile(true, h.ip, h.tcp, cfg.enc(p), cfg.mtu, k);
      }
      hide SegmentPackets;
      WrapAdd16(|segments|, s.id);
    }
  }

  /** Each handshake packet takes one Id. */
  lemma HandshakeIds(cfg: Config, s: State, got: Segment)
    ensures var (s', p) := Reconnect(cfg, s); p.ip.id == s.id && s'.id == Wrap16(s.id + 1)
    ensures var (s', p) := HandshakeSYNACK(cfg, s, got); p.ip.id == s.id && s'.id == Wrap16(s.id + 1)
    ensures Src(got) in s.clients ==>
              var (s', p) := HandshakeACK(cfg, s, got); p.ip.id == s.id && s'.id == Wrap16(s.id + 1)
  {
  }

  /** The Ids after a RST has been answered, if there is one. */
  lemma RstIds(cfg: Config, s: State, got: Segment)
    ensures var (s1, sent) := if got.tcp.rst then var (s', p) := Reconnect(cfg, s); (s', [p]) else (s, []);
            IdsFrom(sent, s.id) && s1.id == Wrap16(s.id + |sent|)
  {
    HandshakeIds(cfg, s, got);
    hide Reconnect;
  }

  lemma ReceiveIds(cfg: Config, s: State, got: Segment)
    ensures var (s', sent, _) := Receive(cfg, s, got);
            IdsFrom(sent, s.id) && s'.id == Wrap16(s.id + |sent|)
  {
    var (s1, sent) := if got.tcp.rst then var (s', p) := Reconnect(cfg, s); (s', [p]) else (s, []);
    RstIds(cfg, s, got);
    if got.tcp.syn {
      var s2 := if got.tcp.ack then s1.(isConnected := true, isReconnected := true) else s1;
      HandshakeIds(cfg, s2, got);
      hide Reconnect, HandshakeSYNACK, HandshakeACK, IdsFrom;
      if !got.tcp.ack || Src(got) in s2.clients {
        var (s3, p) := if got.tcp.ack then HandshakeACK(cfg, s2, got) else HandshakeSYNACK(cfg, s2, got);
        OneMoreId(sent, p, s.id, s2.id, s3.id);
      }
    }
  }

  lemma OneMoreId(sent: seq<Segment>, p: Segment, id: U16, before: U16, after: U16)
    requires IdsFrom(sent, id) && before == Wrap16(id + |sent|)
    requires p.ip.id == before && after == Wrap16(before + 1)
    ensures IdsFrom(sent + [p], id) && after == Wrap16(id + |sent + [p]|)
  {
    IdsOne(p, before);
    IdsAppend(sent, [p], id);
    WrapAdd16(id + |sent|, 1);
  }

  // What can happen to a connection: dialling or reconnecting, a packet that arrives, a write.
  datatype Op = Dial | Redial | Arrive(got: Segment) | Send(to: Endpoint, bytes: seq<Byte>)

  function Do(cfg: Config, s: State, op: Op): (State, seq<Segment>)
    requires cfg.mtu > 40
  {
    match op
    case Dial => var (s', p) := HandshakeSYN(cfg, s); (s', [p])
    case Redial => var (s', p) := Reconnect(cfg, s); (s', [p])
    case Arrive(got) => var (s', sent, _) := Receive(cfg, s, got); (s', sent)
    case Send(to, bytes) => var (s', sent, _) := Write(cfg, s, to, bytes); (s', sent)
  }

  /** A run of a connection from `start`: the final state and every packet it has sent. */
  function Run(cfg: Config, start: State, ops: seq<Op>): (State, seq<Segment>)
    requires cfg.mtu > 40
  {
    if ops == [] then (start, [])
    else
      var (s, log) := Run(cfg, start, ops[..|ops| - 1]);
      var (s', sent) := Do(cfg, s, ops[|ops| - 1]);
      (s', log + sent)
  }

  lemma DoIds(cfg: Config, s: State, op: Op)
    requires cfg.mtu > 40
    ensures var (s', sent) := Do(cfg, s, op);
            IdsFrom(sent, s.id) && s'.id == Wrap16(s.id + |sent|)
  {
    match op
    case Dial =>
    case Redial =>
    case Arrive(got) => ReceiveIds(cfg, s, got);
    case Send(to, bytes) => WriteIds(cfg, s, to, bytes);
  }

  /** The packets sent have the Ids from `id` on, and the counter is at the next one. */
  ghost predicate Counted(id: U16, s: State, log: seq<Segment>) {
    IdsFrom(log, id) && s.id == Wrap16(id + |log|)
  }

  /** Over every run, with any clients, handshakes, reconnects and writes of any length, the Ids of
      the packets sent count up from that of the start, modulo 2^16. */
  lemma {:induction false} IdsCountUp(cfg: Config, start: State, ops: seq<Op>)
    requires cfg.mtu > 40
    ensures var (s, log) := Run(cfg, start, ops); Counted(start.id, s, log)
  {
    if ops == [] {
      NoneCounted(start);
    } else {
      var init, op := ops[..|ops| - 1], ops[|ops| - 1];
      hide Do, Counted;
      IdsCountUp(cfg, start, init);
      var (s, log) := Run(cfg, start, init);
      MoreCounted(cfg, start.id, s, log, op);
    }
  }

  lemma NoneCounted(s: State)
    ensures Counted(s.id, s, [])
  {
  }

  lemma MoreCounted(cfg: Config, id: U16, s: State, log: seq<Segment>, op: Op)
    requires cfg.mtu > 40 && Counted(id, s, log)
    ensures var (s', sent) := Do(cfg, s, op); Counted(id, s', log + sent)
  {
    DoIds(cfg, s, op);
    var (s', sent) := Do(cfg, s, op);
    hide Do, IdsFrom, Wrap16;
    IdsAppend(log, sent, id);
    WrapAdd16(id + |log|, |sent|);
  }

  /** Any 2^16 consecutive packets have different Ids. */
  lemma IdsDistinct(cfg: Config, start: State, ops: seq<Op>, i: nat, j: nat)
    requires cfg.mtu > 40
    requires var log := Run(cfg, start, ops).1; i < j < |log| && j - i < U16_SIZE
    ensures var log := Run(cfg, start, ops).1; log[i].ip.id != log[j].ip.id
  {
    hide Run, Counted;
    IdsCountUp(cfg, start, ops);
    CountedDiffer(start.id, Run(cfg, start, ops).0, Run(cfg, start, ops).1, i, j);
  }

  lemma CountedDiffer(id: U16, s: State, log: seq<Segment>, i: nat, j: nat)
    requires Counted(id, s, log) && i < j < |log| && j - i < U16_SIZE
    ensures log[i].ip.id != log[j].ip.id
  {
    assert log[i].ip.id == Wrap16(id + i) && log[j].ip.id == Wrap16(id + j);
    hide Wrap16;
    Wrap16Differs(id + i, id + j);
  }

  lemma Wrap16Differs(x: int, y: int)
    requires 0 < y - x < U16_SIZE
    ensures Wrap16(x) != Wrap16(y)
  {
  }

  // ------------------------------------------------------------ acknowledgement under disorder

  /** `got` is data from `from`, as WriteTo sends it. */
  predicate IsData(got: Segment, from: Endpoint) {
    Src(got) == from && !got.tcp.syn && !got.tcp.rst && 0 < |got.payload| < U32_SIZE
  }

  ghost predicate AllData(arrived: seq<Segment>, from: Endpoint) {
    forall k | 0 <= k < |arrived| :: IsData(arrived[k], from)
  }

  /** The end of the data of a packet, on the number line. */
  function End(got: Segment): int {
    got.tcp.seq_ + |got.payload|
  }

  ghost function MaxEnd(ack: int, arrived: seq<Segment>): int {
    if arrived == [] then ack else Max(MaxEnd(ack, arrived[..|arrived| - 1]), End(arrived[|arrived| - 1]))
  }

  ghost function ReceiveAll(cfg: Config, s: State, arrived: seq<Segment>): State {
    if arrived == [] then s
    else Receive(cfg, ReceiveAll(cfg, s, arrived[..|arrived| - 1]), arrived[|arrived| - 1]).0
  }

  lemma DataUpdates(cfg: Config, s: State, got: Segment, from: Endpoint)
    requires IsData(got, from) && from in s.clients
    ensures var s' := Receive(cfg, s, got).0;
            && from in s'.clients
            && s'.clients[from].ack_ == UpdateAck(s.clients[from].ack_, got.tcp.seq_, |got.payload|)
            && s'.clients[from].seq_ == s.clients[from].seq_
  {
  }

  lemma UpdateIsMax(ack: U32, seq_: U32, length: nat)
    requires 0 < length < U32_SIZE
    ensures seq_ + length < U32_SIZE ==> UpdateAck(ack, seq_, length) == Max(ack, seq_ + length)
    ensures seq_ + length >= U32_SIZE ==> UpdateAck(ack, seq_, length) == seq_ + length - U32_SIZE
  {
  }

  /** In order, every packet with data moves the acknowledgement number past it, wrapping or not. */
  lemma InOrderAck(ack: U32, length: nat)
    requires 0 < length < U32_SIZE
    ensures UpdateAck(ack, ack, length) == Wrap32(ack + length)
  {
  }

  ghost predicate NoneWraps(arrived: seq<Segment>) {
    forall k | 0 <= k < |arrived| :: End(arrived[k]) < U32_SIZE
  }

  /** After any reordering, loss or duplication of data packets the acknowledgement number is the
      maximum of its first value and the ends of all that arrived, exactly when none of these ends
      reaches 2^32. */
  lemma {:induction false} AckIsMaximumIff(cfg: Config, s: State, arrived: seq<Segment>, from: Endpoint)
    requires from in s.clients && AllData(arrived, from)
    ensures from in ReceiveAll(cfg, s, arrived).clients
    ensures ReceiveAll(cfg, s, arrived).clients[from].ack_ == MaxEnd(s.clients[from].ack_, arrived)
            <==> NoneWraps(arrived)
    ensures NoneWraps(arrived) <==> MaxEnd(s.clients[from].ack_, arrived) < U32_SIZE
  {
    if arrived != [] {
      var init, got := arrived[..|arrived| - 1], arrived[|arrived| - 1];
      AckIsMaximumIff(cfg, s, init, from);
      var s1 := ReceiveAll(cfg, s, init);
      assert IsData(got, from);
      DataUpdates(cfg, s1, got, from);
      UpdateIsMax(s1.clients[from].ack_, got.tcp.seq_, |got.payload|);
      assert arrived == init + [got];
      assert NoneWraps(arrived) <==> NoneWraps(init) && End(got) < U32_SIZE by {
        if NoneWraps(init) && End(got) < U32_SIZE {
          forall k | 0 <= k < |arrived| ensures End(arrived[k]) < U32_SIZE {
            assert k < |init| ==> arrived[k] == init[k];
          }
        }
        if NoneWraps(arrived) {
          forall k | 0 <= k < |init| ensures End(init[k]) < U32_SIZE {
            assert arrived[k] == init[k];
          }
        }
      }
    }
  }
}
