/**
  * The connection object (internal/pcap/faketcpconn.go), with the fields its methods change, proved
  * against the functions on values; and what a write of several packets does to the acknowledgement.
  */
module FakeTcpConn {
  import opened Words
  import opened Packets
  import opened Segments
  import opened FakeTcp

  // ------------------------------------------------------------ several packets

  /** While all the data that arrives starts at `q` and is shorter than `total`, the acknowledgement
      number stays less than `total` past `q`. */
  lemma {:induction false} AckStaysBehind(cfg: Config, s: State, arrived: seq<Segment>, from: Endpoint, q: U32,
                                          total: nat)
    returns (o: nat)
    requires from in s.clients && s.clients[from].ack_ == q && AllData(arrived, from) && 0 < total < U32_SIZE
    requires forall k | 0 <= k < |arrived| :: arrived[k].tcp.seq_ == q && |arrived[k].payload| < total
    ensures o < total && from in ReceiveAll(cfg, s, arrived).clients
    ensures ReceiveAll(cfg, s, arrived).clients[from].ack_ == Wrap32(q + o)
  {
    if arrived == [] {
      o := 0;
    } else {
      var init, got := arrived[..|arrived| - 1], arrived[|arrived| - 1];
      var o' := AckStaysBehind(cfg, s, init, from, q, total);
      var s1 := ReceiveAll(cfg, s, init);
      assert IsData(got, from);
      DataUpdates(cfg, s1, got, from);
      hide Receive;
      o := UpdateStaysBehind(s1.clients[from].ack_, q, o', |got.payload|, total);
    }
  }

  lemma UpdateStaysBehind(ack: U32, q: U32, o: nat, length: nat, total: nat) returns (o': nat)
    requires ack == Wrap32(q + o) && o < total < U32_SIZE && 0 < length < total
    ensures o' < total && UpdateAck(ack, q, length) == Wrap32(q + o')
  {
    SmallMod(length);
    o' := if UpdateAck(ack, q, length) == ack then o else length;
  }

  lemma SmallMod(x: nat)
    requires x < U32_SIZE
    ensures Wrap32(x) == x
  {
  }

  lemma Wrap32Differs(x: int, y: int)
    requires 0 < y - x < U32_SIZE
    ensures Wrap32(x) != Wrap32(y)
  {
  }

  /** The segments of a write are data that starts at the sequence number of the write. */
  lemma SegmentsOfWrite(cfg: Config, s: State, to: Endpoint, bytes: seq<Byte>, from: Endpoint)
    requires Usable(cfg) && to in s.clients && cfg.enc(bytes) != [] && |cfg.enc(bytes)| < U32_SIZE
    requires from == cfg.local
    ensures var sent := Write(cfg, s, to, bytes).1;
            && AllData(sent, from)
            && (forall k | 0 <= k < |sent| :: sent[k].tcp.seq_ == s.clients[to].seq_)
            && (|cfg.enc(bytes)| + 40 > cfg.mtu ==> forall k | 0 <= k < |sent| :: |sent[k].payload| < |cfg.enc(bytes)|)
            && (|cfg.enc(bytes)| + 40 <= cfg.mtu ==> |sent| == 1 && sent[0].payload == cfg.enc(bytes))
  {
    var h := Headers(cfg, cfg.local.port, to, s.clients[to], s.id, 128);
    var contents := cfg.enc(bytes);
    assert HeaderLen(h.ip) == 20 && TcpLen(h.tcp) == 20;
    forall k | 0 <= k < |SegmentPackets(true, h.ip, h.tcp, contents, cfg.mtu)|
      ensures var p := SegmentPackets(true, h.ip, h.tcp, contents, cfg.mtu)[k];
              && IsData(p, from) && p.tcp.seq_ == s.clients[to].seq_
              && (|contents| + 40 > cfg.mtu ==> |p.payload| < |contents|)
    {
      SegmentsTile(true, h.ip, h.tcp, contents, cfg.mtu, k);
      SegmentsNotEmpty(true, h.ip, h.tcp, contents, cfg.mtu, k);
    }
  }

  /** The write of one packet, seen from the other end. */
  lemma OneArrives(ct: Config, r: State, p: Segment, from: Endpoint)
    requires from in r.clients && IsData(p, from) && p.tcp.seq_ == r.clients[from].ack_
    ensures from in ReceiveAll(ct, r, [p]).clients
    ensures ReceiveAll(ct, r, [p]).clients[from].ack_ == Wrap32(p.tcp.seq_ + |p.payload|)
  {
    DataUpdates(ct, r, p, from);
    assert [p][..0] == [];
    assert ReceiveAll(ct, r, []) == r;
    InOrderAck(r.clients[from].ack_, |p.payload|);
    hide Receive;
  }

  /** Exactly when a write keeps the two ends in agreement: starting from an acknowledgement number
      equal to the writer's sequence number, after all the packets of a non-empty write have arrived
      in order they are equal again if and only if the contents fit one packet. (All the segments of
      a larger write carry the sequence number of the first.) */
  lemma AgreementAfterWriteIff(cf: Config, s: State, ct: Config, r: State, bytes: seq<Byte>)
    requires Usable(cf) && cf.remote in s.clients && cf.local in r.clients
    requires r.clients[cf.local].ack_ == s.clients[cf.remote].seq_
    requires cf.enc(bytes) != [] && |cf.enc(bytes)| < U32_SIZE
    ensures var (s', sent, _) := Write(cf, s, cf.remote, bytes);
            var r' := ReceiveAll(ct, r, sent);
            && cf.remote in s'.clients && cf.local in r'.clients
            && (r'.clients[cf.local].ack_ == s'.clients[cf.remote].seq_ <==> |cf.enc(bytes)| + 40 <= cf.mtu)
  {
    var total, q := |cf.enc(bytes)|, s.clients[cf.remote].seq_;
    var (s', sent, _) := Write(cf, s, cf.remote, bytes);
    SmallMod(total);
    assert s'.clients[cf.remote].seq_ == Wrap32(q + total);
    SegmentsOfWrite(cf, s, cf.remote, bytes, cf.local);
    hide Write, Usable, Receive;
    if total + 40 <= cf.mtu {
      assert sent == [sent[0]];
      OneArrives(ct, r, sent[0], cf.local);
    } else {
      var o := AckStaysBehind(ct, r, sent, cf.local, q, total);
      Wrap32Differs(q + o, q + total);
    }
  }

  // ------------------------------------------------------------ the object

  class FakeTCPConn {
    const cfg: Config
    var clients: map<Endpoint, Client>
    var id: U16
    var isConnected: bool
    var isReconnected: bool

    ghost function Value(): State
      reads this
    {
      State(clients, id, isConnected, isReconnected)
    }

    /** DialFakeTCP: the object, and the SYN it sends. */
    static method Dial(cfg: Config) returns (c: FakeTCPConn, sent: Segment)
      ensures fresh(c) && c.cfg == cfg
      ensures (c.Value(), sent) == HandshakeSYN(cfg, State(map[], 0, false, false))
    {
      c := new FakeTCPConn(cfg);
      sent := c.SendSYN();
    }

    /** The part of FakeTCPListener.Accept that follows the test for a duplicate. */
    static method AcceptFrom(cfg: Config, got: Segment) returns (c: FakeTCPConn, sent: Segment)
      ensures fresh(c) && c.cfg == cfg
      ensures (c.Value(), sent) == Accept(cfg, got)
    {
      c := new FakeTCPConn(cfg);
      c.clients := map[Src(got) := Client(0, 0)];
      sent := c.SendSYNACK(got);
    }

    constructor (cfg: Config)
      ensures this.cfg == cfg && Value() == State(map[], 0, false, false)
    {
      this.cfg := cfg;
      clients, id, isConnected, isReconnected := map[], 0, false, false;
    }

    method SendSYN() returns (sent: Segment)
      modifies this`clients, this`id
      ensures (Value(), sent) == HandshakeSYN(cfg, old(Value()))
    {
      if cfg.remote !in clients {
        clients := clients[cfg.remote := Client(0, 0)];
      }
      var client := clients[cfg.remote];
      sent := Headers(cfg, cfg.local.port, cfg.remote, client, id, 128);
      sent := sent.(tcp := FlagTCP(sent.tcp, true, false, false));
      clients := clients[cfg.remote := client.(seq_ := Wrap32(client.seq_ + 1))];
      assert clients == old(clients)[cfg.remote := clients[cfg.remote]];
      id := Wrap16(id + 1);
    }

    method SendSYNACK(got: Segment) returns (sent: Segment)
      modifies this`clients, this`id
      ensures (Value(), sent) == HandshakeSYNACK(cfg, old(Value()), got)
    {
      if Src(got) !in clients {
        clients := clients[Src(got) := Client(0, 0)];
      }
      var client := clients[Src(got)].(ack_ := Wrap32(got.tcp.seq_ + 1));
      sent := Headers(cfg, got.tcp.dstPort, Src(got), client, id, 64);
      sent := sent.(tcp := FlagTCP(sent.tcp, true, false, true));
      clients := clients[Src(got) := client.(seq_ := Wrap32(client.seq_ + 1))];
      assert clients == old(clients)[Src(got) := clients[Src(got)]];
      id := Wrap16(id + 1);
    }

    method SendACK(got: Segment) returns (sent: Segment)
      requires Src(got) in clients
      modifies this`clients, this`id
      ensures (Value(), sent) == HandshakeACK(cfg, old(Value()), got)
    {
      var client := clients[Src(got)].(ack_ := Wrap32(got.tcp.seq_ + 1));
      clients := clients[Src(got) := client];
      sent := Headers(cfg, got.tcp.dstPort, Src(got), client, id, 128);
      sent := sent.(tcp := FlagTCP(sent.tcp, false, false, true));
      id := Wrap16(id + 1);
    }

    method Redial() returns (sent: Segment)
      modifies this`clients, this`id, this`isReconnected
      ensures (Value(), sent) == Reconnect(cfg, old(Value()))
    {
      isReconnected := false;
      sent := SendSYN();
    }

    method ReadFrom(got: Segment) returns (sent: seq<Segment>, r: ReadResult)
      modifies this
      ensures (Value(), sent, r) == Receive(cfg, old(Value()), got)
    {
      hide HandshakeSYNACK, HandshakeACK, Reconnect, UpdateAck;
      sent := [];
      if got.tcp.rst {
        var p := Redial();
        sent := [p];
      }
      if got.tcp.syn {
        var p: Segment;
        if got.tcp.ack {
          isConnected := true;
          isReconnected := true;
          if Src(got) !in clients {
            return sent, Unauthorized;
          }
          p := SendACK(got);
        } else {
          p := SendSYNACK(got);
        }
        return sent + [p], Empty;
      }
      if got.payload == [] {
        return sent, Empty;
      }
      if Src(got) !in clients {
        return sent, Unauthorized;
      }
      var client := clients[Src(got)];
      clients := clients[Src(got) := client.(ack_ := UpdateAck(client.ack_, got.tcp.seq_, |got.payload|))];
      var contents := cfg.dec(got.payload);
      r := if contents.None? then Undecryptable else Data(contents.value);
    }

    method WriteTo(to: Endpoint, p: seq<Byte>) returns (sent: seq<Segment>, ok: bool)
      requires cfg.mtu > 40
      modifies this`clients, this`id
      ensures (Value(), sent, ok) == Write(cfg, old(Value()), to, p)
    {
      if to !in clients {
        return [], false;
      }
      var client := clients[to];
      var h := Headers(cfg, cfg.local.port, to, client, id, 128);
      var contents := cfg.enc(p);
      sent := CreateTCPSegmentPackets(true, h.ip, h.tcp, contents, cfg.mtu);
      clients := clients[to := client.(seq_ := Wrap32(client.seq_ + Wrap32(|contents|)))];
      id := Wrap16(id + Wrap16(|sent|));
      ok := true;
    }
  }
}
