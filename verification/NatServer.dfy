/**
  * The server itself (cmd/ikago-server/main.go): the global tables, the pool slices and the
  * pointers, changed in place by the two handlers. Each method is proved to take the step of the
  * state machine in module Nat.
  */
module NatServer {
  import opened Words
  import opened Packets
  import opened Ports
  import opened Nat

  class Server {
    const upIP: IP
    const tcpPortPool: array<Stamp>
    const udpPortPool: array<Stamp>
    const icmpv4IdPool: array<Stamp>
    var nextTCPPort: U16
    var nextUDPPort: U16
    var nextICMPv4Id: U16
    var patMap: map<FlowKey, U16>
    var natTable: map<Guide, NatEntry>

    /** The state that the fields represent. */
    ghost function Value(): State
      reads this, tcpPortPool, udpPortPool, icmpv4IdPool
    {
      State(Pool(tcpPortPool[..], nextTCPPort), Pool(udpPortPool[..], nextUDPPort),
            Pool(icmpv4IdPool[..], nextICMPv4Id), patMap, natTable)
    }

    ghost predicate Valid()
      reads this, tcpPortPool, udpPortPool, icmpv4IdPool
    {
      && tcpPortPool != udpPortPool && tcpPortPool != icmpv4IdPool && udpPortPool != icmpv4IdPool
      && Inv(Value(), upIP)
    }

    constructor (upIP: IP)
      ensures Valid() && this.upIP == upIP && Value() == Init()
      ensures fresh(tcpPortPool) && fresh(udpPortPool) && fresh(icmpv4IdPool)
    {
      this.upIP := upIP;
      tcpPortPool := new Stamp[PORT_POOL](_ => Never);
      udpPortPool := new Stamp[PORT_POOL](_ => Never);
      icmpv4IdPool := new Stamp[ID_POOL](_ => Never);
      nextTCPPort, nextUDPPort, nextICMPv4Id := 0, 0, 0;
      patMap, natTable := map[], map[];
      new;
      assert Value() == Init();
    }

    /** `dist` */
    method Allocate(p: Proto, now: int) returns (v: Option<U16>)
      requires Valid()
      modifies this`nextTCPPort, this`nextUDPPort, this`nextICMPv4Id
      ensures Valid()
      ensures (Value(), v) == Dist(old(Value()), p, now)
    {
      var slot: Option<nat>;
      match p {
        case TCP => slot, nextTCPPort := ScanPool(tcpPortPool, nextTCPPort, now);
        case UDP => slot, nextUDPPort := ScanPool(udpPortPool, nextUDPPort, now);
        case ICMPv4 => slot, nextICMPv4Id := ScanPool(icmpv4IdPool, nextICMPv4Id, now);
      }
      v := if slot.None? then None else Some(Wrap16(PoolBase(p) + slot.value));
    }

    /** The keep-alive writes, `pool[...] = time.Now()`: the index must be in range. */
    method KeepAlive(p: Proto, value: U16, now: int)
      requires Valid() && InPool(p, value)
      modifies tcpPortPool, udpPortPool, icmpv4IdPool
      ensures Valid()
      ensures Some(Value()) == Touch(old(Value()), p, value, now)
    {
      TouchKeepsInv(Value(), upIP, p, value, now);
      match p {
        case TCP => tcpPortPool[SlotOf(p, value)] := At(now);
        case UDP => udpPortPool[SlotOf(p, value)] := At(now);
        case ICMPv4 => icmpv4IdPool[value] := At(now);
      }
    }

    method HandleListen(p: Packet, conn: Conn, now: int, wrote: bool) returns (r: ListenResult)
      requires Valid() && Parsed(p)
      modifies this, tcpPortPool, udpPortPool, icmpv4IdPool
      ensures Valid()
      ensures (Value(), r) == Listen(old(Value()), upIP, p, conn, now, wrote)
    {
      ListenKeepsInv(Value(), upIP, p, conn, now, wrote);
      if p.transport.None? {
        return ListenPanics;
      }
      var t := p.transport.value;
      var src := NATSrc(p.ip, t);
      if src.None? {
        return ListenPanics;
      }
      ListenStages(Value(), upIP, p, conn, now, wrote);
      AssignGrows(Value(), t, KeyOf(p, conn), now);
      var v := AssignPort(t, FlowKey(Text(src.value), conn.remote, NATProtocol(t)), now);
      if v.None? || !wrote {
        return Refused;
      }
      var out := PacketOut(p, t, upIP, v.value);
      if !IsError(t) {
        RecordKeepsInv(Value(), upIP, t, src.value, conn, v.value);
        natTable := natTable[GuideFor(ProtoOf(t), upIP, v.value) := NatEntry(conn.remote, src.value, conn)];
      }
      KeepAlive(NATProtocol(t), v.value, now);
      r := Sent(out, v.value);
    }

    /** The lookup in `patMap`, and the allocation for a new flow. */
    method AssignPort(t: Transport, key: FlowKey, now: int) returns (v: Option<U16>)
      requires Valid()
      requires !IsError(t) ==> key.proto == ProtoOf(t) && KindOk(key.src, key.proto)
      modifies this`nextTCPPort, this`nextUDPPort, this`nextICMPv4Id, this`patMap
      ensures Valid()
      ensures (Value(), v) == Assign(old(Value()), t, key, now)
    {
      AssignKeepsInv(Value(), upIP, t, key, now);
      if key in patMap {
        return Some(patMap[key]);
      }
      if IsError(t) {
        return None;
      }
      v := Allocate(ProtoOf(t), now);
      if v.Some? {
        patMap := patMap[key := v.value];
      }
    }

    method HandleUpstream(whole: Packet, frags: seq<Packet>, now: int) returns (r: UpstreamResult)
      requires Valid() && Arrived(whole, frags)
      modifies tcpPortPool, udpPortPool, icmpv4IdPool
      ensures Valid()
      ensures (Value(), r) == Upstream(old(Value()), whole, frags, now)
    {
      UpstreamKeepsInv(Value(), upIP, whole, frags, now);
      var t := whole.transport.value;
      var dst := NATDst(whole.ip, t);
      if dst.None? {
        return UpstreamPanics;
      }
      var guide := Guide(Text(dst.value), ProtoOf(t));
      if guide !in natTable {
        return Ignored;
      }
      var entry := natTable[guide];
      FoundEntryFits(Value(), upIP, whole);
      PacketsInAll(frags, entry.embSrc);
      KeepAlive(NATProtocol(t), KeptAlive(t).value, now);
      var packets := Rewrite(frags, entry.embSrc);
      r := Delivered(entry.conn, packets);
    }
  }

  /** The loop over the pieces of a datagram, each rewritten and written in turn. */
  method Rewrite(frags: seq<Packet>, inner: Addr) returns (packets: seq<Packet>)
    requires forall f | f in frags :: PacketIn(f, inner).Some?
    ensures Some(packets) == PacketsIn(frags, inner)
  {
    PacketsInAll(frags, inner);
    packets := [];
    for i := 0 to |frags|
      invariant |packets| == i
      invariant forall k | 0 <= k < i :: Some(packets[k]) == PacketIn(frags[k], inner)
    {
      packets := packets + [PacketIn(frags[i], inner).value];
    }
    assert packets == PacketsIn(frags, inner).value;
  }
}
