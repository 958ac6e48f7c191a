/**
  * The server's address translation (cmd/ikago-server/main.go, handleListen and handleUpstream) as
  * a state machine: one atomic step per handled packet over the two tables and the three pools.
  */
module Nat {
  import opened Words
  import opened Packets
  import opened Ports

  // A tunnel connection and the text of its remote address.
  datatype Conn = Conn(handle: nat, remote: string)

  // `quintuple`: inner endpoint, client address, protocol.
  datatype FlowKey = FlowKey(src: AddrText, client: string, proto: Proto)

  // `NATGuide`: external endpoint and protocol.
  datatype Guide = Guide(src: AddrText, proto: Proto)

  // `natIndicator`.
  datatype NatEntry = NatEntry(src: string, embSrc: Addr, conn: Conn)

  datatype Pool = Pool(stamps: seq<Stamp>, next: U16)

  datatype State = State(tcp: Pool, udp: Pool, icmp: Pool, pat: map<FlowKey, U16>, table: map<Guide, NatEntry>)

  datatype ListenResult =
    | Sent(packet: Packet, value: U16)
    | Refused
    | ListenPanics

  datatype UpstreamResult =
    | Delivered(conn: Conn, packets: seq<Packet>)
    | Ignored
    | UpstreamPanics

  function FreshPool(p: Proto): Pool {
    Pool(seq(PoolSize(p), _ => Never), 0)
  }

  function Init(): State {
    State(FreshPool(TCP), FreshPool(UDP), FreshPool(ICMPv4), map[], map[])
  }

  function PoolOf(s: State, p: Proto): Pool {
    match p
    case TCP => s.tcp
    case UDP => s.udp
    case ICMPv4 => s.icmp
  }

  function WithPool(s: State, p: Proto, pool: Pool): State {
    match p
    case TCP => s.(tcp := pool)
    case UDP => s.(udp := pool)
    case ICMPv4 => s.(icmp := pool)
  }

  /** The pool slot of a port or Id; `convertFromPort` is a `uint16` subtraction, so a port below
      49152 wraps to a slot beyond the pool. */
  function SlotOf(p: Proto, value: U16): U16 {
    if p == ICMPv4 then value else Wrap16(value - FIRST_PORT)
  }

  /** Writing the time of use; `None` is the out-of-range panic. */
  function Touch(s: State, p: Proto, value: U16, now: int): Option<State> {
    var pool := PoolOf(s, p);
    var i := SlotOf(p, value);
    if i < |pool.stamps| then Some(WithPool(s, p, Stamped(pool, i, now))) else None
  }

  function Stamped(pool: Pool, slot: nat, now: int): Pool
    requires slot < |pool.stamps|
  {
    pool.(stamps := pool.stamps[slot := At(now)])
  }

  /** `dist` on one pool: the pool with its pointer moved, and the port or Id allocated. */
  function Take(pool: Pool, p: Proto, now: int): (Pool, Option<U16>)
    requires |pool.stamps| > 0
  {
    var (found, after) := Scan(pool.stamps, pool.next, now, |pool.stamps|);
    (pool.(next := after), if found.None? then None else Some(Wrap16(PoolBase(p) + found.value)))
  }

  function Dist(s: State, p: Proto, now: int): (State, Option<U16>)
    requires |PoolOf(s, p).stamps| > 0
  {
    var (pool, v) := Take(PoolOf(s, p), p, now);
    (WithPool(s, p, pool), v)
  }

  ghost predicate PoolsSized(s: State) {
    |s.tcp.stamps| == PORT_POOL && |s.udp.stamps| == PORT_POOL && |s.icmp.stamps| == ID_POOL
  }

  // ---------------------------------------------------------------- outbound

  /** The quoted header of an outbound error: its destination becomes the external endpoint. */
  function QuoteOut(q: Quote, upIP: IP, value: U16): Quote {
    Quote(q.ip.(dst := upIP),
          match q.transport
          case Tcp(src, _, rest) => Tcp(src, value, rest)
          case Udp(src, _, rest) => Udp(src, value, rest)
          case Icmp(ty, _, _, _) => if IsQueryType(ty) then q.transport.(id := value) else q.transport)
  }

  /** The new transport layer of an outbound packet. */
  function TransportOut(t: Transport, upIP: IP, value: U16): Transport {
    match t
    case Tcp(_, dst, rest) => Tcp(value, dst, rest)
    case Udp(_, dst, rest) => Udp(value, dst, rest)
    case Icmp(ty, _, _, quote) =>
      if IsQueryType(ty) || quote.None? then t.(id := value)
      else t.(quote := Some(QuoteOut(quote.value, upIP, value)))
  }

  /** The packet whose layers the handler builds. For an error that is the packet with the rewritten
      quote; that these layers are also what is serialized is not claimed. */
  function PacketOut(p: Packet, t: Transport, upIP: IP, value: U16): Packet {
    p.(ip := p.ip.(src := upIP), transport := Some(TransportOut(t, upIP, value)))
  }

  /** The external endpoint that a port or Id stands for. */
  function GuideFor(p: Proto, upIP: IP, value: U16): Guide {
    Guide(if p == ICMPv4 then HostId(upIP, value) else HostPort(upIP, value), p)
  }

  /** The lookup in `patMap`, with an allocation for a flow that is not in it yet. */
  function Assign(s: State, t: Transport, key: FlowKey, now: int): (State, Option<U16>)
    requires PoolsSized(s)
  {
    if key in s.pat then (s, Some(s.pat[key]))
    else if IsError(t) then (s, None)
    else
      var (s', v) := Dist(s, ProtoOf(t), now);
      (if v.None? then s' else s'.(pat := s'.pat[key := v.value]), v)
  }

  /** The entry in `nat`, which every packet but an error writes or overwrites. */
  function Record(s: State, upIP: IP, t: Transport, src: Addr, conn: Conn, value: U16): State {
    if IsError(t) then s
    else s.(table := s.table[GuideFor(ProtoOf(t), upIP, value) := NatEntry(conn.remote, src, conn)])
  }

  /** handleListen after parsing. `wrote` says whether the packet could be serialized and written.
      A fragment has no transport layer, and the type assertion in CreateFragmentPackets panics. */
  function Listen(s: State, upIP: IP, p: Packet, conn: Conn, now: int, wrote: bool): (State, ListenResult)
    requires PoolsSized(s) && Parsed(p)
  {
    if p.transport.None? then (s, ListenPanics)
    else
      var t := p.transport.value;
      var src := NATSrc(p.ip, t);
      if src.None? then (s, ListenPanics)
      else
        var key := FlowKey(Text(src.value), conn.remote, NATProtocol(t));
        var (s1, v) := Assign(s, t, key, now);
        if v.None? || !wrote then (s1, Refused)
        else
          var s2 := Record(s1, upIP, t, src.value, conn, v.value);
          var s3 := Touch(s2, NATProtocol(t), v.value, now);
          if s3.None? then (s2, ListenPanics)
          else (s3.value, Sent(PacketOut(p, t, upIP, v.value), v.value))
  }

  // ---------------------------------------------------------------- inbound

  /** The destination port or Id of a rewritten inbound layer; `None` is a failed type assertion. */
  function TransportIn(t: Transport, inner: Addr): Option<Transport> {
    match t
    case Tcp(src, _, rest) => if inner.TCPAddr? then Some(Tcp(src, inner.port, rest)) else None
    case Udp(src, _, rest) => if inner.UDPAddr? then Some(Udp(src, inner.port, rest)) else None
    case Icmp(ty, _, _, quote) =>
      if IsQueryType(ty) || quote.None? then
        if inner.ICMPQueryAddr? then Some(t.(id := inner.id)) else None
      else
        var q := QuoteIn(quote.value, inner);
        if q.None? then None else Some(t.(quote := q))
  }

  /** The quoted header of an inbound error: its source becomes the inner endpoint. */
  function QuoteIn(q: Quote, inner: Addr): Option<Quote> {
    var ip := q.ip.(src := inner.ip);
    match q.transport
    case Tcp(_, dst, rest) =>
      if inner.TCPAddr? then Some(Quote(ip, Tcp(inner.port, dst, rest))) else None
    case Udp(_, dst, rest) =>
      if inner.UDPAddr? then Some(Quote(ip, Udp(inner.port, dst, rest))) else None
    case Icmp(ty, _, _, _) =>
      if !IsQueryType(ty) then Some(Quote(ip, q.transport))
      else if inner.ICMPQueryAddr? then Some(Quote(ip, q.transport.(id := inner.id)))
      else None
  }

  function PacketIn(p: Packet, inner: Addr): Option<Packet> {
    var ip := p.ip.(dst := inner.ip);
    if p.transport.None? then Some(p.(ip := ip))
    else
      var t := TransportIn(p.transport.value, inner);
      if t.None? then None else Some(p.(ip := ip, transport := t))
  }

  function PacketsIn(frags: seq<Packet>, inner: Addr): Option<seq<Packet>> {
    if frags == [] then Some([])
    else
      var first := PacketIn(frags[0], inner);
      var others := PacketsIn(frags[1..], inner);
      if first.None? || others.None? then None else Some([first.value] + others.value)
  }

  /** The port or Id that an inbound packet keeps alive: the destination port, or the Id of the
      outer ICMPv4 header, also for an error. `None` is the panic of DstPort on an ICMPv4 layer. */
  function KeptAlive(t: Transport): Option<U16>
    requires IsError(t) ==> t.quote.Some?
  {
    match t
    case Tcp(_, d, _) => Some(d)
    case Udp(_, d, _) => Some(d)
    case Icmp(_, id, _, _) => if NATProtocol(t) == ICMPv4 then Some(id) else None
  }

  /** A packet as `AppendOriginal` hands it over: the whole datagram, and what arrived of it. */
  predicate Arrived(whole: Packet, frags: seq<Packet>) {
    && Parsed(whole) && whole.transport.Some?
    && (frags == [whole] || forall f | f in frags :: Parsed(f) && IsFragment(f.ip))
  }

  /** handleUpstream after reassembly. */
  function Upstream(s: State, whole: Packet, frags: seq<Packet>, now: int): (State, UpstreamResult)
    requires Arrived(whole, frags)
  {
    var t := whole.transport.value;
    var dst := NATDst(whole.ip, t);
    if dst.None? then (s, UpstreamPanics)
    else
      var guide := Guide(Text(dst.value), ProtoOf(t));
      if guide !in s.table then (s, Ignored)
      else
        var entry := s.table[guide];
        var kept := KeptAlive(t);
        if kept.None? then (s, UpstreamPanics)
        else
          var s1 := Touch(s, NATProtocol(t), kept.value, now);
          if s1.None? then (s, UpstreamPanics)
          else
            var out := PacketsIn(frags, entry.embSrc);
            if out.None? then (s1.value, UpstreamPanics)
            else (s1.value, Delivered(entry.conn, out.value))
  }

  // ---------------------------------------------------------------- invariant

  /** The port or Id in a text, and whether the text is of the kind the protocol uses. */
  function ValueOf(a: AddrText): U16 {
    match a
    case Host(_) => 0
    case HostPort(_, port) => port
    case HostId(_, id) => id
  }

  predicate KindOk(a: AddrText, p: Proto) {
    if p == ICMPv4 then a.HostId? else a.HostPort?
  }

  predicate InPool(p: Proto, value: U16) {
    p == ICMPv4 || value >= FIRST_PORT
  }

  predicate EndpointOk(a: Addr, p: Proto) {
    match p
    case TCP => a.TCPAddr?
    case UDP => a.UDPAddr?
    case ICMPv4 => a.ICMPQueryAddr?
  }

  ghost predicate PatOk(pat: map<FlowKey, U16>) {
    forall q | q in pat :: KindOk(q.src, q.proto) && InPool(q.proto, pat[q])
  }

  /** A `nat` entry agrees with `patMap`: the flow it leads back to owns the port it is filed under. */
  predicate Coherent(pat: map<FlowKey, U16>, upIP: IP, g: Guide, e: NatEntry) {
    && KindOk(g.src, g.proto)
    && g.src.ip == upIP
    && EndpointOk(e.embSrc, g.proto)
    && e.src == e.conn.remote
    && var q := FlowKey(Text(e.embSrc), e.src, g.proto);
       q in pat && pat[q] == ValueOf(g.src)
  }

  ghost predicate Inv(s: State, upIP: IP) {
    && PoolsSized(s)
    && PatOk(s.pat)
    && forall g | g in s.table :: Coherent(s.pat, upIP, g, s.table[g])
  }

  lemma InitInv(upIP: IP)
    ensures Inv(Init(), upIP)
  {
  }

  /** `dist` returns a port or Id of its pool whose slot is idle, and fails exactly when none is. */
  lemma TakeInPool(pool: Pool, p: Proto, now: int)
    requires |pool.stamps| == PoolSize(p)
    ensures var (pool', v) := Take(pool, p, now);
            && pool'.stamps == pool.stamps
            && (v.Some? ==> InPool(p, v.value) && SlotOf(p, v.value) < |pool.stamps|
                            && Idle(pool.stamps[SlotOf(p, v.value)], now))
            && (v.None? <==> AllBusy(pool.stamps, now))
  {
    ScanLap(pool.stamps, pool.next, now);
    var found := Scan(pool.stamps, pool.next, now, |pool.stamps|).0;
    if found.Some? {
      SlotRoundTrip(p, found.value);
    }
  }

  lemma SlotRoundTrip(p: Proto, slot: nat)
    requires slot < PoolSize(p)
    ensures var v := Wrap16(PoolBase(p) + slot);
            v == PoolBase(p) + slot && InPool(p, v) && SlotOf(p, v) == slot
  {
  }

  /** The assignment keeps every flow's port and gives the key of this packet the result. */
  lemma AssignGrows(s: State, t: Transport, key: FlowKey, now: int)
    requires PoolsSized(s) && PatOk(s.pat)
    requires !IsError(t) ==> key.proto == ProtoOf(t) && KindOk(key.src, key.proto)
    ensures var (s', v) := Assign(s, t, key, now);
            && PoolsSized(s') && PatOk(s'.pat) && s'.table == s.table
            && (forall q | q in s.pat :: q in s'.pat && s'.pat[q] == s.pat[q])
            && (forall q | q in s'.pat && q != key :: q in s.pat)
            && (v.Some? ==> key in s'.pat && s'.pat[key] == v.value && InPool(key.proto, v.value))
            && (v.None? ==> key !in s'.pat)
  {
    if key !in s.pat && !IsError(t) {
      TakeInPool(PoolOf(s, ProtoOf(t)), ProtoOf(t), now);
    }
  }

  lemma AssignKeepsInv(s: State, upIP: IP, t: Transport, key: FlowKey, now: int)
    requires Inv(s, upIP)
    requires !IsError(t) ==> key.proto == ProtoOf(t) && KindOk(key.src, key.proto)
    ensures Inv(Assign(s, t, key, now).0, upIP)
  {
    AssignGrows(s, t, key, now);
    var s1 := Assign(s, t, key, now).0;
    forall g | g in s1.table ensures Coherent(s1.pat, upIP, g, s1.table[g]) {
      assert Coherent(s.pat, upIP, g, s.table[g]);
    }
  }

  lemma RecordKeepsInv(s: State, upIP: IP, t: Transport, src: Addr, conn: Conn, value: U16)
    requires Inv(s, upIP)
    requires !IsError(t) ==> EndpointOk(src, ProtoOf(t))
    requires var q := FlowKey(Text(src), conn.remote, ProtoOf(t));
             !IsError(t) ==> q in s.pat && s.pat[q] == value
    ensures var s' := Record(s, upIP, t, src, conn, value);
            Inv(s', upIP) && s'.pat == s.pat
  {
    var s' := Record(s, upIP, t, src, conn, value);
    forall g | g in s'.table ensures Coherent(s'.pat, upIP, g, s'.table[g]) {
    }
  }

  lemma TouchKeepsInv(s: State, upIP: IP, p: Proto, value: U16, now: int)
    requires Inv(s, upIP) && InPool(p, value)
    ensures var s' := Touch(s, p, value, now);
            && s'.Some? && Inv(s'.value, upIP) && s'.value.pat == s.pat && s'.value.table == s.table
  {
  }

  /** The three stages of a packet that neither panics nor is refused. */
  lemma ListenStages(s: State, upIP: IP, p: Packet, conn: Conn, now: int, wrote: bool)
    requires Inv(s, upIP) && Parsed(p) && p.transport.Some? && !QuotesUnsupported(p.transport.value)
    ensures var t, key := p.transport.value, KeyOf(p, conn);
            var (s1, v) := Assign(s, t, key, now);
            if v.None? || !wrote then Listen(s, upIP, p, conn, now, wrote) == (s1, Refused)
            else
              var s3 := Touch(Record(s1, upIP, t, NATSrc(p.ip, t).value, conn, v.value), key.proto, v.value, now);
              && s3.Some?
              && Listen(s, upIP, p, conn, now, wrote) == (s3.value, Sent(PacketOut(p, t, upIP, v.value), v.value))
  {
    var t, key := p.transport.value, KeyOf(p, conn);
    KeyFits(p, conn);
    AssignGrows(s, t, key, now);
    hide Assign, IsError, QuotesUnsupported, ProtoOf, NATProtocol, KindOk, PatOk, Coherent, PacketOut, Parsed;
    var (s1, v) := Assign(s, t, key, now);
    if v.Some? {
      TouchFits(Record(s1, upIP, t, NATSrc(p.ip, t).value, conn, v.value), key.proto, v.value, now);
    }
    hide Record, Touch, InPool;
  }

  lemma KeyFits(p: Packet, conn: Conn)
    requires Parsed(p) && p.transport.Some? && !QuotesUnsupported(p.transport.value)
    ensures var t, key := p.transport.value, KeyOf(p, conn);
            && NATSrc(p.ip, t).Some? && key.proto == NATProtocol(t)
            && (!IsError(t) ==> key.proto == ProtoOf(t) && KindOk(key.src, key.proto))
  {
  }

  lemma TouchFits(s: State, p: Proto, value: U16, now: int)
    requires PoolsSized(s) && InPool(p, value)
    ensures Touch(s, p, value, now).Some?
  {
  }

  /** handleListen keeps the invariant, never forgets a flow's port, and panics exactly on a
      fragment and on an error that quotes an ICMPv4 message of unsupported type. */
  lemma ListenKeepsInv(s: State, upIP: IP, p: Packet, conn: Conn, now: int, wrote: bool)
    requires Inv(s, upIP) && Parsed(p)
    ensures var (s', r) := Listen(s, upIP, p, conn, now, wrote);
            && Inv(s', upIP)
            && (forall q | q in s.pat :: q in s'.pat && s'.pat[q] == s.pat[q])
            && (r.ListenPanics? <==> p.transport.None? || QuotesUnsupported(p.transport.value))
  {
    if p.transport.Some? && !QuotesUnsupported(p.transport.value) {
      var t := p.transport.value;
      var src := NATSrc(p.ip, t).value;
      var key := FlowKey(Text(src), conn.remote, NATProtocol(t));
      AssignGrows(s, t, key, now);
      var (s1, v) := Assign(s, t, key, now);
      AssignKeepsInv(s, upIP, t, key, now);
      if v.Some? && wrote {
        RecordKeepsInv(s1, upIP, t, src, conn, v.value);
        TouchKeepsInv(Record(s1, upIP, t, src, conn, v.value), upIP, NATProtocol(t), v.value, now);
      }
    }
  }

  /** The guide under which an inbound packet is looked up. */
  function GuideOf(whole: Packet): Guide
    requires Parsed(whole) && whole.transport.Some? && !QuotesUnsupported(whole.transport.value)
  {
    Guide(Text(NATDst(whole.ip, whole.transport.value).value), ProtoOf(whole.transport.value))
  }

  /** The key under which an outbound packet's flow is looked up. */
  function KeyOf(p: Packet, conn: Conn): FlowKey
    requires Parsed(p) && p.transport.Some? && !QuotesUnsupported(p.transport.value)
  {
    FlowKey(Text(NATSrc(p.ip, p.transport.value).value), conn.remote, NATProtocol(p.transport.value))
  }

  /** An entry found by the guide of an inbound packet accepts every rewriting the packet needs. */
  lemma FoundEntryFits(s: State, upIP: IP, whole: Packet)
    requires Inv(s, upIP) && Parsed(whole) && whole.transport.Some?
    requires !QuotesUnsupported(whole.transport.value) && GuideOf(whole) in s.table
    ensures var t := whole.transport.value;
            && NATProtocol(t) == ProtoOf(t)
            && KeptAlive(t).Some? && InPool(ProtoOf(t), KeptAlive(t).value)
            && (!IsError(t) ==> KeptAlive(t).value == ValueOf(GuideOf(whole).src))
            && (IsError(t) ==> IsQuery(t.quote.value.transport))
            && PacketIn(whole, s.table[GuideOf(whole)].embSrc).Some?
  {
    var t := whole.transport.value;
    var g := GuideOf(whole);
    assert Coherent(s.pat, upIP, g, s.table[g]);
    assert InPool(g.proto, ValueOf(g.src));
  }

  lemma {:induction false} PacketsInAll(frags: seq<Packet>, inner: Addr)
    requires forall f | f in frags :: PacketIn(f, inner).Some?
    ensures var out := PacketsIn(frags, inner);
            out.Some? && |out.value| == |frags|
            && forall i | 0 <= i < |frags| :: out.value[i] == PacketIn(frags[i], inner).value
  {
    if frags != [] {
      PacketsInAll(frags[1..], inner);
    }
  }

  /** A packet whose guide is in `nat` is delivered on the entry's connection, every piece of it
      readdressed to the entry's inner endpoint; any other packet is ignored. */
  lemma UpstreamDelivers(s: State, upIP: IP, whole: Packet, frags: seq<Packet>, now: int)
    requires Inv(s, upIP) && Arrived(whole, frags) && !QuotesUnsupported(whole.transport.value)
    ensures var r := Upstream(s, whole, frags, now).1;
            if GuideOf(whole) in s.table then
              var entry := s.table[GuideOf(whole)];
              && r.Delivered? && r.conn == entry.conn && |r.packets| == |frags|
              && forall i | 0 <= i < |frags| :: Some(r.packets[i]) == PacketIn(frags[i], entry.embSrc)
            else r.Ignored?
  {
    if GuideOf(whole) in s.table {
      FoundEntryFits(s, upIP, whole);
      PacketsInAll(frags, s.table[GuideOf(whole)].embSrc);
    }
  }

  /** What a sent packet is and what it leaves behind: the flow owns the port it was sent from, and
      the entry of that port leads back to the flow, unless the packet is an error. */
  lemma ListenEffect(s: State, upIP: IP, p: Packet, conn: Conn, now: int, wrote: bool)
    requires Inv(s, upIP) && Parsed(p)
    ensures var (s', r) := Listen(s, upIP, p, conn, now, wrote);
            if r.Sent? then
              && p.transport.Some? && !QuotesUnsupported(p.transport.value)
              && var t, key := p.transport.value, KeyOf(p, conn);
              && r.packet == PacketOut(p, t, upIP, r.value)
              && key in s'.pat && s'.pat[key] == r.value
              && s'.table == if IsError(t) then s.table
                             else s.table[GuideFor(ProtoOf(t), upIP, r.value) :=
                                          NatEntry(conn.remote, SrcEndpoint(p.ip, t), conn)]
            else s'.table == s.table
  {
    ListenKeepsInv(s, upIP, p, conn, now, wrote);
    if p.transport.Some? && !QuotesUnsupported(p.transport.value) {
      AssignGrows(s, p.transport.value, KeyOf(p, conn), now);
    }
  }

  /** A packet of a known flow is sent from that flow's external endpoint. */
  lemma ListenSends(s: State, upIP: IP, p: Packet, conn: Conn, now: int)
    requires Inv(s, upIP) && Parsed(p) && p.transport.Some? && !QuotesUnsupported(p.transport.value)
    requires KeyOf(p, conn) in s.pat
    ensures var v := s.pat[KeyOf(p, conn)];
            Listen(s, upIP, p, conn, now, true).1 == Sent(PacketOut(p, p.transport.value, upIP, v), v)
  {
    ListenKeepsInv(s, upIP, p, conn, now, true);
  }

  /** handleUpstream keeps the invariant and both tables, and panics exactly on an error that
      quotes an ICMPv4 message of unsupported type: in a reachable state no pool index is out of
      range and no assertion on the kind of the inner endpoint fails. */
  lemma UpstreamKeepsInv(s: State, upIP: IP, whole: Packet, frags: seq<Packet>, now: int)
    requires Inv(s, upIP) && Arrived(whole, frags)
    ensures var (s', r) := Upstream(s, whole, frags, now);
            && Inv(s', upIP) && s'.pat == s.pat && s'.table == s.table
            && (r.UpstreamPanics? <==> QuotesUnsupported(whole.transport.value))
  {
    var t := whole.transport.value;
    if !QuotesUnsupported(t) {
      UpstreamDelivers(s, upIP, whole, frags, now);
      if GuideOf(whole) in s.table {
        FoundEntryFits(s, upIP, whole);
        TouchKeepsInv(s, upIP, ProtoOf(t), KeptAlive(t).value, now);
      }
    }
  }
}
