/**
  * What holds over every run of the translation: any interleaving of handled packets, starting
  * from the empty tables.
  */
module NatRuns {
  import opened Words
  import opened Packets
  import opened Nat

  datatype Event =
    | Outbound(packet: Packet, conn: Conn, now: int, wrote: bool)
    | Inbound(whole: Packet, frags: seq<Packet>, now: int)

  predicate ValidEvent(e: Event) {
    match e
    case Outbound(p, _, _, _) => Parsed(p)
    case Inbound(whole, frags, _) => Arrived(whole, frags)
  }

  ghost predicate ValidRun(evs: seq<Event>) {
    forall i | 0 <= i < |evs| :: ValidEvent(evs[i])
  }

  function Step(s: State, upIP: IP, e: Event): State
    requires PoolsSized(s) && ValidEvent(e)
  {
    match e
    case Outbound(p, conn, now, wrote) => Listen(s, upIP, p, conn, now, wrote).0
    case Inbound(whole, frags, now) => Upstream(s, whole, frags, now).0
  }

  /** The state after a run. Its contract is the invariant over every reachable state: pool sizes,
      ports and Ids in their pools, endpoints of the right kind, and coherence of the two tables. */
  ghost function Run(upIP: IP, evs: seq<Event>): (s: State)
    requires ValidRun(evs)
    ensures Inv(s, upIP)
  {
    if evs == [] then InitInv(upIP); Init()
    else
      var before := Run(upIP, evs[..|evs| - 1]);
      StepKeepsInv(before, upIP, evs[|evs| - 1]);
      Step(before, upIP, evs[|evs| - 1])
  }

  lemma StepKeepsInv(s: State, upIP: IP, e: Event)
    requires Inv(s, upIP) && ValidEvent(e)
    ensures Inv(Step(s, upIP, e), upIP)
    ensures PatExtends(s.pat, Step(s, upIP, e).pat)
  {
    match e
    case Outbound(p, conn, now, wrote) => ListenKeepsInv(s, upIP, p, conn, now, wrote);
    case Inbound(whole, frags, now) => UpstreamKeepsInv(s, upIP, whole, frags, now);
  }

  ghost predicate PatExtends(a: map<FlowKey, U16>, b: map<FlowKey, U16>) {
    forall q | q in a :: q in b && b[q] == a[q]
  }

  lemma RunSnoc(upIP: IP, evs: seq<Event>, e: Event)
    requires ValidRun(evs) && ValidEvent(e)
    ensures ValidRun(evs + [e])
    ensures Run(upIP, evs + [e]) == Step(Run(upIP, evs), upIP, e)
  {
    assert (evs + [e])[..|evs|] == evs;
  }

  /** Endpoint-independent mapping: no later event changes the port of a flow. */
  lemma {:induction false} PortsAreKept(upIP: IP, evs: seq<Event>, more: seq<Event>)
    requires ValidRun(evs + more)
    ensures ValidRun(evs)
    ensures PatExtends(Run(upIP, evs).pat, Run(upIP, evs + more).pat)
  {
    forall i | 0 <= i < |evs| ensures ValidEvent(evs[i]) {
      assert (evs + more)[i] == evs[i];
    }
    if more == [] {
      assert evs + more == evs;
    } else {
      var init, e := more[..|more| - 1], more[|more| - 1];
      assert evs + more == (evs + init) + [e];
      assert ValidRun(evs + init) by {
        forall i | 0 <= i < |evs + init| ensures ValidEvent((evs + init)[i]) {
          assert (evs + more)[i] == (evs + init)[i];
        }
      }
      assert ValidEvent(e) by { assert (evs + more)[|evs + more| - 1] == e; }
      PortsAreKept(upIP, evs, init);
      RunSnoc(upIP, evs + init, e);
      StepKeepsInv(Run(upIP, evs + init), upIP, e);
    }
  }

  /** The header quotes an ICMPv4 message of a type that is not in the tables of the parser. */
  predicate QuotesForeign(t: Transport) {
    && t.Icmp? && t.quote.Some? && t.quote.value.transport.Icmp?
    && t.quote.value.transport.ty !in {0, 3, 4, 5, 8, 9, 10, 11, 12, 13, 14, 15, 16, 17, 18}
  }

  /** Reachable-state safety: after any run, no pool index is out of range, no port or kind
      assertion fails and no address accessor panics, except on a fragment from a client and on an
      error, from either side, that quotes an ICMPv4 message of unsupported type. */
  lemma PanicsExactly(upIP: IP, evs: seq<Event>, e: Event)
    requires ValidRun(evs) && ValidEvent(e)
    ensures match e
            case Outbound(p, conn, now, wrote) =>
              Listen(Run(upIP, evs), upIP, p, conn, now, wrote).1.ListenPanics?
              <==> p.ip.flags % 2 == 1 || p.ip.fragOffset != 0 || QuotesForeign(p.transport.value)
            case Inbound(whole, frags, now) =>
              Upstream(Run(upIP, evs), whole, frags, now).1.UpstreamPanics?
              <==> QuotesForeign(whole.transport.value)
  {
    match e
    case Outbound(p, conn, now, wrote) => ListenKeepsInv(Run(upIP, evs), upIP, p, conn, now, wrote);
    case Inbound(whole, frags, now) => UpstreamKeepsInv(Run(upIP, evs), upIP, whole, frags, now);
  }

  /** Table coherence over every run: the entry filed under an external port or Id leads back to the
      flow that `patMap` gives this port or Id, with an inner endpoint of the protocol's kind. */
  lemma TablesCohere(upIP: IP, evs: seq<Event>, g: Guide)
    requires ValidRun(evs) && g in Run(upIP, evs).table
    ensures var s := Run(upIP, evs);
            var e := s.table[g];
            var q := FlowKey(Text(e.embSrc), e.conn.remote, g.proto);
            && EndpointOk(e.embSrc, g.proto) && InPool(g.proto, ValueOf(g.src))
            && q in s.pat && g == GuideFor(g.proto, upIP, s.pat[q])
  {
    var s := Run(upIP, evs);
    assert Coherent(s.pat, upIP, g, s.table[g]);
  }

  // ------------------------------------------------------------ quoted headers

  /** A quote shows a packet as some router saw it: only the time to live may differ. */
  predicate Quotes(q: Quote, p: Packet) {
    && p.transport == Some(q.transport)
    && q.ip.(ttl := p.ip.ttl) == p.ip
  }

  /** Rewriting the quote of a delivered packet undoes the rewriting of the packet itself. */
  lemma QuoteOutInverse(remote: Packet, inner: Addr, upIP: IP, error: Packet, conn: Conn)
    requires Parsed(remote) && remote.transport.Some? && !IsError(remote.transport.value)
    requires remote.ip.dst == upIP && EndpointOk(inner, ProtoOf(remote.transport.value))
    requires Parsed(error) && error.transport.Some? && IsError(error.transport.value)
    requires PacketIn(remote, inner).Some?
    requires Quotes(error.transport.value.quote.value, PacketIn(remote, inner).value)
    ensures !QuotesUnsupported(error.transport.value)
    ensures KeyOf(error, conn) == FlowKey(Text(inner), conn.remote, ProtoOf(remote.transport.value))
    ensures Quotes(QuoteOut(error.transport.value.quote.value, upIP, ValueOf(GuideOf(remote).src)), remote)
  {
  }

  /** `p` and `q` are errors that differ in nothing but the IPv4 header and the quote. */
  predicate SameError(p: Packet, q: Packet) {
    && p.payload == q.payload && p.transport.Some? && q.transport.Some?
    && var t, u := p.transport.value, q.transport.value;
    && t.Icmp? && u.Icmp? && t.quote.Some? && u.quote.Some?
    && u.ty == t.ty && u.id == t.id && u.rest == t.rest
  }

  /** The outcome `out` of sending `error` is this error under the server's address, to where it was
      addressed, with a quote that shows `p`. */
  predicate SentQuoting(out: ListenResult, error: Packet, p: Packet, upIP: IP) {
    && out.Sent? && out.packet.ip.src == upIP && out.packet.ip.(src := error.ip.src) == error.ip
    && SameError(error, out.packet)
    && Quotes(out.packet.transport.value.quote.value, p)
  }

  /** `error` quotes a packet that was delivered with outcome `d`, and goes through the same client. */
  predicate AnswersDelivery(d: UpstreamResult, error: Packet, conn: Conn) {
    && d.Delivered? && conn.remote == d.conn.remote
    && Parsed(error) && error.transport.Some? && IsError(error.transport.value)
    && |d.packets| == 1 && Quotes(error.transport.value.quote.value, d.packets[0])
  }

  lemma QuoteInverseBetween(s0: State, s: State, upIP: IP, remote: Packet, at: int,
                            error: Packet, conn: Conn, now: int)
    requires Inv(s0, upIP) && Inv(s, upIP) && PatExtends(s0.pat, s.pat)
    requires Parsed(remote) && remote.transport.Some? && !IsError(remote.transport.value)
    requires AnswersDelivery(Upstream(s0, remote, [remote], at).1, error, conn)
    ensures SentQuoting(Listen(s, upIP, error, conn, now, true).1, error, remote, upIP)
  {
    hide Listen, Upstream;
    var g := GuideOf(remote);
    UpstreamDelivers(s0, upIP, remote, [remote], at);
    var entry := s0.table[g];
    assert Coherent(s0.pat, upIP, g, entry);
    QuoteOutInverse(remote, entry.embSrc, upIP, error, conn);
    ListenSends(s, upIP, error, conn, now);
  }

  /** Quoted-header inverse. `remote` is a TCP, UDP or ICMPv4 query packet that is delivered to an
      inner host after `evs`; after any further events `more`, in which ports may be recycled, the
      inner host's error that quotes what was delivered is sent through the same client. The header
      that the server builds for it quotes exactly what the remote host had sent. This is about that
      header: the code stores it as the payload of the new ICMPv4 layer (main.go:832) and hands another
      payload, that of the packet it was given, to the serializer (main.go:896). */
  lemma QuotedHeaderInverse(upIP: IP, evs: seq<Event>, remote: Packet, at: int, more: seq<Event>,
                            error: Packet, conn: Conn, now: int)
    requires Parsed(remote) && remote.transport.Some? && !IsError(remote.transport.value)
    requires ValidRun(evs) && ValidRun(evs + [Inbound(remote, [remote], at)] + more)
    requires AnswersDelivery(Upstream(Run(upIP, evs), remote, [remote], at).1, error, conn)
    ensures var s := Run(upIP, evs + [Inbound(remote, [remote], at)] + more);
            SentQuoting(Listen(s, upIP, error, conn, now, true).1, error, remote, upIP)
  {
    var e := Inbound(remote, [remote], at);
    assert evs + [e] + more == evs + ([e] + more);
    PortsAreKept(upIP, evs, [e] + more);
    QuoteInverseBetween(Run(upIP, evs), Run(upIP, evs + [e] + more), upIP, remote, at, error, conn, now);
  }
}
