/**
  * Where replies go: every inbound packet is delivered to the flow that last sent through the
  * external endpoint it is addressed to, whatever remote host it comes from.
  */
module NatReplies {
  import opened Words
  import opened Packets
  import opened Nat
  import opened NatRuns

  /** The entry that an event files under a guide: it sends a packet, not an error, through it. */
  ghost function Filed(s: State, upIP: IP, e: Event, g: Guide): Option<NatEntry>
    requires PoolsSized(s) && ValidEvent(e)
  {
    if e.Inbound? then None
    else
      var out := Listen(s, upIP, e.packet, e.conn, e.now, e.wrote).1;
      if out.Sent? && e.packet.transport.Some? && !IsError(e.packet.transport.value)
         && GuideFor(ProtoOf(e.packet.transport.value), upIP, out.value) == g
      then Some(NatEntry(e.conn.remote, SrcEndpoint(e.packet.ip, e.packet.transport.value), e.conn))
      else None
  }

  /** The last sender through an external endpoint, read off the events of a run. */
  ghost function LastSender(upIP: IP, evs: seq<Event>, g: Guide): Option<NatEntry>
    requires ValidRun(evs)
  {
    if evs == [] then None
    else
      var init, e := evs[..|evs| - 1], evs[|evs| - 1];
      var f := Filed(Run(upIP, init), upIP, e, g);
      if f.Some? then f else LastSender(upIP, init, g)
  }

  lemma StepFiles(s: State, upIP: IP, e: Event, g: Guide)
    requires Inv(s, upIP) && ValidEvent(e)
    ensures var f, s' := Filed(s, upIP, e, g), Step(s, upIP, e);
            if f.Some? then g in s'.table && s'.table[g] == f.value
            else (g in s'.table <==> g in s.table) && (g in s.table ==> s'.table[g] == s.table[g])
  {
    match e
    case Outbound(p, conn, now, wrote) => ListenEffect(s, upIP, p, conn, now, wrote);
    case Inbound(whole, frags, now) => UpstreamKeepsInv(s, upIP, whole, frags, now);
  }

  /** The table `nat` is the record of last senders, in every reachable state. */
  lemma {:induction false} TableIsLastSender(upIP: IP, evs: seq<Event>, g: Guide)
    requires ValidRun(evs)
    ensures var table := Run(upIP, evs).table;
            LastSender(upIP, evs, g) == if g in table then Some(table[g]) else None
  {
    if evs != [] {
      var init, e := evs[..|evs| - 1], evs[|evs| - 1];
      TableIsLastSender(upIP, init, g);
      StepFiles(Run(upIP, init), upIP, e, g);
    }
  }

  /** From event number `from` on, nobody sends through the endpoint but as `entry` says. */
  ghost predicate OnlyBy(upIP: IP, evs: seq<Event>, from: nat, g: Guide, entry: NatEntry)
    requires ValidRun(evs)
  {
    forall i | from <= i < |evs| ::
      var f := Filed(Run(upIP, evs[..i]), upIP, evs[i], g);
      f.Some? ==> f.value == entry
  }

  lemma {:induction false} LastSenderStays(upIP: IP, evs: seq<Event>, from: nat, g: Guide, entry: NatEntry)
    requires ValidRun(evs) && from <= |evs| && OnlyBy(upIP, evs, from, g, entry)
    requires LastSender(upIP, evs[..from], g) == Some(entry)
    ensures LastSender(upIP, evs, g) == Some(entry)
  {
    if from == |evs| {
      assert evs[..from] == evs;
    } else {
      var init := evs[..|evs| - 1];
      assert init[..from] == evs[..from];
      hide Filed, Run;
      forall i | from <= i < |init|
        ensures var f := Filed(Run(upIP, init[..i]), upIP, init[i], g); f.Some? ==> f.value == entry
      {
        assert init[..i] == evs[..i] && init[i] == evs[i];
      }
      LastSenderStays(upIP, init, from, g, entry);
    }
  }

  /** Right after it has sent a packet, not an error, a flow is the last sender. */
  lemma SenderFiles(upIP: IP, evs: seq<Event>, out: Event)
    requires ValidRun(evs) && ValidEvent(out) && out.Outbound?
    requires out.packet.transport.Some? && !IsError(out.packet.transport.value)
    requires Listen(Run(upIP, evs), upIP, out.packet, out.conn, out.now, out.wrote).1.Sent?
    ensures ValidRun(evs + [out])
    ensures var v := Listen(Run(upIP, evs), upIP, out.packet, out.conn, out.now, out.wrote).1.value;
            var g := GuideFor(ProtoOf(out.packet.transport.value), upIP, v);
            LastSender(upIP, evs + [out], g) == Some(EntryOf(out))
  {
    hide Listen, Run, GuideFor;
    assert (evs + [out])[..|evs|] == evs;
  }

  /** What a sent packet, not an error, leaves behind: whoever it is from, he is the last sender
      through the endpoint it left from, until somebody else sends through it. */
  lemma SenderStays(upIP: IP, evs: seq<Event>, out: Event, more: seq<Event>)
    requires ValidRun(evs) && ValidRun(evs + [out] + more) && ValidEvent(out) && out.Outbound?
    requires out.packet.transport.Some? && !IsError(out.packet.transport.value)
    requires var r := Listen(Run(upIP, evs), upIP, out.packet, out.conn, out.now, out.wrote).1;
             && r.Sent?
             && OnlyBy(upIP, evs + [out] + more, |evs| + 1,
                       GuideFor(ProtoOf(out.packet.transport.value), upIP, r.value), EntryOf(out))
    ensures var r := Listen(Run(upIP, evs), upIP, out.packet, out.conn, out.now, out.wrote).1;
            var g := GuideFor(ProtoOf(out.packet.transport.value), upIP, r.value);
            LastSender(upIP, evs + [out] + more, g) == Some(EntryOf(out))
  {
    hide OnlyBy, LastSender, Run, Listen, EntryOf, GuideFor, IsError, ProtoOf;
    var v := Listen(Run(upIP, evs), upIP, out.packet, out.conn, out.now, out.wrote).1.value;
    SenderFiles(upIP, evs, out);
    assert (evs + [out] + more)[..|evs| + 1] == evs + [out];
    LastSenderStays(upIP, evs + [out] + more, |evs| + 1,
                    GuideFor(ProtoOf(out.packet.transport.value), upIP, v), EntryOf(out));
  }

  /** The entry that a packet which is no error files. */
  function EntryOf(out: Event): NatEntry
    requires ValidEvent(out) && out.Outbound?
    requires out.packet.transport.Some? && !IsError(out.packet.transport.value)
  {
    NatEntry(out.conn.remote, SrcEndpoint(out.packet.ip, out.packet.transport.value), out.conn)
  }

  /** `p` readdressed to `inner`: nothing but the destination address and port or Id changes. */
  predicate Readdressed(p: Packet, q: Packet, inner: Addr) {
    && p.transport.Some? && q.transport.Some?
    && ProtoOf(q.transport.value) == ProtoOf(p.transport.value)
    && DstEndpoint(q.ip, q.transport.value) == inner
    && q.ip.(dst := p.ip.dst) == p.ip && q.payload == p.payload
    && q.transport.value.rest == p.transport.value.rest
    && (if p.transport.value.Icmp?
        then q.transport.value.ty == p.transport.value.ty
        else SrcEndpoint(q.ip, q.transport.value) == SrcEndpoint(p.ip, p.transport.value))
  }

  /** `q` is `p` as sent from `external`: nothing but the source address and port or Id changes. */
  predicate Translated(p: Packet, q: Packet, external: Addr) {
    && p.transport.Some? && q.transport.Some?
    && ProtoOf(q.transport.value) == ProtoOf(p.transport.value)
    && SrcEndpoint(q.ip, q.transport.value) == external
    && q.ip.(src := p.ip.src) == p.ip && q.payload == p.payload
    && q.transport.value.rest == p.transport.value.rest
    && (if p.transport.value.Icmp?
        then q.transport.value.ty == p.transport.value.ty
        else DstEndpoint(q.ip, q.transport.value) == DstEndpoint(p.ip, p.transport.value))
  }

  /** `q` is the error `p` as sent by the server for the flow of `external`: its own source becomes that
      of the server, and the destination of the packet that it quotes becomes `external`. */
  predicate ErrorTranslated(p: Packet, q: Packet, external: Addr) {
    && q.ip.src == external.ip && q.ip.(src := p.ip.src) == p.ip
    && SameError(p, q)
    && var a, b := p.transport.value.quote.value, q.transport.value.quote.value;
    && b.ip.(dst := a.ip.dst) == a.ip
    && SameButDst(a.transport, b.transport) && DstEndpoint(b.ip, b.transport) == external
  }

  /** `q` is the error `p` as delivered to the host at `inner`: its own destination becomes that host,
      and the source of the packet that it quotes becomes `inner`. */
  predicate ErrorReaddressed(p: Packet, q: Packet, inner: Addr) {
    && q.ip.dst == inner.ip && q.ip.(dst := p.ip.dst) == p.ip
    && SameError(p, q)
    && var a, b := p.transport.value.quote.value, q.transport.value.quote.value;
    && b.ip.(src := a.ip.src) == a.ip
    && SameButSrc(a.transport, b.transport) && SrcEndpoint(b.ip, b.transport) == inner
  }

  /** Two headers that differ in the destination port at most, or, of a query, in the Id. */
  predicate SameButDst(t: Transport, u: Transport) {
    && ProtoOf(u) == ProtoOf(t) && u.rest == t.rest
    && (if t.Icmp? then u.ty == t.ty && u.quote == t.quote else u.srcPort == t.srcPort)
  }

  predicate SameButSrc(t: Transport, u: Transport) {
    && ProtoOf(u) == ProtoOf(t) && u.rest == t.rest
    && (if t.Icmp? then u.ty == t.ty && u.quote == t.quote else u.dstPort == t.dstPort)
  }

  function External(p: Proto, upIP: IP, value: U16): Addr {
    match p
    case TCP => TCPAddr(upIP, value)
    case UDP => UDPAddr(upIP, value)
    case ICMPv4 => ICMPQueryAddr(upIP, value)
  }

  /** Every packet of a flow leaves from the one external endpoint of that flow, for as long as the
      server runs and wherever the packet goes; nothing else in it changes. */
  lemma OutboundTranslation(upIP: IP, evs: seq<Event>, out: Event, more: seq<Event>, again: Event)
    requires ValidRun(evs + [out] + more) && ValidRun(evs) && ValidEvent(out) && ValidEvent(again)
    requires out.Outbound? && out.packet.transport.Some? && !IsError(out.packet.transport.value)
    requires again.Outbound? && again.packet.transport.Some? && !IsError(again.packet.transport.value)
    requires KeyOf(again.packet, again.conn) == KeyOf(out.packet, out.conn)
    requires Listen(Run(upIP, evs), upIP, out.packet, out.conn, out.now, out.wrote).1.Sent? && again.wrote
    ensures var first := Listen(Run(upIP, evs), upIP, out.packet, out.conn, out.now, out.wrote).1;
            var second := Listen(Run(upIP, evs + [out] + more), upIP, again.packet, again.conn, again.now, true).1;
            var external := External(ProtoOf(out.packet.transport.value), upIP, first.value);
            && Translated(out.packet, first.packet, external)
            && second.Sent? && Translated(again.packet, second.packet, external)
  {
    RunSnoc(upIP, evs, out);
    PortsAreKept(upIP, evs + [out], more);
    SentTranslated(Run(upIP, evs), upIP, out);
    SentAgain(Run(upIP, evs), Run(upIP, evs + [out] + more), upIP, out, again);
  }

  /** An error of an inner host, after any run: it is sent exactly when the flow that it is about has
      a port or Id, and then as that flow's, to the remote host that it is addressed to. */
  lemma OutboundError(upIP: IP, evs: seq<Event>, error: Packet, conn: Conn, now: int)
    requires ValidRun(evs) && Parsed(error) && error.transport.Some? && IsError(error.transport.value)
    requires !QuotesUnsupported(error.transport.value)
    ensures var s, key := Run(upIP, evs), KeyOf(error, conn);
            var r := Listen(s, upIP, error, conn, now, true).1;
            if key in s.pat
            then r.Sent? && r.value == s.pat[key]
                 && ErrorTranslated(error, r.packet, External(key.proto, upIP, s.pat[key]))
            else r.Refused?
  {
    var s, key := Run(upIP, evs), KeyOf(error, conn);
    if key in s.pat {
      ListenSends(s, upIP, error, conn, now);
      assert KindOk(key.src, key.proto);
      ErrorOut(error, conn, upIP, s.pat[key]);
      hide Run, Listen, PacketOut, ErrorTranslated, Inv, KeyOf;
    } else {
      ListenStages(s, upIP, error, conn, now, true);
      hide Run, Listen, PacketOut, Inv, KeyOf, Record, Touch;
    }
  }

  lemma ErrorOut(error: Packet, conn: Conn, upIP: IP, v: U16)
    requires Parsed(error) && error.transport.Some? && IsError(error.transport.value)
    requires !QuotesUnsupported(error.transport.value)
    requires var key := KeyOf(error, conn); KindOk(key.src, key.proto)
    ensures ErrorTranslated(error, PacketOut(error, error.transport.value, upIP, v),
                            External(KeyOf(error, conn).proto, upIP, v))
  {
  }

  lemma SentTranslated(s: State, upIP: IP, out: Event)
    requires Inv(s, upIP) && ValidEvent(out)
    requires out.Outbound? && out.packet.transport.Some? && !IsError(out.packet.transport.value)
    requires Listen(s, upIP, out.packet, out.conn, out.now, out.wrote).1.Sent?
    ensures var r := Listen(s, upIP, out.packet, out.conn, out.now, out.wrote).1;
            Translated(out.packet, r.packet, External(ProtoOf(out.packet.transport.value), upIP, r.value))
  {
    ListenEffect(s, upIP, out.packet, out.conn, out.now, out.wrote);
  }

  lemma SentAgain(s: State, s': State, upIP: IP, out: Event, again: Event)
    requires Inv(s, upIP) && Inv(s', upIP) && ValidEvent(out) && ValidEvent(again)
    requires out.Outbound? && out.packet.transport.Some? && !IsError(out.packet.transport.value)
    requires again.Outbound? && again.packet.transport.Some? && !IsError(again.packet.transport.value)
    requires KeyOf(again.packet, again.conn) == KeyOf(out.packet, out.conn)
    requires Listen(s, upIP, out.packet, out.conn, out.now, out.wrote).1.Sent?
    requires PatExtends(Step(s, upIP, out).pat, s'.pat)
    ensures var first := Listen(s, upIP, out.packet, out.conn, out.now, out.wrote).1;
            var second := Listen(s', upIP, again.packet, again.conn, again.now, true).1;
            && second.Sent?
            && Translated(again.packet, second.packet, External(ProtoOf(out.packet.transport.value), upIP, first.value))
  {
    ListenEffect(s, upIP, out.packet, out.conn, out.now, out.wrote);
    hide Listen;
    ListenSends(s', upIP, again.packet, again.conn, again.now);
  }

  /** After any run, an unfragmented TCP, UDP or query packet is delivered exactly when somebody
      has sent through the endpoint it is addressed to; it then reaches the last such sender, on
      its connection and with its inner address and port or Id. The remote host plays no part. */
  lemma ReplyReachesLastSender(upIP: IP, evs: seq<Event>, reply: Packet, now: int)
    requires ValidRun(evs)
    requires Parsed(reply) && reply.transport.Some? && !IsError(reply.transport.value)
    ensures var r := Upstream(Run(upIP, evs), reply, [reply], now).1;
            match LastSender(upIP, evs, GuideOf(reply))
            case None => r.Ignored?
            case Some(entry) =>
              r.Delivered? && r.conn == entry.conn && |r.packets| == 1
              && Readdressed(reply, r.packets[0], entry.embSrc)
  {
    var s := Run(upIP, evs);
    TableIsLastSender(upIP, evs, GuideOf(reply));
    UpstreamDelivers(s, upIP, reply, [reply], now);
    if GuideOf(reply) in s.table {
      assert Coherent(s.pat, upIP, GuideOf(reply), s.table[GuideOf(reply)]);
    }
  }

  /** Endpoint-independent round trip: a packet of a flow has been sent, and whatever happens after
      it, in `more`, nobody else sends through the source it was sent from. Then a reply from any
      remote host to that source comes back to that flow on the same connection. */
  lemma RoundTrip(upIP: IP, evs: seq<Event>, out: Event, more: seq<Event>, reply: Packet, now: int)
    requires ValidRun(evs) && ValidRun(evs + [out] + more) && ValidEvent(out) && out.Outbound?
    requires out.packet.transport.Some? && !IsError(out.packet.transport.value)
    requires Parsed(reply) && reply.transport.Some? && !IsError(reply.transport.value)
    requires var r := Listen(Run(upIP, evs), upIP, out.packet, out.conn, out.now, out.wrote).1;
             && r.Sent? && r.packet.transport.Some?
             && DstEndpoint(reply.ip, reply.transport.value)
                == SrcEndpoint(r.packet.ip, r.packet.transport.value)
             && OnlyBy(upIP, evs + [out] + more, |evs| + 1,
                       GuideFor(ProtoOf(out.packet.transport.value), upIP, r.value), EntryOf(out))
    ensures var r := Upstream(Run(upIP, evs + [out] + more), reply, [reply], now).1;
            && r.Delivered? && r.conn == out.conn && |r.packets| == 1
            && Readdressed(reply, r.packets[0], SrcEndpoint(out.packet.ip, out.packet.transport.value))
  {
    var v := Listen(Run(upIP, evs), upIP, out.packet, out.conn, out.now, out.wrote).1.value;
    assert GuideOf(reply) == GuideFor(ProtoOf(out.packet.transport.value), upIP, v);
    hide OnlyBy, LastSender, Run, Upstream;
    SenderStays(upIP, evs, out, more);
    ReplyReachesLastSender(upIP, evs + [out] + more, reply, now);
  }

  /** The types of ICMPv4 requests and of their replies (RFC 792, RFC 950 and RFC 1256). */
  predicate RepliesTo(reply: nat, request: nat) {
    (request, reply) in {(8, 0), (13, 14), (15, 16), (17, 18), (10, 9)}
  }

  /** Every kind of ICMPv4 request makes the round trip: the reply is parsed, and it comes back. */
  lemma RequestRoundTrip(upIP: IP, evs: seq<Event>, out: Event, more: seq<Event>, reply: Packet, now: int)
    requires ValidRun(evs) && ValidRun(evs + [out] + more) && ValidEvent(out) && out.Outbound?
    requires out.packet.transport.Some? && out.packet.transport.value.Icmp?
    requires !IsFragment(reply.ip) && reply.transport.Some? && reply.transport.value.Icmp?
    requires RepliesTo(reply.transport.value.ty, out.packet.transport.value.ty) && reply.transport.value.quote.None?
    requires var r := Listen(Run(upIP, evs), upIP, out.packet, out.conn, out.now, out.wrote).1;
             && r.Sent? && r.packet.transport.Some? && r.packet.transport.value.Icmp?
             && reply.ip.dst == r.packet.ip.src && reply.transport.value.id == r.packet.transport.value.id
             && OnlyBy(upIP, evs + [out] + more, |evs| + 1, GuideFor(ICMPv4, upIP, r.value), EntryOf(out))
    ensures Parsed(reply)
    ensures var r := Upstream(Run(upIP, evs + [out] + more), reply, [reply], now).1;
            && r.Delivered? && r.conn == out.conn && |r.packets| == 1
            && Readdressed(reply, r.packets[0],
                           ICMPQueryAddr(out.packet.ip.src, out.packet.transport.value.id))
  {
    SentTranslated(Run(upIP, evs), upIP, out);
    hide Run, Listen, Upstream, OnlyBy;
    RoundTrip(upIP, evs, out, more, reply, now);
  }

  // ------------------------------------------------------------ inbound errors

  /** An inbound error is looked up under the outer protocol. It is delivered exactly when it quotes
      an ICMPv4 query of a flow with an entry, and then to the last sender, with nothing changed but
      the addresses and the Id quoted; an error about TCP or UDP is never delivered. */
  lemma InboundErrorDelivery(upIP: IP, evs: seq<Event>, error: Packet, now: int)
    requires ValidRun(evs)
    requires Parsed(error) && error.transport.Some? && IsError(error.transport.value)
    ensures var r := Upstream(Run(upIP, evs), error, [error], now).1;
            var q := error.transport.value.quote.value;
            && (r.Delivered? <==> IsQuery(q.transport)
                                  && LastSender(upIP, evs, Guide(HostId(q.ip.src, q.transport.id), ICMPv4)).Some?)
            && (!q.transport.Icmp? ==> r.Ignored?)
            && (r.Delivered? ==>
                  var entry := LastSender(upIP, evs, Guide(HostId(q.ip.src, q.transport.id), ICMPv4)).value;
                  && r.conn == entry.conn && |r.packets| == 1
                  && ErrorReaddressed(error, r.packets[0], entry.embSrc))
  {
    var s := Run(upIP, evs);
    UpstreamKeepsInv(s, upIP, error, [error], now);
    if !QuotesUnsupported(error.transport.value) {
      TableIsLastSender(upIP, evs, GuideOf(error));
      hide Run, LastSender, ErrorReaddressed, Upstream;
      ErrorLookup(s, upIP, error, now);
    }
  }

  /** Where an inbound error is looked up, and what becomes of it. */
  lemma ErrorLookup(s: State, upIP: IP, error: Packet, now: int)
    requires Inv(s, upIP) && Parsed(error) && error.transport.Some? && IsError(error.transport.value)
    requires !QuotesUnsupported(error.transport.value)
    ensures var r, g := Upstream(s, error, [error], now).1, GuideOf(error);
            var q := error.transport.value.quote.value;
            && (IsQuery(q.transport) ==> g == Guide(HostId(q.ip.src, q.transport.id), ICMPv4))
            && (if g in s.table
                then IsQuery(q.transport) && r.Delivered? && r.conn == s.table[g].conn && |r.packets| == 1
                     && ErrorReaddressed(error, r.packets[0], s.table[g].embSrc)
                else r.Ignored?)
  {
    UpstreamDelivers(s, upIP, error, [error], now);
    if GuideOf(error) in s.table {
      FoundEntryFits(s, upIP, error);
      assert Coherent(s.pat, upIP, GuideOf(error), s.table[GuideOf(error)]);
      ErrorIn(error, s.table[GuideOf(error)].embSrc);
      hide Upstream, PacketIn, ErrorReaddressed, Inv;
    }
  }

  lemma ErrorIn(error: Packet, inner: Addr)
    requires Parsed(error) && error.transport.Some? && IsError(error.transport.value)
    requires IsQuery(error.transport.value.quote.value.transport) && inner.ICMPQueryAddr?
    ensures PacketIn(error, inner).Some? && ErrorReaddressed(error, PacketIn(error, inner).value, inner)
  {
  }

  /** The inbound mirror of the quoted-header inverse: as long as nobody else sends through its Id, an
      error about a sent query comes back quoting exactly what the inner host had sent. */
  lemma QueryErrorInverse(upIP: IP, evs: seq<Event>, out: Event, more: seq<Event>, error: Packet, now: int)
    requires ValidRun(evs) && ValidRun(evs + [out] + more) && ValidEvent(out) && out.Outbound?
    requires out.packet.transport.Some? && IsQuery(out.packet.transport.value)
    requires Parsed(error) && error.transport.Some? && IsError(error.transport.value)
    requires var r := Listen(Run(upIP, evs), upIP, out.packet, out.conn, out.now, out.wrote).1;
             && r.Sent? && Quotes(error.transport.value.quote.value, r.packet)
             && OnlyBy(upIP, evs + [out] + more, |evs| + 1, GuideFor(ICMPv4, upIP, r.value), EntryOf(out))
    ensures var r := Upstream(Run(upIP, evs + [out] + more), error, [error], now).1;
            && r.Delivered? && r.conn == out.conn && |r.packets| == 1
            && r.packets[0].ip.dst == out.packet.ip.src && r.packets[0].ip.(dst := error.ip.dst) == error.ip
            && SameError(error, r.packets[0])
            && Quotes(r.packets[0].transport.value.quote.value, out.packet)
  {
    var v := Listen(Run(upIP, evs), upIP, out.packet, out.conn, out.now, out.wrote).1.value;
    ListenEffect(Run(upIP, evs), upIP, out.packet, out.conn, out.now, out.wrote);
    hide OnlyBy, LastSender, Run, Upstream;
    SenderStays(upIP, evs, out, more);
    hide Listen;
    QuoteInInverse(out.packet, upIP, v, error);
    TableIsLastSender(upIP, evs + [out] + more, GuideOf(error));
    UpstreamDelivers(Run(upIP, evs + [out] + more), upIP, error, [error], now);
  }

  /** Rewriting the quote of a sent query undoes the rewriting of the query itself. */
  lemma QuoteInInverse(p: Packet, upIP: IP, v: U16, error: Packet)
    requires Parsed(p) && p.transport.Some? && IsQuery(p.transport.value)
    requires Parsed(error) && error.transport.Some? && IsError(error.transport.value)
    requires Quotes(error.transport.value.quote.value, PacketOut(p, p.transport.value, upIP, v))
    ensures !QuotesUnsupported(error.transport.value)
    ensures GuideOf(error) == GuideFor(ICMPv4, upIP, v)
    ensures var back := PacketIn(error, SrcEndpoint(p.ip, p.transport.value));
            && back.Some? && back.value.ip.dst == p.ip.src && back.value.ip.(dst := error.ip.dst) == error.ip
            && SameError(error, back.value)
            && Quotes(back.value.transport.value.quote.value, p)
  {
  }

  /** The pieces of a fragmented reply carry no transport layer, so only their destination address
      is rewritten: the port inside the first piece stays the external one. */
  lemma FragmentsKeepExternalPort(upIP: IP, evs: seq<Event>, whole: Packet, frags: seq<Packet>, now: int)
    requires ValidRun(evs) && Arrived(whole, frags) && frags != [whole]
    requires Upstream(Run(upIP, evs), whole, frags, now).1.Delivered?
    ensures var out := Upstream(Run(upIP, evs), whole, frags, now).1.packets;
            |out| == |frags|
            && forall i | 0 <= i < |frags| ::
                 out[i].payload == frags[i].payload && out[i].transport.None?
                 && out[i].ip == frags[i].ip.(dst := Run(upIP, evs).table[GuideOf(whole)].embSrc.ip)
  {
    UpstreamKeepsInv(Run(upIP, evs), upIP, whole, frags, now);
    UpstreamDelivers(Run(upIP, evs), upIP, whole, frags, now);
  }
}
