/**
  * The theorems of the translation put together: the first TCP flow of a server, from its first
  * packet to an error about a reply.
  */
module NatScenario {
  import opened Packets
  import opened Ports
  import opened Nat
  import opened NatRuns
  import opened NatReplies
  import opened NatFlows
  import opened NatOrder

  /** Whatever TCP packet comes first, it leaves from port 49152; whoever replies to that port reaches
      the inner host on the same connection; and the inner host's error about the reply leaves quoting
      what the remote host sent. */
  lemma FirstFlow(upIP: IP, p: Packet, conn: Conn, reply: Packet, error: Packet, now: int)
    requires Parsed(p) && p.transport.Some? && p.transport.value.Tcp?
    requires Parsed(reply) && reply.transport.Some? && reply.transport.value.Tcp?
    requires reply.ip.dst == upIP && reply.transport.value.dstPort == FIRST_PORT
    ensures var out := Outbound(p, conn, now, true);
            && ValidRun([]) && ValidRun([out]) && ValidRun([out, Inbound(reply, [reply], now)])
            && var sent := Listen(Run(upIP, []), upIP, p, conn, now, true).1;
            && sent.Sent? && sent.value == FIRST_PORT
            && Translated(p, sent.packet, TCPAddr(upIP, FIRST_PORT))
            && var got := Upstream(Run(upIP, [out]), reply, [reply], now).1;
            && got.Delivered? && got.conn == conn && |got.packets| == 1
            && Readdressed(reply, got.packets[0], TCPAddr(p.ip.src, p.transport.value.srcPort))
            && (AnswersDelivery(got, error, conn) ==>
                  SentQuoting(Listen(Run(upIP, [out, Inbound(reply, [reply], now)]), upIP, error, conn, now, true).1,
                              error, reply, upIP))
  {
    var out := Outbound(p, conn, now, true);
    assert Flows(upIP, [], TCP) == [] && Run(upIP, []) == Init();
    KthFlowGetsKthPort(upIP, [], p, conn, now);
    SentTranslated(Init(), upIP, out);
    assert [] + [out] == [out];
    hide Run, Flows, Listen, Upstream;
    RunSnoc(upIP, [], out);
    assert [out] + [] == [out];
    RoundTrip(upIP, [], out, [], reply, now);
    var got := Upstream(Run(upIP, [out]), reply, [reply], now).1;
    var back := Inbound(reply, [reply], now);
    assert [out] + [back] + [] == [out, back];
    assert ValidRun([out, back]);
    if AnswersDelivery(got, error, conn) {
      QuotedHeaderInverse(upIP, [out], reply, now, [], error, conn, now);
    }
  }
}
