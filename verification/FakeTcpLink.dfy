/**
  * Two ends of a FakeTCP connection over lossless FIFO channels: a client that dials, a server that
  * accepts, and any interleaving of writes, reconnects and deliveries.
  */
module FakeTcpLink {
  import opened Words
  import opened Segments
  import opened FakeTcp

  /** The sequence space that a packet takes: one for a SYN, and its bytes. */
  function Space(p: Segment): nat {
    (if p.tcp.syn then 1 else 0) + |p.payload|
  }

  ghost function SpaceOf(channel: seq<Segment>): nat {
    if channel == [] then 0 else SpaceOf(channel[..|channel| - 1]) + Space(channel[|channel| - 1])
  }

  /** The packets in a channel follow one another in sequence, from `first` to `next`. */
  ghost predicate Chain(channel: seq<Segment>, first: U32, next: U32) {
    if channel == [] then next == first
    else
      var p := channel[|channel| - 1];
      Chain(channel[..|channel| - 1], first, p.tcp.seq_) && next == Wrap32(p.tcp.seq_ + Space(p))
  }

  lemma ChainSnoc(channel: seq<Segment>, p: Segment, first: U32, next: U32)
    requires Chain(channel, first, p.tcp.seq_) && next == Wrap32(p.tcp.seq_ + Space(p))
    ensures Chain(channel + [p], first, next)
  {
    assert (channel + [p])[..|channel|] == channel;
  }

  /** Taking the first packet off a channel moves the start past it. */
  lemma {:induction false} ChainTail(channel: seq<Segment>, first: U32, next: U32)
    requires Chain(channel, first, next) && channel != []
    ensures channel[0].tcp.seq_ == first
    ensures Chain(channel[1..], Wrap32(first + Space(channel[0])), next)
  {
    hide Wrap32;
    var n := |channel| - 1;
    if n > 0 {
      var p := channel[n];
      ChainTail(channel[..n], first, p.tcp.seq_);
      assert channel[..n][1..] + [p] == channel[1..];
      ChainSnoc(channel[..n][1..], p, Wrap32(first + Space(channel[0])), next);
    } else {
      assert Chain(channel[..0], first, channel[0].tcp.seq_);
    }
  }

  /** A chain adds up: its start plus the sequence space in flight is its end, modulo 2^32. */
  lemma {:induction false} ChainAddsUp(channel: seq<Segment>, first: U32, next: U32)
    requires Chain(channel, first, next)
    ensures next == Wrap32(first + SpaceOf(channel))
  {
    if channel == [] {
      assert Wrap32(first + 0) == first;
    } else {
      var n := |channel| - 1;
      var p := channel[n];
      ChainAddsUp(channel[..n], first, p.tcp.seq_);
      hide Wrap32;
      WrapAdd32(first + SpaceOf(channel[..n]), Space(p));
    }
  }

  // ------------------------------------------------------------ the two ends

  datatype Side = Dialer | Accepter

  // One end: its connection, what it still has to receive, and, for the specification only, the
  // contents it has been given to write and those it has read.
  datatype End = End(state: State, inbox: seq<Segment>, written: seq<seq<Byte>>, read: seq<seq<Byte>>)

  datatype World = World(dialer: End, accepter: End)

  ghost predicate Paired(cd: Config, ca: Config) {
    && Usable(cd) && Usable(ca) && cd.remote == ca.local && ca.remote == cd.local && cd.local != ca.local
    && (forall b :: ca.dec(cd.enc(b)) == Some(b)) && (forall b :: cd.dec(ca.enc(b)) == Some(b))
  }

  function Blank(): End {
    End(State(map[], 0, false, false), [], [], [])
  }

  function Known(cfg: Config, e: End): bool {
    cfg.remote in e.state.clients
  }

  function SeqOf(cfg: Config, e: End): U32 {
    ClientOf(e.state, cfg.remote).seq_
  }

  function AckOf(cfg: Config, e: End): U32 {
    ClientOf(e.state, cfg.remote).ack_
  }

  /** A packet that an end sends: from its address to the other one, no RST, and a SYN is empty. */
  ghost predicate Proper(p: Segment, cfg: Config) {
    && Src(p) == cfg.local && p.ip.dst == cfg.remote.ip && p.tcp.dstPort == cfg.remote.port
    && !p.tcp.rst && (p.tcp.syn ==> p.payload == []) && |p.payload| <= cfg.mtu
  }

  ghost predicate AllProper(channel: seq<Segment>, cfg: Config) {
    forall k | 0 <= k < |channel| :: Proper(channel[k], cfg)
  }

  /** What a packet carries, for the receiver: nothing when it has no payload. */
  ghost function Carries(p: Segment, dec: seq<Byte> -> Option<seq<Byte>>): seq<seq<Byte>> {
    if p.payload == [] || dec(p.payload).None? then [] else [dec(p.payload).value]
  }

  /** The contents of the data packets in a channel. */
  ghost function Contents(channel: seq<Segment>, dec: seq<Byte> -> Option<seq<Byte>>): seq<seq<Byte>> {
    if channel == [] then []
    else
      var p := channel[|channel| - 1];
      Contents(channel[..|channel| - 1], dec) + Carries(p, dec)
  }

  lemma ContentsSnoc(channel: seq<Segment>, p: Segment, dec: seq<Byte> -> Option<seq<Byte>>)
    ensures Contents(channel + [p], dec) == Contents(channel, dec) + Carries(p, dec)
  {
    assert (channel + [p])[..|channel|] == channel;
  }

  lemma ContentsAppendOne(a: seq<Segment>, init: seq<Segment>, last: Segment, dec: seq<Byte> -> Option<seq<Byte>>)
    requires Contents(a + init, dec) == Contents(a, dec) + Contents(init, dec)
    ensures Contents(a + (init + [last]), dec) == Contents(a, dec) + Contents(init + [last], dec)
  {
    hide Contents, Carries;
    ContentsSnoc(a + init, last, dec);
    ContentsSnoc(init, last, dec);
    assert (a + init) + [last] == a + (init + [last]);
    Associative(Contents(a, dec), Contents(init, dec), Carries(last, dec));
  }

  lemma {:induction false} ContentsAppend(a: seq<Segment>, b: seq<Segment>, dec: seq<Byte> -> Option<seq<Byte>>)
    ensures Contents(a + b, dec) == Contents(a, dec) + Contents(b, dec)
  {
    if b == [] {
      assert a + b == a;
    } else {
      hide *;
      ContentsAppend(a, b[..|b| - 1], dec);
      ContentsAppendOne(a, b[..|b| - 1], b[|b| - 1], dec);
      assert b[..|b| - 1] + [b[|b| - 1]] == b;
    }
  }

  lemma ContentsTail(channel: seq<Segment>, dec: seq<Byte> -> Option<seq<Byte>>)
    requires channel != []
    ensures Contents(channel, dec) == Carries(channel[0], dec) + Contents(channel[1..], dec)
  {
    hide Carries;
    ContentsSnoc([], channel[0], dec);
    assert [] + [channel[0]] == [channel[0]] && [channel[0]] + channel[1..] == channel;
    ContentsAppend([channel[0]], channel[1..], dec);
  }

  /** One direction, from `from` to `to`: the packets in flight lead from what the receiver expects
      to what the sender will send next, and what has been read, followed by what is in flight, is
      what has been written. A receiver that knows nothing of the sender expects 0 and a SYN. */
  ghost predicate InStep(cf: Config, from: End, ct: Config, to: End) {
    && Chain(to.inbox, AckOf(ct, to), SeqOf(cf, from))
    && AllProper(to.inbox, cf)
    && to.read + Contents(to.inbox, ct.dec) == from.written
    && (!Known(cf, from) ==> to.inbox == [] && SeqOf(cf, from) == 0)
    && (!Known(ct, to) && to.inbox != [] ==> to.inbox[0].tcp.syn && !to.inbox[0].tcp.ack)
  }

  ghost predicate Agreement(cd: Config, ca: Config, w: World) {
    && InStep(cd, w.dialer, ca, w.accepter)
    && InStep(ca, w.accepter, cd, w.dialer)
    && (Known(ca, w.accepter) ==> Known(cd, w.dialer))
    && (Known(cd, w.dialer) ==> Known(ca, w.accepter) || w.accepter.inbox != [])
  }

  /** An end sends packets that follow its sequence number; the receiver is not concerned yet. */
  lemma SendKeeps(cf: Config, from: End, ct: Config, to: End, p: Segment, from': End, more: seq<seq<Byte>>)
    requires InStep(cf, from, ct, to) && Proper(p, cf) && Known(cf, from')
    requires p.tcp.seq_ == SeqOf(cf, from) && SeqOf(cf, from') == Wrap32(p.tcp.seq_ + Space(p))
    requires from'.written == from.written + more
    requires more == Carries(p, ct.dec)
    requires !Known(ct, to) && to.inbox == [] ==> p.tcp.syn && !p.tcp.ack
    ensures InStep(cf, from', ct, to.(inbox := to.inbox + [p]))
  {
    var to' := to.(inbox := to.inbox + [p]);
    assert Known(ct, to') == Known(ct, to) && AckOf(ct, to') == AckOf(ct, to);
    assert to.inbox != [] ==> to'.inbox[0] == to.inbox[0];
    hide Wrap32, Proper, Space, Known, SeqOf, AckOf, Carries;
    AllProperSnoc(to.inbox, p, cf);
    hide AllProper;
    ChainSnoc(to.inbox, p, AckOf(ct, to), SeqOf(cf, from'));
    ContentsSnoc(to.inbox, p, ct.dec);
    hide Chain, Contents;
    Associative(to.read, Contents(to.inbox, ct.dec), more);
  }

  lemma AllProperSnoc(channel: seq<Segment>, p: Segment, cfg: Config)
    requires AllProper(channel, cfg) && Proper(p, cfg)
    ensures AllProper(channel + [p], cfg)
  {
    hide Proper;
  }

  /** An end takes the first packet of its inbox. */
  lemma TakeKeeps(cf: Config, from: End, ct: Config, to: End, to': End)
    requires InStep(cf, from, ct, to) && to.inbox != [] && Known(ct, to')
    requires to'.inbox == to.inbox[1..]
    requires var p := to.inbox[0];
             && AckOf(ct, to') == Wrap32(p.tcp.seq_ + Space(p))
             && to'.read == to.read + Carries(p, ct.dec)
    ensures InStep(cf, from, ct, to')
  {
    assert AllProper(to.inbox[1..], cf);
    hide Wrap32, Proper, AllProper, Space;
    ChainTail(to.inbox, AckOf(ct, to), SeqOf(cf, from));
    ContentsTail(to.inbox, ct.dec);
    hide Chain, Contents, Carries, SeqOf, AckOf;
    Associative(to.read, Carries(to.inbox[0], ct.dec), Contents(to.inbox[1..], ct.dec));
  }

  // ------------------------------------------------------------ steps

  datatype Action =
    | Syn(side: Side, again: bool)
    | Put(side: Side, bytes: seq<Byte>)
    | Take(side: Side)

  /** An end dials or reconnects: its new state, and the inbox of the other end. */
  function SynEnd(cf: Config, from: End, again: bool): (End, Segment) {
    var (s, p) := if again then Reconnect(cf, from.state) else HandshakeSYN(cf, from.state);
    (from.(state := s), p)
  }

  /** An end writes. */
  function PutEnd(cf: Config, from: End, bytes: seq<Byte>): (End, seq<Segment>)
    requires cf.mtu > 40
  {
    var (s, sent, ok) := Write(cf, from.state, cf.remote, bytes);
    (from.(state := s, written := from.written + if ok && cf.enc(bytes) != [] then [bytes] else []), sent)
  }

  /** An end takes the next packet: the listener of an accepter that does not know the client yet
      sees only a SYN, and accepts it; otherwise the connection reads the packet. */
  function TakeEnd(ct: Config, to: End, accepts: bool): (End, seq<Segment>)
    requires to.inbox != []
  {
    var got, rest := to.inbox[0], to.(inbox := to.inbox[1..]);
    if accepts && !Known(ct, to) then
      if got.tcp.syn then var (s, p) := Accept(ct, got); (rest.(state := s), [p]) else (rest, [])
    else
      var (s, sent, r) := Receive(ct, to.state, got);
      (rest.(state := s, read := to.read + if r.Data? then [r.contents] else []), sent)
  }

  lemma SynKeeps(cf: Config, from: End, ct: Config, to: End, again: bool)
    requires Usable(cf) && cf.local == ct.remote && ct.local == cf.remote
    requires InStep(cf, from, ct, to) && InStep(ct, to, cf, from)
    ensures var (from', p) := SynEnd(cf, from, again);
            var to' := to.(inbox := to.inbox + [p]);
            InStep(cf, from', ct, to') && InStep(ct, to', cf, from') && Known(cf, from')
  {
    var (from', p) := SynEnd(cf, from, again);
    assert Proper(p, cf) && Carries(p, ct.dec) == [];
    assert SeqOf(cf, from') == Wrap32(p.tcp.seq_ + 1) && Space(p) == 1;
    assert from'.written + [] == from'.written;
    hide Wrap32, SynEnd, Carries, Proper, Space;
    SendKeeps(cf, from, ct, to, p, from', []);
  }

  /** A write that fits one packet. */
  ghost predicate OnePacket(cf: Config, bytes: seq<Byte>) {
    |cf.enc(bytes)| + 40 <= cf.mtu
  }

  lemma PutIsOnePacket(cf: Config, from: End, bytes: seq<Byte>)
    requires Usable(cf) && OnePacket(cf, bytes) && Known(cf, from)
    ensures var (from', sent) := PutEnd(cf, from, bytes);
            && |sent| == 1 && Proper(sent[0], cf) && Known(cf, from')
            && sent[0].payload == cf.enc(bytes) && !sent[0].tcp.syn
            && sent[0].tcp.seq_ == SeqOf(cf, from)
            && SeqOf(cf, from') == Wrap32(sent[0].tcp.seq_ + Space(sent[0]))
            && AckOf(cf, from') == AckOf(cf, from) && from'.inbox == from.inbox && from'.read == from.read
            && from'.written == from.written + if cf.enc(bytes) != [] then [bytes] else []
  {
  }

  lemma PutKeeps(cf: Config, from: End, ct: Config, to: End, bytes: seq<Byte>)
    requires Usable(cf) && cf.local == ct.remote && ct.local == cf.remote && OnePacket(cf, bytes)
    requires ct.dec(cf.enc(bytes)) == Some(bytes)
    requires InStep(cf, from, ct, to) && InStep(ct, to, cf, from)
    requires Known(cf, from) && (Known(ct, to) || to.inbox != [])
    ensures var (from', sent) := PutEnd(cf, from, bytes);
            var to' := to.(inbox := to.inbox + sent);
            InStep(cf, from', ct, to') && InStep(ct, to', cf, from') && Known(cf, from')
  {
    PutIsOnePacket(cf, from, bytes);
    var (from', sent) := PutEnd(cf, from, bytes);
    assert sent == [sent[0]];
    hide Wrap32, PutEnd, Proper, Space, Usable;
    SendKeeps(cf, from, ct, to, sent[0], from', Carries(sent[0], ct.dec));
  }

  /** What taking a packet does to an end: it expects what follows, hands out what the packet
      carries, and answers with at most one empty packet in sequence. */
  ghost predicate Takes(ct: Config, to: End, got: Segment, to': End, sent: seq<Segment>) {
    && Known(ct, to')
    && to.inbox != [] && to'.inbox == to.inbox[1..] && to'.written == to.written
    && AckOf(ct, to') == Wrap32(got.tcp.seq_ + Space(got))
    && to'.read == to.read + Carries(got, ct.dec)
    && |sent| <= 1
    && (sent == [] ==> SeqOf(ct, to') == SeqOf(ct, to) && Known(ct, to))
    && (sent != [] ==>
          && Proper(sent[0], ct) && sent[0].payload == []
          && sent[0].tcp.seq_ == SeqOf(ct, to)
          && SeqOf(ct, to') == Wrap32(sent[0].tcp.seq_ + Space(sent[0])))
  }

  lemma TakeSyn(ct: Config, cf: Config, to: End, accepts: bool)
    requires to.inbox != [] && Proper(to.inbox[0], cf) && to.inbox[0].tcp.syn
    requires cf.local == ct.remote && ct.local == cf.remote
    requires !Known(ct, to) ==> !to.inbox[0].tcp.ack
    ensures var (to', sent) := TakeEnd(ct, to, accepts);
            Takes(ct, to, to.inbox[0], to', sent) && sent != []
  {
  }

  lemma TakeData(ct: Config, cf: Config, to: End, accepts: bool)
    requires to.inbox != [] && Proper(to.inbox[0], cf) && !to.inbox[0].tcp.syn
    requires Usable(cf) && cf.local == ct.remote && Known(ct, to) && to.inbox[0].tcp.seq_ == AckOf(ct, to)
    ensures var (to', sent) := TakeEnd(ct, to, accepts);
            Takes(ct, to, to.inbox[0], to', sent) && sent == []
  {
    var got := to.inbox[0];
    if got.payload == [] {
      assert Wrap32(got.tcp.seq_ + 0) == got.tcp.seq_;
    } else {
      InOrderAck(got.tcp.seq_, |got.payload|);
    }
    hide UpdateAck, Wrap32;
  }

  lemma DeliveryKeeps(cf: Config, from: End, ct: Config, to: End, accepts: bool)
    requires Usable(cf) && cf.local == ct.remote && ct.local == cf.remote
    requires InStep(cf, from, ct, to) && InStep(ct, to, cf, from)
    requires to.inbox != [] && Known(cf, from)
    ensures var (to', sent) := TakeEnd(ct, to, accepts);
            var from' := from.(inbox := from.inbox + sent);
            InStep(cf, from', ct, to') && InStep(ct, to', cf, from') && Known(ct, to')
  {
    var got := to.inbox[0];
    ChainTail(to.inbox, AckOf(ct, to), SeqOf(cf, from));
    assert Proper(got, cf);
    var (to', sent) := TakeEnd(ct, to, accepts);
    if got.tcp.syn {
      TakeSyn(ct, cf, to, accepts);
    } else {
      TakeData(ct, cf, to, accepts);
    }
    hide TakeEnd, Wrap32, Proper, Space, Usable;
    TakeKeeps(cf, from, ct, to, to');
    AnswerKeeps(cf, from, ct, to, got, to', sent);
  }

  /** The direction of the answer. */
  lemma AnswerKeeps(cf: Config, from: End, ct: Config, to: End, got: Segment, to': End, sent: seq<Segment>)
    requires InStep(ct, to, cf, from) && Takes(ct, to, got, to', sent) && Known(cf, from)
    ensures InStep(ct, to', cf, from.(inbox := from.inbox + sent))
  {
    if sent == [] {
      assert from.inbox + sent == from.inbox;
    } else {
      assert sent == [sent[0]] && Carries(sent[0], cf.dec) == [];
      hide Wrap32, Proper, Space;
      SendKeeps(ct, to, cf, from, sent[0], to', []);
    }
  }

  // ------------------------------------------------------------ runs

  /** When an action can happen: an accepter acts once it has accepted, a write fits one packet, and
      only a packet that was sent is taken. */
  ghost predicate Enabled(cd: Config, ca: Config, w: World, act: Action) {
    match act
    case Syn(side, _) => side.Dialer? || Known(ca, w.accepter)
    case Put(side, bytes) => if side.Dialer? then OnePacket(cd, bytes) else OnePacket(ca, bytes)
    case Take(side) => if side.Dialer? then w.dialer.inbox != [] else w.accepter.inbox != []
  }

  ghost function Step(cd: Config, ca: Config, w: World, act: Action): World
    requires Paired(cd, ca) && Enabled(cd, ca, w, act)
  {
    var World(d, a) := w;
    match act
    case Syn(Dialer, again) => var (d', p) := SynEnd(cd, d, again); World(d', a.(inbox := a.inbox + [p]))
    case Syn(Accepter, again) => var (a', p) := SynEnd(ca, a, again); World(d.(inbox := d.inbox + [p]), a')
    case Put(Dialer, bytes) => var (d', sent) := PutEnd(cd, d, bytes); World(d', a.(inbox := a.inbox + sent))
    case Put(Accepter, bytes) => var (a', sent) := PutEnd(ca, a, bytes); World(d.(inbox := d.inbox + sent), a')
    case Take(Dialer) => var (d', sent) := TakeEnd(cd, d, false); World(d', a.(inbox := a.inbox + sent))
    case Take(Accepter) => var (a', sent) := TakeEnd(ca, a, true); World(d.(inbox := d.inbox + sent), a')
  }

  lemma UnknownPut(cf: Config, from: End, bytes: seq<Byte>)
    requires cf.mtu > 40 && !Known(cf, from)
    ensures PutEnd(cf, from, bytes) == (from, [])
  {
    assert from.written + [] == from.written;
  }

  lemma StepKeepsAgreement(cd: Config, ca: Config, w: World, act: Action)
    requires Paired(cd, ca) && Enabled(cd, ca, w, act) && Agreement(cd, ca, w)
    ensures Agreement(cd, ca, Step(cd, ca, w, act))
  {
    var World(d, a) := w;
    assert d.inbox != [] ==> Known(ca, a);
    assert a.inbox != [] ==> Known(cd, d);
    assert d.(inbox := d.inbox + []) == d && a.(inbox := a.inbox + []) == a;
    hide InStep, SynEnd, PutEnd, TakeEnd, OnePacket, Usable;
    match act
    case Syn(Dialer, again) => SynKeeps(cd, d, ca, a, again);
    case Syn(Accepter, again) => SynKeeps(ca, a, cd, d, again);
    case Put(Dialer, bytes) =>
      if Known(cd, d) { PutKeeps(cd, d, ca, a, bytes); } else { UnknownPut(cd, d, bytes); }
    case Put(Accepter, bytes) =>
      if Known(ca, a) { PutKeeps(ca, a, cd, d, bytes); } else { UnknownPut(ca, a, bytes); }
    case Take(Dialer) => DeliveryKeeps(ca, a, cd, d, false);
    case Take(Accepter) => DeliveryKeeps(cd, d, ca, a, true);
  }

  /** The worlds that a list of actions leads through; an action that is not enabled does nothing. */
  ghost function Run(cd: Config, ca: Config, acts: seq<Action>): World
    requires Paired(cd, ca)
  {
    if acts == [] then World(Blank(), Blank())
    else
      var w := Run(cd, ca, acts[..|acts| - 1]);
      if Enabled(cd, ca, w, acts[|acts| - 1]) then Step(cd, ca, w, acts[|acts| - 1]) else w
  }

  lemma {:induction false} RunAgrees(cd: Config, ca: Config, acts: seq<Action>)
    requires Paired(cd, ca)
    ensures Agreement(cd, ca, Run(cd, ca, acts))
  {
    hide Step, Enabled;
    if acts != [] {
      var w, act := Run(cd, ca, acts[..|acts| - 1]), acts[|acts| - 1];
      RunAgrees(cd, ca, acts[..|acts| - 1]);
      if Enabled(cd, ca, w, act) {
        StepKeepsAgreement(cd, ca, w, act);
      }
    }
  }

  ghost predicate AddsUp(cd: Config, ca: Config, w: World) {
    var World(d, a) := w;
    && SeqOf(cd, d) == Wrap32(AckOf(ca, a) + SpaceOf(a.inbox))
    && SeqOf(ca, a) == Wrap32(AckOf(cd, d) + SpaceOf(d.inbox))
    && a.read + Contents(a.inbox, ca.dec) == d.written
    && d.read + Contents(d.inbox, cd.dec) == a.written
  }

  /** FakeTCP agreement, in both directions and over every run of handshakes, reconnects, one-packet
      writes and deliveries, across any number of wraps: what the receiver acknowledges plus the
      sequence space in flight is the sender's next sequence number modulo 2^32, and what has been
      read followed by what is in flight is what was written. */
  lemma AckPlusFlightIsSeq(cd: Config, ca: Config, acts: seq<Action>)
    requires Paired(cd, ca)
    ensures AddsUp(cd, ca, Run(cd, ca, acts))
  {
    hide Run, Agreement, AddsUp;
    RunAgrees(cd, ca, acts);
    AgreementAddsUp(cd, ca, Run(cd, ca, acts));
  }

  lemma AgreementAddsUp(cd: Config, ca: Config, w: World)
    requires Agreement(cd, ca, w)
    ensures AddsUp(cd, ca, w)
  {
    hide InStep, SeqOf, AckOf, SpaceOf, Contents, Wrap32;
    InStepAddsUp(cd, w.dialer, ca, w.accepter);
    InStepAddsUp(ca, w.accepter, cd, w.dialer);
  }

  lemma InStepAddsUp(cf: Config, from: End, ct: Config, to: End)
    requires InStep(cf, from, ct, to)
    ensures SeqOf(cf, from) == Wrap32(AckOf(ct, to) + SpaceOf(to.inbox))
    ensures to.read + Contents(to.inbox, ct.dec) == from.written
  {
    hide Wrap32;
    ChainAddsUp(to.inbox, AckOf(ct, to), SeqOf(cf, from));
  }
}
