/**
  * Recovering packets from a byte stream (internal/pcap/sticky.go): data is buffered until the
  * total length in the IPv4 header of the first packet has arrived.
  */
module Sticky {
  import opened Words

  /** ParseEmbPacket, as far as the desticker sees it: the total length in the IPv4 header, if the
      buffer parses. The empty buffer does not, and no header has a length below 20. */
  type Parser = p: seq<Byte> -> Option<nat> |
    p([]) == None && forall b :: p(b).Some? ==> p(b).value >= 20
    witness (b: seq<Byte>) => None

  /** The bytes of a packet, as far as they have arrived, parse as nothing but that packet, and a
      buffer that begins with the whole packet parses. */
  ghost predicate Frames(p: Parser, packet: seq<Byte>) {
    && packet != []
    && (forall b {:trigger p(b)} :: b <= packet && p(b).Some? ==> p(b) == Some(|packet|))
    && (forall b {:trigger p(b)} :: packet <= b ==> p(b) == Some(|packet|))
  }

  /** A parser that reads the version and the total length of the header and nothing else. */
  function HeaderLength(b: seq<Byte>): Option<nat> {
    if |b| >= 20 && b[0] / 16 == 4 && LengthField(b) >= 20 then Some(LengthField(b)) else None
  }

  function LengthField(b: seq<Byte>): nat
    requires |b| >= 20
  {
    var high: nat, low: nat := b[2], b[3];
    256 * high + low
  }

  /** For this parser every IPv4 packet whose length field is right is framed. */
  lemma PacketsFrame(packet: seq<Byte>)
    requires |packet| >= 20 && packet[0] / 16 == 4 && LengthField(packet) == |packet|
    ensures Frames(HeaderLength, packet)
  {
  }

  // The fields that Append changes; `indicator` is the length in the header that was parsed.
  datatype Buffer = Buffer(data: seq<Byte>, appear: int, indicator: Option<nat>)

  predicate Sound(indicator: Option<nat>) {
    indicator.Some? ==> indicator.value > 0
  }

  /** The loop of Append: the packets cut off, and what is left. */
  function Drain(p: Parser, data: seq<Byte>, indicator: Option<nat>): (seq<seq<Byte>>, seq<Byte>, Option<nat>)
    requires Sound(indicator)
    decreases |data|, if indicator.None? then 1 else 0
  {
    if indicator.Some? then
      var length := indicator.value;
      if |data| < length then ([], data, indicator)
      else
        var (packets, rest, ind) := Drain(p, data[length..], None);
        ([data[..length]] + packets, rest, ind)
    else if p(data).None? then ([], data, None)
    else Drain(p, data, p(data))
  }

  predicate Expired(b: Buffer, deadline: int, now: int) {
    deadline > 0 && now - b.appear > deadline
  }

  /** Append: the new buffer and the packets. */
  function AppendTo(p: Parser, b: Buffer, deadline: int, chunk: seq<Byte>, now: int): (r: (Buffer, seq<seq<Byte>>))
    requires Sound(b.indicator)
    ensures Sound(r.0.indicator)
  {
    var kept := if Expired(b, deadline, now) then Buffer([], b.appear, None) else b;
    var (packets, data, indicator) := Drain(p, kept.data + chunk, kept.indicator);
    DrainSound(p, kept.data + chunk, kept.indicator);
    (Buffer(data, if packets != [] then now else b.appear, indicator), packets)
  }

  lemma {:induction false} DrainSound(p: Parser, data: seq<Byte>, indicator: Option<nat>)
    requires Sound(indicator)
    ensures Sound(Drain(p, data, indicator).2)
    decreases |data|, if indicator.None? then 1 else 0
  {
    if indicator.Some? {
      if |data| >= indicator.value {
        DrainSound(p, data[indicator.value..], None);
      }
    } else if p(data).Some? {
      DrainSound(p, data, p(data));
    }
  }

  /** Nothing is lost or made up by the loop. */
  lemma {:induction false} DrainConserves(p: Parser, data: seq<Byte>, indicator: Option<nat>)
    requires Sound(indicator)
    ensures Flatten(Drain(p, data, indicator).0) + Drain(p, data, indicator).1 == data
    decreases |data|, if indicator.None? then 1 else 0
  {
    if indicator.Some? {
      var length := indicator.value;
      if |data| >= length {
        DrainConserves(p, data[length..], None);
        var packets := Drain(p, data[length..], None).0;
        assert ([data[..length]] + packets)[1..] == packets;
        assert data[..length] + data[length..] == data;
      }
    } else if p(data).Some? {
      DrainConserves(p, data, p(data));
    }
  }

  /** The indicator, if there is one, is that of the next packet. */
  predicate Expects(indicator: Option<nat>, rest: seq<seq<Byte>>) {
    indicator.Some? ==> rest != [] && indicator.value == |rest[0]| > 0
  }

  ghost predicate AllFrame(p: Parser, packets: seq<seq<Byte>>) {
    forall i | 0 <= i < |packets| :: Frames(p, packets[i])
  }

  /** `data` does not hold the whole of the next packet, and nothing when there is none. */
  predicate Incomplete(data: seq<Byte>, rest: seq<seq<Byte>>) {
    if rest == [] then data == [] else |data| < |rest[0]|
  }

  /** `cut` is the first of the packets, all that were complete. */
  ghost predicate CutsFirst(p: Parser, cut: seq<seq<Byte>>, data: seq<Byte>, indicator: Option<nat>,
                            packets: seq<seq<Byte>>) {
    && cut <= packets
    && Incomplete(data, packets[|cut|..])
    && Expects(indicator, packets[|cut|..])
  }

  lemma HeadOfStream(data: seq<Byte>, rest: seq<seq<Byte>>)
    requires rest != [] && data <= Flatten(rest)
    ensures |data| >= |rest[0]| ==> data[..|rest[0]|] == rest[0] && rest[0] <= data
                                    && data[|rest[0]|..] <= Flatten(rest[1..])
    ensures |data| <= |rest[0]| ==> data <= rest[0]
  {
    var all := Flatten(rest);
    assert all == rest[0] + Flatten(rest[1..]);
    assert data == all[..|data|];
  }

  /** What a buffer that does not parse holds. */
  lemma NoParse(p: Parser, data: seq<Byte>, rest: seq<seq<Byte>>)
    requires AllFrame(p, rest) && data <= Flatten(rest) && p(data).None?
    ensures Incomplete(data, rest)
  {
    if rest != [] {
      assert Frames(p, rest[0]);
      HeadOfStream(data, rest);
    }
  }

  lemma GoodParse(p: Parser, data: seq<Byte>, rest: seq<seq<Byte>>)
    requires AllFrame(p, rest) && data <= Flatten(rest) && p(data).Some?
    ensures Expects(p(data), rest)
  {
    if rest != [] {
      assert Frames(p, rest[0]);
      HeadOfStream(data, rest);
    }
  }

  /** On a prefix of a stream of packets the loop cuts off exactly the packets that are complete. */
  lemma {:induction false} DrainCuts(p: Parser, data: seq<Byte>, indicator: Option<nat>, rest: seq<seq<Byte>>)
    requires AllFrame(p, rest) && data <= Flatten(rest) && Expects(indicator, rest)
    ensures var (cut, left, ind) := Drain(p, data, indicator);
            CutsFirst(p, cut, left, ind, rest)
    decreases |data|, if indicator.None? then 1 else 0
  {
    if indicator.Some? {
      var length := indicator.value;
      if |data| >= length {
        HeadOfStream(data, rest);
        DrainCuts(p, data[length..], None, rest[1..]);
        var (cut, left, ind) := Drain(p, data[length..], None);
        CutsOneMore(p, cut, left, ind, rest);
      }
    } else if p(data).None? {
      NoParse(p, data, rest);
    } else {
      GoodParse(p, data, rest);
      DrainCuts(p, data, p(data), rest);
    }
  }

  lemma CutsOneMore(p: Parser, cut: seq<seq<Byte>>, data: seq<Byte>, indicator: Option<nat>, rest: seq<seq<Byte>>)
    requires rest != [] && CutsFirst(p, cut, data, indicator, rest[1..])
    ensures CutsFirst(p, [rest[0]] + cut, data, indicator, rest)
  {
    assert rest[1..][|cut|..] == rest[|cut| + 1..];
  }

  // ------------------------------------------------------------ runs

  datatype Chunk = Chunk(bytes: seq<Byte>, now: int)

  function Bytes(chunks: seq<Chunk>): seq<Byte> {
    if chunks == [] then [] else Bytes(chunks[..|chunks| - 1]) + chunks[|chunks| - 1].bytes
  }

  function Start(now: int): Buffer {
    Buffer([], now, None)
  }

  /** Successive calls of Append: the final buffer and all the packets. */
  function AppendAll(p: Parser, deadline: int, started: int, chunks: seq<Chunk>): (r: (Buffer, seq<seq<Byte>>))
    ensures Sound(r.0.indicator)
  {
    if chunks == [] then (Start(started), [])
    else
      var (b, packets) := AppendAll(p, deadline, started, chunks[..|chunks| - 1]);
      var c := chunks[|chunks| - 1];
      var (b', more) := AppendTo(p, b, deadline, c.bytes, c.now);
      (b', packets + more)
  }

  /** The number of buffered bytes that the deadline throws away in a run. */
  function Lost(p: Parser, deadline: int, started: int, chunks: seq<Chunk>): nat {
    if chunks == [] then 0
    else
      var init, c := chunks[..|chunks| - 1], chunks[|chunks| - 1];
      var b := AppendAll(p, deadline, started, init).0;
      Lost(p, deadline, started, init) + if Expired(b, deadline, c.now) then |b.data| else 0
  }

  /** Conservation, in every run and whatever the bytes are: what was handed out, what is buffered
      and what the deadline threw away is what came in. */
  lemma {:induction false} BytesConserved(p: Parser, deadline: int, started: int, chunks: seq<Chunk>)
    ensures var (b, packets) := AppendAll(p, deadline, started, chunks);
            |Flatten(packets)| + |b.data| + Lost(p, deadline, started, chunks) == |Bytes(chunks)|
  {
    if chunks != [] {
      var init, c := chunks[..|chunks| - 1], chunks[|chunks| - 1];
      BytesConserved(p, deadline, started, init);
      var (b, packets) := AppendAll(p, deadline, started, init);
      var kept := if Expired(b, deadline, c.now) then Buffer([], b.appear, None) else b;
      DrainConserves(p, kept.data + c.bytes, kept.indicator);
      hide Drain;
      FlattenAppend(packets, AppendTo(p, b, deadline, c.bytes, c.now).1);
    }
  }

  /** The packets handed out are the first of the stream, all that have arrived completely, and the
      buffer holds the bytes that came in after them. */
  ghost predicate Served(p: Parser, b: Buffer, out: seq<seq<Byte>>, bytes: seq<Byte>, packets: seq<seq<Byte>>) {
    && CutsFirst(p, out, b.data, b.indicator, packets)
    && Flatten(out) + b.data == bytes
  }

  lemma ServedMore(p: Parser, b: Buffer, out: seq<seq<Byte>>, bytes: seq<Byte>, packets: seq<seq<Byte>>,
                   chunk: seq<Byte>, cut: seq<seq<Byte>>, next: Buffer)
    requires Served(p, b, out, bytes, packets)
    requires CutsFirst(p, cut, next.data, next.indicator, packets[|out|..])
    requires Flatten(cut) + next.data == b.data + chunk
    ensures Served(p, next, out + cut, bytes + chunk, packets)
  {
    CutsMore(p, out, cut, next, packets);
    FlattenAppend(out, cut);
    hide CutsFirst;
    Reassociate(Flatten(out), Flatten(cut), next.data, b.data, chunk);
  }

  lemma Reassociate<T>(a: seq<T>, b: seq<T>, c: seq<T>, d: seq<T>, e: seq<T>)
    requires b + c == d + e
    ensures (a + b) + c == (a + d) + e
  {
    assert (a + b) + c == a + (b + c) && (a + d) + e == a + (d + e);
  }

  /** What has not been handed out yet begins the stream of the other packets. */
  lemma RestOfStream(out: seq<seq<Byte>>, data: seq<Byte>, bytes: seq<Byte>, packets: seq<seq<Byte>>)
    requires out <= packets && Flatten(out) + data == bytes && bytes <= Flatten(packets)
    ensures data <= Flatten(packets[|out|..])
  {
    var rest := packets[|out|..];
    assert packets == out + rest;
    FlattenAppend(out, rest);
    PrefixCancel(Flatten(out), data, Flatten(rest));
  }

  lemma CutsMore(p: Parser, out: seq<seq<Byte>>, cut: seq<seq<Byte>>, b: Buffer, packets: seq<seq<Byte>>)
    requires out <= packets && CutsFirst(p, cut, b.data, b.indicator, packets[|out|..])
    ensures CutsFirst(p, out + cut, b.data, b.indicator, packets)
  {
    var rest := packets[|out|..];
    assert rest[|cut|..] == packets[|out + cut|..];
    assert packets == out + rest && rest == cut + rest[|cut|..];
  }

  lemma PrefixCancel<T>(a: seq<T>, b: seq<T>, c: seq<T>)
    requires a + b <= a + c
    ensures b <= c
  {
    assert (a + b)[|a|..] == b && (a + c)[|a|..] == c;
    assert a + b == (a + c)[..|a + b|];
    assert (a + c)[..|a + b|][|a|..] == c[..|b|];
  }

  /** Chunking independence, for every prefix of the stream: as long as the deadline throws nothing
      away, what has been handed out are exactly the packets that have arrived completely, in order,
      and the buffer is the rest of what has arrived. */
  lemma {:induction false} ChunkingIndependence(p: Parser, deadline: int, started: int, chunks: seq<Chunk>,
                                                packets: seq<seq<Byte>>)
    requires AllFrame(p, packets) && Bytes(chunks) <= Flatten(packets)
    requires Lost(p, deadline, started, chunks) == 0
    ensures var (b, out) := AppendAll(p, deadline, started, chunks);
            Served(p, b, out, Bytes(chunks), packets)
  {
    if chunks == [] {
      NothingYet(p, packets);
    } else {
      var init, c := chunks[..|chunks| - 1], chunks[|chunks| - 1];
      assert Bytes(init) <= Bytes(chunks) <= Flatten(packets);
      ChunkingIndependence(p, deadline, started, init, packets);
      var (b, out) := AppendAll(p, deadline, started, init);
      hide AllFrame, AppendTo, Flatten;
      AppendServed(p, b, deadline, c, out, Bytes(init), packets);
    }
  }

  /** One call of Append that throws nothing away. */
  lemma AppendServed(p: Parser, b: Buffer, deadline: int, c: Chunk, out: seq<seq<Byte>>, bytes: seq<Byte>,
                     packets: seq<seq<Byte>>)
    requires AllFrame(p, packets) && Served(p, b, out, bytes, packets) && Sound(b.indicator)
    requires bytes + c.bytes <= Flatten(packets)
    requires Expired(b, deadline, c.now) ==> b.data == []
    ensures var (b', more) := AppendTo(p, b, deadline, c.bytes, c.now);
            Served(p, b', out + more, bytes + c.bytes, packets)
  {
    hide Frames;
    var kept := if Expired(b, deadline, c.now) then Buffer([], b.appear, None) else b;
    var data, rest := kept.data + c.bytes, packets[|out|..];
    assert Served(p, kept, out, bytes, packets);
    assert Flatten(out) + data == bytes + c.bytes;
    assert AllFrame(p, rest);
    hide AllFrame;
    RestOfStream(out, data, bytes + c.bytes, packets);
    DrainCuts(p, data, kept.indicator, rest);
    DrainConserves(p, data, kept.indicator);
    var (b', more) := AppendTo(p, b, deadline, c.bytes, c.now);
    hide Drain, Flatten, Served, CutsFirst;
    ServedMore(p, kept, out, bytes, packets, c.bytes, more, b');
  }

  lemma NothingYet(p: Parser, packets: seq<seq<Byte>>)
    requires AllFrame(p, packets)
    ensures Served(p, Buffer([], 0, None), [], [], packets)
  {
    if packets != [] {
      assert Frames(p, packets[0]);
    }
  }

  // ------------------------------------------------------------ when the deadline throws bytes away

  /** How many of the packets are complete in the first `n` bytes of the stream. */
  function WholeIn(packets: seq<seq<Byte>>, n: nat): (k: nat)
    ensures k <= |packets|
  {
    if packets == [] || n < |packets[0]| then 0 else 1 + WholeIn(packets[1..], n - |packets[0]|)
  }

  /** The first `n` bytes of the stream are whole packets. */
  predicate AtBoundary(packets: seq<seq<Byte>>, n: nat) {
    |Flatten(packets[..WholeIn(packets, n)])| == n
  }

  /** When the last of the chunks that completed a packet arrived, or when the desticker was made. */
  function LastComplete(packets: seq<seq<Byte>>, started: int, chunks: seq<Chunk>): int {
    if chunks == [] then started
    else
      var init, c := chunks[..|chunks| - 1], chunks[|chunks| - 1];
      if WholeIn(packets, |Bytes(init)|) < WholeIn(packets, |Bytes(chunks)|) then c.now
      else LastComplete(packets, started, init)
  }

  /** Every chunk that comes later than the deadline after the last chunk that completed a packet
      begins with a packet. */
  ghost predicate Prompt(packets: seq<seq<Byte>>, deadline: int, started: int, chunks: seq<Chunk>) {
    deadline > 0 ==>
      forall i | 0 <= i < |chunks| && chunks[i].now - LastComplete(packets, started, chunks[..i]) > deadline ::
        AtBoundary(packets, |Bytes(chunks[..i])|)
  }

  lemma {:induction false} WholeInIs(packets: seq<seq<Byte>>, k: nat, n: nat)
    requires k <= |packets| && forall i | 0 <= i < |packets| :: packets[i] != []
    requires |Flatten(packets[..k])| <= n
    requires k < |packets| ==> n < |Flatten(packets[..k])| + |packets[k]|
    requires k == |packets| ==> n == |Flatten(packets)|
    ensures WholeIn(packets, n) == k
  {
    if k == 0 {
    } else {
      var rest := packets[1..];
      assert packets[..k][0] == packets[0] && packets[..k][1..] == rest[..k - 1];
      assert |Flatten(packets[..k])| == |packets[0]| + |Flatten(rest[..k - 1])|;
      WholeInIs(rest, k - 1, n - |packets[0]|);
    }
  }

  /** What has been handed out, counted in the stream. */
  lemma ServedCounts(p: Parser, b: Buffer, out: seq<seq<Byte>>, bytes: seq<Byte>, packets: seq<seq<Byte>>)
    requires AllFrame(p, packets) && Served(p, b, out, bytes, packets)
    ensures |out| == WholeIn(packets, |bytes|) && out == packets[..|out|]
    ensures b.data == [] <==> AtBoundary(packets, |bytes|)
  {
    assert forall i | 0 <= i < |packets| :: Frames(p, packets[i]);
    assert out == packets[..|out|];
    assert |out| < |packets| ==> packets[|out|..][0] == packets[|out|];
    assert |out| == |packets| ==> packets[..|out|] == packets;
    hide Frames, Flatten, WholeIn;
    WholeInIs(packets, |out|, |bytes|);
  }

  /** While nothing is lost, the time that the deadline counts from is that of the last completion. */
  lemma {:induction false} AppearIsLastComplete(p: Parser, deadline: int, started: int, chunks: seq<Chunk>,
                                                packets: seq<seq<Byte>>)
    requires AllFrame(p, packets) && Bytes(chunks) <= Flatten(packets)
    requires Lost(p, deadline, started, chunks) == 0
    ensures AppendAll(p, deadline, started, chunks).0.appear == LastComplete(packets, started, chunks)
  {
    if chunks != [] {
      var init := chunks[..|chunks| - 1];
      assert Bytes(init) <= Bytes(chunks) <= Flatten(packets);
      AppearIsLastComplete(p, deadline, started, init, packets);
      hide AllFrame, Flatten, Drain;
      Counts(p, deadline, started, init, packets);
      Counts(p, deadline, started, chunks, packets);
    }
  }

  lemma Counts(p: Parser, deadline: int, started: int, chunks: seq<Chunk>, packets: seq<seq<Byte>>)
    requires AllFrame(p, packets) && Bytes(chunks) <= Flatten(packets)
    requires Lost(p, deadline, started, chunks) == 0
    ensures var (b, out) := AppendAll(p, deadline, started, chunks);
            && |out| == WholeIn(packets, |Bytes(chunks)|) && out == packets[..|out|]
            && (b.data == [] <==> AtBoundary(packets, |Bytes(chunks)|))
  {
    hide AllFrame, Served, AppendAll, Lost, WholeIn, AtBoundary, Flatten;
    var (b, out) := AppendAll(p, deadline, started, chunks);
    ChunkingIndependence(p, deadline, started, chunks, packets);
    ServedCounts(p, b, out, Bytes(chunks), packets);
  }

  /** Exactly when nothing is thrown away, in terms of the packet lengths, of how the stream is cut
      and of the times of the chunks. */
  lemma {:induction false} LosesNothingIff(p: Parser, deadline: int, started: int, chunks: seq<Chunk>,
                                           packets: seq<seq<Byte>>)
    requires AllFrame(p, packets) && Bytes(chunks) <= Flatten(packets)
    ensures Lost(p, deadline, started, chunks) == 0 <==> Prompt(packets, deadline, started, chunks)
  {
    if chunks != [] {
      var init := chunks[..|chunks| - 1];
      assert Bytes(init) <= Bytes(chunks) <= Flatten(packets);
      LosesNothingIff(p, deadline, started, init, packets);
      hide AllFrame, Flatten, AppendAll, AtBoundary;
      PromptSnoc(packets, deadline, started, chunks);
      if Lost(p, deadline, started, init) == 0 {
        Counts(p, deadline, started, init, packets);
        AppearIsLastComplete(p, deadline, started, init, packets);
      }
    }
  }

  lemma PromptSnoc(packets: seq<seq<Byte>>, deadline: int, started: int, chunks: seq<Chunk>)
    requires chunks != []
    ensures var init, c := chunks[..|chunks| - 1], chunks[|chunks| - 1];
            Prompt(packets, deadline, started, chunks)
            <==> && Prompt(packets, deadline, started, init)
                 && (deadline > 0 && c.now - LastComplete(packets, started, init) > deadline ==>
                       AtBoundary(packets, |Bytes(init)|))
  {
    hide LastComplete, AtBoundary;
    var init := chunks[..|chunks| - 1];
    assert forall i | 0 <= i < |init| :: init[i] == chunks[i] && init[..i] == chunks[..i];
  }

  /** A whole stream of packets comes out as exactly these packets, with nothing left in the buffer,
      if and only if every chunk that comes later than the deadline after the last completed packet
      begins with a packet. */
  lemma StreamDeliveredIff(p: Parser, deadline: int, started: int, chunks: seq<Chunk>, packets: seq<seq<Byte>>)
    requires AllFrame(p, packets) && Bytes(chunks) == Flatten(packets)
    ensures var (b, out) := AppendAll(p, deadline, started, chunks);
            && (out == packets <==> Prompt(packets, deadline, started, chunks))
            && (out == packets ==> b.data == [])
  {
    var (b, out) := AppendAll(p, deadline, started, chunks);
    BytesConserved(p, deadline, started, chunks);
    LosesNothingIff(p, deadline, started, chunks, packets);
    if Lost(p, deadline, started, chunks) == 0 {
      ChunkingIndependence(p, deadline, started, chunks, packets);
      AllServed(p, b, out, packets);
    }
  }

  /** When Append last returned packets, or when the desticker was made. */
  function LastEmission(p: Parser, deadline: int, started: int, chunks: seq<Chunk>): int {
    if chunks == [] then started
    else
      var init, c := chunks[..|chunks| - 1], chunks[|chunks| - 1];
      if |AppendAll(p, deadline, started, init).1| < |AppendAll(p, deadline, started, chunks).1| then c.now
      else LastEmission(p, deadline, started, init)
  }

  lemma {:induction false} AppearIsLastEmission(p: Parser, deadline: int, started: int, chunks: seq<Chunk>)
    ensures AppendAll(p, deadline, started, chunks).0.appear == LastEmission(p, deadline, started, chunks)
  {
    if chunks != [] {
      AppearIsLastEmission(p, deadline, started, chunks[..|chunks| - 1]);
      hide Drain;
    }
  }

  /** How a stream fails: after more than a deadline without a packet, with nothing buffered, a
      packet that comes in two chunks loses the first of them, however soon the second one follows. */
  lemma SilenceLosesFirstChunk(p: Parser, deadline: int, started: int, before: seq<Chunk>, packet: seq<Byte>,
                               cut: nat, now: int, later: int)
    requires Frames(p, packet) && 0 < cut < |packet| && deadline > 0 && now <= later
    requires AppendAll(p, deadline, started, before).0.data == []
    requires now - LastEmission(p, deadline, started, before) > deadline
    ensures var chunks := before + [Chunk(packet[..cut], now)] + [Chunk(packet[cut..], later)];
            Lost(p, deadline, started, chunks) == Lost(p, deadline, started, before) + cut
  {
    AppearIsLastEmission(p, deadline, started, before);
    var first, second := Chunk(packet[..cut], now), Chunk(packet[cut..], later);
    assert (before + [first])[..|before|] == before;
    assert (before + [first] + [second])[..|before| + 1] == before + [first];
    FlattenHead([packet]);
    assert packet[..cut] <= packet == Flatten([packet]);
    DrainCuts(p, packet[..cut], None, [packet]);
    DrainConserves(p, packet[..cut], None);
    assert [] + packet[..cut] == packet[..cut];
    hide Drain, LastEmission;
  }

  /** After a loss the stream starts afresh. When a chunk comes later than the deadline after the last
      packet, then whatever arrived before, it and what follows are served as if nothing were buffered
      and the desticker had been made when that packet came out. */
  lemma {:induction false} LateChunkStartsAfresh(p: Parser, deadline: int, started: int, before: seq<Chunk>,
                                                 after: seq<Chunk>)
    requires after != [] && deadline > 0
    requires after[0].now - LastEmission(p, deadline, started, before) > deadline
    ensures var last := LastEmission(p, deadline, started, before);
            var (b, out) := AppendAll(p, deadline, last, after);
            AppendAll(p, deadline, started, before + after)
            == (b, AppendAll(p, deadline, started, before).1 + out)
  {
    var init, c := after[..|after| - 1], after[|after| - 1];
    assert before + after == (before + init) + [c] && init + [c] == after;
    if init == [] {
      assert before + init == before && after == [c];
      hide *;
      FirstLate(p, deadline, started, before, c);
    } else {
      var last := LastEmission(p, deadline, started, before);
      hide *;
      LateChunkStartsAfresh(p, deadline, started, before, init);
      NextLate(p, deadline, started, last, before + init, init, AppendAll(p, deadline, started, before).1, c);
    }
  }

  lemma FirstLate(p: Parser, deadline: int, started: int, before: seq<Chunk>, c: Chunk)
    requires deadline > 0 && c.now - LastEmission(p, deadline, started, before) > deadline
    ensures var (b, out) := AppendAll(p, deadline, LastEmission(p, deadline, started, before), [c]);
            AppendAll(p, deadline, started, before + [c]) == (b, AppendAll(p, deadline, started, before).1 + out)
  {
    var last := LastEmission(p, deadline, started, before);
    var b := AppendAll(p, deadline, started, before).0;
    AppearIsLastEmission(p, deadline, started, before);
    NothingAppended(p, deadline, last);
    hide AppendAll, AppendTo, LastEmission;
    LateAppend(p, b, deadline, c);
    AppendAllSnoc(p, deadline, started, before, c);
    AppendAllSnoc(p, deadline, last, [], c);
    var more := AppendTo(p, b, deadline, c.bytes, c.now).1;
    assert [] + [c] == [c] && [] + more == more;
  }

  /** Two runs that have come to the same buffer stay together. */
  lemma NextLate(p: Parser, deadline: int, started: int, last: int, one: seq<Chunk>, other: seq<Chunk>,
                 first: seq<seq<Byte>>, c: Chunk)
    requires var (b, out) := AppendAll(p, deadline, last, other);
             AppendAll(p, deadline, started, one) == (b, first + out)
    ensures var (b, out) := AppendAll(p, deadline, last, other + [c]);
            AppendAll(p, deadline, started, one + [c]) == (b, first + out)
  {
    hide AppendAll, AppendTo;
    AppendAllSnoc(p, deadline, started, one, c);
    AppendAllSnoc(p, deadline, last, other, c);
    var (b, out) := AppendAll(p, deadline, last, other);
    Associative(first, out, AppendTo(p, b, deadline, c.bytes, c.now).1);
  }

  lemma NothingAppended(p: Parser, deadline: int, started: int)
    ensures AppendAll(p, deadline, started, []) == (Start(started), [])
  {
  }

  lemma AppendAllSnoc(p: Parser, deadline: int, started: int, chunks: seq<Chunk>, c: Chunk)
    ensures var (b, out) := AppendAll(p, deadline, started, chunks);
            var (b', more) := AppendTo(p, b, deadline, c.bytes, c.now);
            AppendAll(p, deadline, started, chunks + [c]) == (b', out + more)
  {
    hide AppendTo;
    assert (chunks + [c])[..|chunks|] == chunks;
  }

  /** A chunk that comes too late finds nothing buffered. */
  lemma LateAppend(p: Parser, b: Buffer, deadline: int, c: Chunk)
    requires Sound(b.indicator) && Expired(b, deadline, c.now)
    ensures AppendTo(p, b, deadline, c.bytes, c.now) == AppendTo(p, Start(b.appear), deadline, c.bytes, c.now)
  {
    hide Drain;
  }

  /** So a stream of packets that begins with a late chunk is delivered as if it were the first. */
  lemma RecoversAfterLoss(p: Parser, deadline: int, started: int, before: seq<Chunk>, after: seq<Chunk>,
                          packets: seq<seq<Byte>>)
    requires after != [] && deadline > 0
    requires after[0].now - LastEmission(p, deadline, started, before) > deadline
    requires AllFrame(p, packets) && Bytes(after) <= Flatten(packets)
    requires Prompt(packets, deadline, LastEmission(p, deadline, started, before), after)
    ensures AppendAll(p, deadline, started, before + after).1
            == AppendAll(p, deadline, started, before).1 + packets[..WholeIn(packets, |Bytes(after)|)]
  {
    var last := LastEmission(p, deadline, started, before);
    hide AppendAll, LastEmission, Prompt, AllFrame, WholeIn;
    LateChunkStartsAfresh(p, deadline, started, before, after);
    LosesNothingIff(p, deadline, last, after, packets);
    Counts(p, deadline, last, after, packets);
  }

  lemma AllServed(p: Parser, b: Buffer, out: seq<seq<Byte>>, packets: seq<seq<Byte>>)
    requires AllFrame(p, packets) && Served(p, b, out, Flatten(packets), packets)
    ensures out == packets && b.data == []
  {
    var rest := packets[|out|..];
    assert packets == out + rest;
    FlattenAppend(out, rest);
    assert |b.data| == |Flatten(rest)|;
    FlattenHead(rest);
  }

  lemma FlattenHead(rest: seq<seq<Byte>>)
    ensures rest != [] ==> |Flatten(rest)| >= |rest[0]|
  {
  }

  /** The class of the source: Append works on its fields in a loop that ends by break. */
  class Desticker {
    const parse: Parser
    var data: seq<Byte>
    var deadline: int
    var appear: int
    var indicator: Option<nat>

    ghost function Value(): Buffer
      reads this
    {
      Buffer(data, appear, indicator)
    }

    constructor (parse: Parser, now: int)
      ensures Value() == Start(now) && this.parse == parse && deadline == 0
    {
      this.parse := parse;
      data, deadline, appear, indicator := [], 0, now, None;
    }

    method SetDeadline(t: int)
      modifies this`deadline
      ensures deadline == t
    {
      deadline := t;
    }

    method Append(chunk: seq<Byte>, now: int) returns (packets: seq<seq<Byte>>)
      requires Sound(indicator)
      modifies this`data, this`appear, this`indicator
      ensures (Value(), packets) == AppendTo(parse, old(Value()), deadline, chunk, now)
    {
      packets := [];
      if deadline > 0 && now - appear > deadline {
        data, indicator := [], None;
      }
      data := data + chunk;
      ghost var (all, left, ind) := Drain(parse, data, indicator);
      while |data| > 0
        invariant Sound(indicator) && appear == old(appear)
        invariant packets + Drain(parse, data, indicator).0 == all
        invariant Drain(parse, data, indicator).1 == left && Drain(parse, data, indicator).2 == ind
        decreases |data|, if indicator.None? then 1 else 0
      {
        if indicator.Some? {
          if |data| >= indicator.value {
            ghost var more := Drain(parse, data[indicator.value..], None).0;
            assert packets + ([data[..indicator.value]] + more) == packets + [data[..indicator.value]] + more;
            packets := packets + [data[..indicator.value]];
            data := data[indicator.value..];
            indicator := None;
          } else {
            break;
          }
        } else {
          var parsed := parse(data);
          if parsed.None? {
            break;
          }
          indicator := parsed;
        }
      }
      assert Drain(parse, data, indicator) == ([], data, indicator);
      assert packets == all && data == left && indicator == ind;
      if |packets| > 0 {
        appear := now;
      }
    }
  }
}
