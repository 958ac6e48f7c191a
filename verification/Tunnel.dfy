/**
  * A connection in plain `tcp` mode (internal/pcap/tcpconn.go): Write puts packets on a byte
  * stream, Read takes them off one at a time and stashes the others that arrived with it.
  */
module Tunnel {
  import opened Words
  import opened Sticky

  // `wire` is what the transport will still deliver, with the times at which it is read.
  datatype Conn = Conn(wire: seq<Chunk>, buffer: Buffer, stash: seq<seq<Byte>>, stashId: nat)

  datatype ReadResult = Eof | Got(bytes: seq<Byte>)

  function Fresh(chunks: seq<Chunk>, now: int): Conn {
    Conn(chunks, Start(now), [], 0)
  }

  /** Read: a stashed packet if there is one, otherwise the next chunk. */
  function ReadStep(p: Parser, deadline: int, c: Conn): (r: (Conn, ReadResult))
    requires Sound(c.buffer.indicator)
    ensures Sound(r.0.buffer.indicator)
  {
    if c.stashId < |c.stash| then (c.(stashId := c.stashId + 1), Got(c.stash[c.stashId]))
    else if c.wire == [] then (c, Eof)
    else
      var (b, packets) := AppendTo(p, c.buffer, deadline, c.wire[0].bytes, c.wire[0].now);
      var c' := c.(wire := c.wire[1..], buffer := b);
      if packets == [] then (c', Got([])) else (c'.(stash := packets, stashId := 1), Got(packets[0]))
  }

  /** The non-empty results of successive calls of Read until the stream ends. */
  function ReadAll(p: Parser, deadline: int, c: Conn): seq<seq<Byte>>
    requires Sound(c.buffer.indicator)
    decreases |c.wire|, |c.stash| - c.stashId
  {
    var (c', r) := ReadStep(p, deadline, c);
    if r.Eof? then [] else (if r.bytes == [] then [] else [r.bytes]) + ReadAll(p, deadline, c')
  }

  /** Calls of Append from a given buffer on. */
  function AppendFrom(p: Parser, deadline: int, b: Buffer, chunks: seq<Chunk>): (r: (Buffer, seq<seq<Byte>>))
    requires Sound(b.indicator)
    ensures Sound(r.0.indicator)
    decreases chunks
  {
    if chunks == [] then (b, [])
    else
      var (b1, packets) := AppendTo(p, b, deadline, chunks[0].bytes, chunks[0].now);
      var (b2, more) := AppendFrom(p, deadline, b1, chunks[1..]);
      (b2, packets + more)
  }

  lemma {:induction false} AppendFromSnoc(p: Parser, deadline: int, b: Buffer, chunks: seq<Chunk>, c: Chunk)
    requires Sound(b.indicator)
    ensures var (b1, packets) := AppendFrom(p, deadline, b, chunks);
            var (b2, more) := AppendTo(p, b1, deadline, c.bytes, c.now);
            AppendFrom(p, deadline, b, chunks + [c]) == (b2, packets + more)
    decreases chunks
  {
    hide AppendTo;
    if chunks == [] {
      assert chunks + [c] == [c] && [c][1..] == [];
      var (b2, more) := AppendTo(p, b, deadline, c.bytes, c.now);
      assert AppendFrom(p, deadline, b2, []) == (b2, []);
      assert AppendFrom(p, deadline, b, [c]) == (b2, more + []);
      assert more + [] == more && [] + more == more;
    } else {
      assert (chunks + [c])[1..] == chunks[1..] + [c];
      var (b0, first) := AppendTo(p, b, deadline, chunks[0].bytes, chunks[0].now);
      AppendFromSnoc(p, deadline, b0, chunks[1..], c);
      var (b1, packets) := AppendFrom(p, deadline, b0, chunks[1..]);
      var (b2, more) := AppendTo(p, b1, deadline, c.bytes, c.now);
      assert first + (packets + more) == (first + packets) + more;
    }
  }

  lemma {:induction false} AppendFromStart(p: Parser, deadline: int, started: int, chunks: seq<Chunk>)
    ensures AppendFrom(p, deadline, Start(started), chunks) == AppendAll(p, deadline, started, chunks)
  {
    hide AppendTo;
    if chunks != [] {
      var init, c := chunks[..|chunks| - 1], chunks[|chunks| - 1];
      AppendFromStart(p, deadline, started, init);
      AppendFromSnoc(p, deadline, Start(started), init, c);
      assert init + [c] == chunks;
    }
  }

  ghost predicate NoneEmpty(packets: seq<seq<Byte>>) {
    forall i | 0 <= i < |packets| :: packets[i] != []
  }

  lemma {:induction false} DrainNoneEmpty(p: Parser, data: seq<Byte>, indicator: Option<nat>)
    requires Sound(indicator)
    ensures NoneEmpty(Drain(p, data, indicator).0)
    decreases |data|, if indicator.None? then 1 else 0
  {
    if indicator.Some? {
      if |data| >= indicator.value {
        DrainNoneEmpty(p, data[indicator.value..], None);
      }
    } else if p(data).Some? {
      DrainNoneEmpty(p, data, p(data));
    }
  }

  lemma AppendNoneEmpty(p: Parser, b: Buffer, deadline: int, c: Chunk)
    requires Sound(b.indicator)
    ensures NoneEmpty(AppendTo(p, b, deadline, c.bytes, c.now).1)
  {
    var kept := if Expired(b, deadline, c.now) then Buffer([], b.appear, None) else b;
    DrainNoneEmpty(p, kept.data + c.bytes, kept.indicator);
  }

  /** The stash is invisible: Read hands out, one by one, what Append returns all together. */
  lemma {:induction false} ReadRefinesAppend(p: Parser, deadline: int, c: Conn)
    requires Sound(c.buffer.indicator) && c.stashId <= |c.stash| && NoneEmpty(c.stash)
    ensures ReadAll(p, deadline, c) == c.stash[c.stashId..] + AppendFrom(p, deadline, c.buffer, c.wire).1
    decreases |c.wire|, |c.stash| - c.stashId
  {
    var (c', r) := ReadStep(p, deadline, c);
    if c.stashId < |c.stash| {
      hide AppendTo, AppendFrom;
      ReadRefinesAppend(p, deadline, c');
      TakeFirst(c.stash, c.stashId, AppendFrom(p, deadline, c.buffer, c.wire).1);
    } else if c.wire != [] {
      AppendNoneEmpty(p, c.buffer, deadline, c.wire[0]);
      hide AppendTo;
      ReadRefinesAppend(p, deadline, c');
      TakeChunk(p, deadline, c);
    }
  }

  lemma TakeFirst<T>(s: seq<T>, i: nat, more: seq<T>)
    requires i < |s|
    ensures [s[i]] + (s[i + 1..] + more) == s[i..] + more
  {
  }

  /** A Read that takes a chunk off the wire leaves the packets it does not return in the stash. */
  lemma TakeChunk(p: Parser, deadline: int, c: Conn)
    requires Sound(c.buffer.indicator) && c.stashId == |c.stash| && c.wire != []
    requires NoneEmpty(AppendTo(p, c.buffer, deadline, c.wire[0].bytes, c.wire[0].now).1)
    ensures var (c', r) := ReadStep(p, deadline, c);
            && r.Got? && c'.stashId <= |c'.stash|
            && (if r.bytes == [] then [] else [r.bytes])
               + (c'.stash[c'.stashId..] + AppendFrom(p, deadline, c'.buffer, c'.wire).1)
               == AppendFrom(p, deadline, c.buffer, c.wire).1
  {
    var (b, packets) := AppendTo(p, c.buffer, deadline, c.wire[0].bytes, c.wire[0].now);
    hide AppendTo;
    var more := AppendFrom(p, deadline, b, c.wire[1..]).1;
    if packets != [] {
      assert packets == [packets[0]] + packets[1..];
      assert [packets[0]] + (packets[1..] + more) == packets + more;
    }
  }

  /** The bytes that Write puts on the stream for a sequence of packets: with the plain crypt the
      packets themselves, one after the other. */
  function Written(packets: seq<seq<Byte>>): seq<Byte> {
    Flatten(packets)
  }

  /** Tunnel delivery: however the transport cuts the stream, the non-empty results of Read are the
      packets given to Write, once each and in order, if and only if every chunk that comes later than
      the desticker's deadline after the last completed packet begins with a packet. */
  lemma TunnelDelivers(p: Parser, deadline: int, started: int, packets: seq<seq<Byte>>, chunks: seq<Chunk>)
    requires AllFrame(p, packets) && Bytes(chunks) == Written(packets)
    ensures ReadAll(p, deadline, Fresh(chunks, started)) == packets <==> Prompt(packets, deadline, started, chunks)
  {
    ReadRefinesAppend(p, deadline, Fresh(chunks, started));
    AppendFromStart(p, deadline, started, chunks);
    StreamDeliveredIff(p, deadline, started, chunks, packets);
  }

  /** At any time before the end, too: what has been read are the packets whose last byte has
      arrived, and no others. */
  lemma TunnelPrefix(p: Parser, deadline: int, started: int, packets: seq<seq<Byte>>, chunks: seq<Chunk>)
    requires AllFrame(p, packets) && Bytes(chunks) <= Written(packets)
    requires Prompt(packets, deadline, started, chunks)
    ensures ReadAll(p, deadline, Fresh(chunks, started)) == packets[..WholeIn(packets, |Bytes(chunks)|)]
  {
    ReadRefinesAppend(p, deadline, Fresh(chunks, started));
    AppendFromStart(p, deadline, started, chunks);
    LosesNothingIff(p, deadline, started, chunks, packets);
    Counts(p, deadline, started, chunks, packets);
  }

  class TCPConn {
    var wire: seq<Chunk>
    var sent: seq<Byte>
    const destick: Desticker
    var stash: seq<seq<Byte>>
    var stashId: nat

    ghost function Value(): Conn
      reads this, destick
    {
      Conn(wire, destick.Value(), stash, stashId)
    }

    ghost predicate Valid()
      reads this, destick
    {
      Sound(destick.indicator)
    }

    constructor (parse: Parser, deadline: int, wire: seq<Chunk>, now: int)
      ensures Valid() && fresh(destick) && Value() == Fresh(wire, now) && sent == []
      ensures destick.deadline == deadline && destick.parse == parse
    {
      this.wire, sent, stash, stashId := wire, [], [], 0;
      var d := new Desticker(parse, now);
      d.SetDeadline(deadline);
      destick := d;
    }

    /** Read copies a packet into `b` and returns its length; `eof` stands for the transport's error. */
    method Read(b: array<Byte>) returns (n: nat, eof: bool)
      requires Valid()
      modifies this`wire, this`stash, this`stashId, destick`data, destick`appear, destick`indicator, b
      ensures Valid() && sent == old(sent)
      ensures var (c, r) := ReadStep(destick.parse, destick.deadline, old(Value()));
              && Value() == c && (eof <==> r.Eof?)
              && (r.Got? ==> n == |r.bytes| && b[..Min(n, b.Length)] == r.bytes[..Min(n, b.Length)])
              && b[if eof then 0 else Min(n, b.Length)..] == old(b[if eof then 0 else Min(n, b.Length)..])
    {
      n, eof := 0, false;
      if |stash| <= stashId {
        if wire == [] {
          eof := true;
          return;
        }
        var c := wire[0];
        wire := wire[1..];
        var packets := destick.Append(c.bytes, c.now);
        if |packets| == 0 {
          return;
        }
        stash, stashId := packets, 0;
      }
      var packet := stash[stashId];
      forall i | 0 <= i < Min(|packet|, b.Length) {
        b[i] := packet[i];
      }
      stashId := stashId + 1;
      n := |packet|;
    }

    /** Write, with the plain crypt. */
    method Write(b: seq<Byte>) returns (n: nat)
      modifies this`sent
      ensures n == |b|
      ensures forall packets :: old(sent) == Written(packets) ==> sent == Written(packets + [b])
    {
      forall packets: seq<seq<Byte>> ensures Flatten(packets + [b]) == Flatten(packets) + b {
        FlattenSnoc(packets, b);
      }
      sent := sent + b;
      n := |b|;
    }
  }
}
