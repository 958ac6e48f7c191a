/**
  * TCP segmentation (internal/pcap/fragment.go, CreateTCPSegmentPackets): a payload that does not
  * fit is cut into segments with successive IPv4 Ids and, without a link layer, successive
  * sequence numbers.
  */
module Segments {
  import opened Words
  import opened Packets

  datatype TcpHeader = TcpHeader(srcPort: U16, dstPort: U16, seq_: U32, ack_: U32,
                                 syn: bool, psh: bool, ack: bool, rst: bool, fin: bool, options: seq<Byte>)

  datatype Segment = Segment(ip: IPv4, tcp: TcpHeader, payload: seq<Byte>)

  function TcpLen(t: TcpHeader): (n: nat)
    ensures n % 4 == 0 && 0 <= n - 20 - |t.options| < 4
  {
    20 + (|t.options| + 3) / 4 * 4
  }

  /** The header of the segment that starts at byte `i`. With a link layer the original TCP header
      is serialized, so the sequence number stays that of the first segment. */
  function SegmentTcp(link: bool, tcp: TcpHeader, i: nat): TcpHeader {
    if link then tcp else tcp.(seq_ := Wrap32(tcp.seq_ + i))
  }

  /** The loop, from byte `i` and segment number `n` on. */
  function SegmentsFrom(link: bool, ip: IPv4, tcp: TcpHeader, payload: seq<Byte>, i: nat, n: U16, room: nat)
    : seq<Segment>
    requires i <= |payload| && room > 0
    decreases |payload| - i
  {
    if i == |payload| then []
    else
      var length := Min(room, |payload| - i);
      [Segment(ip.(id := Wrap16(ip.id + n)), SegmentTcp(link, tcp, i), payload[i..i + length])]
      + SegmentsFrom(link, ip, tcp, payload, i + length, Wrap16(n + 1), room)
  }

  function SegmentPackets(link: bool, ip: IPv4, tcp: TcpHeader, payload: seq<Byte>, size: nat): seq<Segment>
    requires size > HeaderLen(ip) + TcpLen(tcp)
  {
    if HeaderLen(ip) + TcpLen(tcp) + |payload| > size
    then SegmentsFrom(link, ip, tcp, payload, 0, 0, size - HeaderLen(ip) - TcpLen(tcp))
    else [Segment(ip, tcp, payload)]
  }

  method CreateTCPSegmentPackets(link: bool, ip: IPv4, tcp: TcpHeader, payload: seq<Byte>, size: nat)
    returns (segments: seq<Segment>)
    requires size > HeaderLen(ip) + TcpLen(tcp)
    ensures segments == SegmentPackets(link, ip, tcp, payload, size)
  {
    var headers := HeaderLen(ip) + TcpLen(tcp);
    if headers + |payload| <= size {
      return [Segment(ip, tcp, payload)];
    }
    segments := CutSegments(link, ip, tcp, payload, size - headers);
  }

  /** The loop, with room for `room` bytes of payload in a segment. */
  method CutSegments(link: bool, ip: IPv4, tcp: TcpHeader, payload: seq<Byte>, room: nat)
    returns (segments: seq<Segment>)
    requires room > 0
    ensures segments == SegmentsFrom(link, ip, tcp, payload, 0, 0, room)
  {
    segments := [];
    var i, n: U16 := 0, 0;
    while i < |payload|
      invariant 0 <= i <= |payload|
      invariant segments + SegmentsFrom(link, ip, tcp, payload, i, n, room)
                == SegmentsFrom(link, ip, tcp, payload, 0, 0, room)
    {
      var length := Min(room, |payload| - i);
      var next := Segment(ip.(id := Wrap16(ip.id + n)), SegmentTcp(link, tcp, i), payload[i..i + length]);
      ghost var more := SegmentsFrom(link, ip, tcp, payload, i + length, Wrap16(n + 1), room);
      assert SegmentsFrom(link, ip, tcp, payload, i, n, room) == [next] + more;
      Associative(segments, [next], more);
      segments := segments + [next];
      i, n := i + length, Wrap16(n + 1);
    }
  }

  /** The payload bytes of the first `k` segments. */
  function Carried(segments: seq<Segment>, k: nat): seq<Byte>
    requires k <= |segments|
  {
    if k == 0 then [] else Carried(segments, k - 1) + segments[k - 1].payload
  }

  lemma {:induction false} CarriedCons(s: Segment, segments: seq<Segment>, k: nat)
    requires k <= |segments|
    ensures Carried([s] + segments, k + 1) == s.payload + Carried(segments, k)
  {
    if k == 0 {
      assert Carried([s] + segments, 0) == [];
      assert Carried([s] + segments, 1) == [] + s.payload;
    } else {
      CarriedCons(s, segments, k - 1);
      var all := [s] + segments;
      assert all[k] == segments[k - 1];
      assert Carried(all, k + 1) == Carried(all, k) + all[k].payload;
      assert Carried(segments, k) == Carried(segments, k - 1) + segments[k - 1].payload;
      hide Carried;
      Associative(s.payload, Carried(segments, k - 1), segments[k - 1].payload);
    }
  }

  /** What segment `k` of a cut looks like, when the cut starts at byte `i` and number `n`. */
  ghost predicate SegmentAt(s: Segment, link: bool, ip: IPv4, tcp: TcpHeader, payload: seq<Byte>, room: nat,
                            start: nat, number: nat) {
    && s.ip == ip.(id := Wrap16(ip.id + number))
    && s.tcp.(seq_ := tcp.seq_) == tcp
    && s.tcp.seq_ == (if link then tcp.seq_ else Wrap32(tcp.seq_ + start))
    && start <= |payload|
    && s.payload == payload[start..start + Min(room, |payload| - start)]
  }

  /** The first segment of a cut, and the others. */
  lemma FirstAndRest(link: bool, ip: IPv4, tcp: TcpHeader, payload: seq<Byte>, i: nat, n: nat, room: nat)
    returns (first: Segment, rest: seq<Segment>)
    requires i < |payload| && room > 0
    ensures SegmentsFrom(link, ip, tcp, payload, i, Wrap16(n), room) == [first] + rest
    ensures 0 < |first.payload| && i + |first.payload| <= |payload|
    ensures first.payload == payload[i..i + |first.payload|]
    ensures rest == SegmentsFrom(link, ip, tcp, payload, i + |first.payload|, Wrap16(n + 1), room)
    ensures SegmentAt(first, link, ip, tcp, payload, room, i, n)
  {
    var length := Min(room, |payload| - i);
    WrapAdd16(n, 1);
    WrapAdd16(n, ip.id);
    first := Segment(ip.(id := Wrap16(ip.id + n)), SegmentTcp(link, tcp, i), payload[i..i + length]);
    rest := SegmentsFrom(link, ip, tcp, payload, i + length, Wrap16(n + 1), room);
  }

  lemma {:induction false} SegmentsCarry(link: bool, ip: IPv4, tcp: TcpHeader, payload: seq<Byte>, i: nat, n: nat,
                                         room: nat)
    requires i <= |payload| && room > 0
    ensures var segments := SegmentsFrom(link, ip, tcp, payload, i, Wrap16(n), room);
            Carried(segments, |segments|) == payload[i..]
    decreases |payload| - i, 1
  {
    if i < |payload| {
      hide *;
      var segments := SegmentsFrom(link, ip, tcp, payload, i, Wrap16(n), room);
      var first, rest := FirstAndRest(link, ip, tcp, payload, i, n, room);
      OthersCarry(link, ip, tcp, payload, i, n, room, segments, first, rest);
    }
  }

  lemma {:induction false} OthersCarry(link: bool, ip: IPv4, tcp: TcpHeader, payload: seq<Byte>, i: nat, n: nat,
                                       room: nat, segments: seq<Segment>, first: Segment, rest: seq<Segment>)
    requires segments == [first] + rest && room > 0
    requires 0 < |first.payload| && i + |first.payload| <= |payload|
    requires first.payload == payload[i..i + |first.payload|]
    requires rest == SegmentsFrom(link, ip, tcp, payload, i + |first.payload|, Wrap16(n + 1), room)
    ensures Carried(segments, |segments|) == payload[i..]
    decreases |payload| - i, 0
  {
    hide *;
    SegmentsCarry(link, ip, tcp, payload, i + |first.payload|, n + 1, room);
    CarriedAll(first, rest);
    SliceTail(payload, i, i + |first.payload|);
  }

  lemma CarriedAll(first: Segment, rest: seq<Segment>)
    ensures var all := [first] + rest; Carried(all, |all|) == first.payload + Carried(rest, |rest|)
  {
    hide Carried;
    CarriedCons(first, rest, |rest|);
  }

  lemma SliceTail<T>(s: seq<T>, i: nat, j: nat)
    requires i <= j <= |s|
    ensures s[i..j] + s[j..] == s[i..]
  {
  }

  lemma CutAtEnd(link: bool, ip: IPv4, tcp: TcpHeader, payload: seq<Byte>, i: nat, n: U16, room: nat)
    requires i <= |payload| && room > 0
    ensures SegmentsFrom(link, ip, tcp, payload, i, n, room) != [] ==> i < |payload|
  {
  }

  lemma FirstAt(link: bool, ip: IPv4, tcp: TcpHeader, payload: seq<Byte>, room: nat, segments: seq<Segment>,
                i: nat, n: nat)
    requires segments != [] && SegmentAt(segments[0], link, ip, tcp, payload, room, i, n)
    ensures SegmentAt(segments[0], link, ip, tcp, payload, room, i + |Carried(segments, 0)|, n + 0)
  {
    hide SegmentAt;
    assert i + |Carried(segments, 0)| == i && n + 0 == n;
  }

  lemma {:induction false} SegmentsAre(link: bool, ip: IPv4, tcp: TcpHeader, payload: seq<Byte>, i: nat, n: nat,
                                       room: nat, k: nat)
    requires i <= |payload| && room > 0
    requires k < |SegmentsFrom(link, ip, tcp, payload, i, Wrap16(n), room)|
    ensures var segments := SegmentsFrom(link, ip, tcp, payload, i, Wrap16(n), room);
            SegmentAt(segments[k], link, ip, tcp, payload, room, i + |Carried(segments, k)|, n + k)
    decreases |payload| - i, 1
  {
    CutAtEnd(link, ip, tcp, payload, i, Wrap16(n), room);
    hide *;
    var segments := SegmentsFrom(link, ip, tcp, payload, i, Wrap16(n), room);
    var first, rest := FirstAndRest(link, ip, tcp, payload, i, n, room);
    if k == 0 {
      FirstAt(link, ip, tcp, payload, room, segments, i, n);
    } else {
      NextOf(link, ip, tcp, payload, i, n, room, k, segments, first, rest);
    }
  }

  lemma {:induction false} NextOf(link: bool, ip: IPv4, tcp: TcpHeader, payload: seq<Byte>, i: nat, n: nat,
                                  room: nat, k: nat, segments: seq<Segment>, first: Segment, rest: seq<Segment>)
    requires segments == [first] + rest && 0 < k <= |rest| && room > 0
    requires 0 < |first.payload| && i + |first.payload| <= |payload|
    requires rest == SegmentsFrom(link, ip, tcp, payload, i + |first.payload|, Wrap16(n + 1), room)
    ensures SegmentAt(segments[k], link, ip, tcp, payload, room, i + |Carried(segments, k)|, n + k)
    decreases |payload| - i, 0
  {
    hide *;
    SegmentsAre(link, ip, tcp, payload, i + |first.payload|, n + 1, room, k - 1);
    NextAt(link, ip, tcp, payload, room, segments, first, rest, i, n, k);
  }

  lemma NextAt(link: bool, ip: IPv4, tcp: TcpHeader, payload: seq<Byte>, room: nat, segments: seq<Segment>,
               first: Segment, rest: seq<Segment>, i: nat, n: nat, k: nat)
    requires segments == [first] + rest && 0 < k <= |rest|
    requires SegmentAt(rest[k - 1], link, ip, tcp, payload, room, i + |first.payload| + |Carried(rest, k - 1)|,
                       n + 1 + (k - 1))
    ensures SegmentAt(segments[k], link, ip, tcp, payload, room, i + |Carried(segments, k)|, n + k)
  {
    hide SegmentAt;
    CarriedCons(first, rest, k - 1);
    assert i + |first.payload| + |Carried(rest, k - 1)| == i + |Carried(segments, k)|;
    assert n + 1 + (k - 1) == n + k;
  }

  /** The segments carry the payload, in order, and there is one exactly when it fits. */
  lemma SegmentsJoin(link: bool, ip: IPv4, tcp: TcpHeader, payload: seq<Byte>, size: nat)
    requires size > HeaderLen(ip) + TcpLen(tcp)
    ensures var segments := SegmentPackets(link, ip, tcp, payload, size);
            && Carried(segments, |segments|) == payload
            && (|segments| == 1 <==> HeaderLen(ip) + TcpLen(tcp) + |payload| <= size)
  {
    var segments := SegmentPackets(link, ip, tcp, payload, size);
    var room := size - HeaderLen(ip) - TcpLen(tcp);
    OneSegment(segments);
    hide HeaderLen, TcpLen;
    if |payload| > room {
      SegmentsCarry(link, ip, tcp, payload, 0, 0, room);
      assert payload[0..] == payload;
    }
  }

  /** Each segment carries the bytes that follow those of the segments before it, as many as fit, and
      has the headers given, but for the Id, which is the number of the segment past the first, wrapping,
      and, without a link layer, for the sequence number, which is that of the first byte it carries. */
  lemma SegmentsTile(link: bool, ip: IPv4, tcp: TcpHeader, payload: seq<Byte>, size: nat, k: nat)
    requires size > HeaderLen(ip) + TcpLen(tcp)
    requires k < |SegmentPackets(link, ip, tcp, payload, size)|
    ensures var segments := SegmentPackets(link, ip, tcp, payload, size);
            SegmentAt(segments[k], link, ip, tcp, payload, size - HeaderLen(ip) - TcpLen(tcp),
                      |Carried(segments, k)|, k)
  {
    hide HeaderLen, TcpLen, SegmentAt, SegmentsFrom, Carried;
    if HeaderLen(ip) + TcpLen(tcp) + |payload| <= size {
      OnlyTile(link, ip, tcp, payload, size - HeaderLen(ip) - TcpLen(tcp));
    } else {
      SegmentsAre(link, ip, tcp, payload, 0, 0, size - HeaderLen(ip) - TcpLen(tcp), k);
    }
  }

  lemma OnlyTile(link: bool, ip: IPv4, tcp: TcpHeader, payload: seq<Byte>, room: nat)
    requires |payload| <= room
    ensures SegmentAt(Segment(ip, tcp, payload), link, ip, tcp, payload, room,
                      |Carried([Segment(ip, tcp, payload)], 0)|, 0)
  {
  }

  lemma OneSegment(segments: seq<Segment>)
    ensures |segments| == 1 ==> Carried(segments, 1) == segments[0].payload
    ensures Carried(segments, 0) == []
  {
    if |segments| == 1 {
      assert Carried(segments, 1) == Carried(segments, 0) + segments[0].payload;
    }
  }

  lemma {:induction false} CutNotEmpty(link: bool, ip: IPv4, tcp: TcpHeader, payload: seq<Byte>, i: nat, n: U16,
                                       room: nat, k: nat)
    requires i <= |payload| && room > 0 && k < |SegmentsFrom(link, ip, tcp, payload, i, n, room)|
    ensures SegmentsFrom(link, ip, tcp, payload, i, n, room)[k].payload != []
    decreases |payload| - i
  {
    if k > 0 {
      CutNotEmpty(link, ip, tcp, payload, i + Min(room, |payload| - i), Wrap16(n + 1), room, k - 1);
    }
  }

  /** A payload that is not empty is not cut into empty segments. */
  lemma SegmentsNotEmpty(link: bool, ip: IPv4, tcp: TcpHeader, payload: seq<Byte>, size: nat, k: nat)
    requires size > HeaderLen(ip) + TcpLen(tcp) && payload != []
    requires k < |SegmentPackets(link, ip, tcp, payload, size)|
    ensures SegmentPackets(link, ip, tcp, payload, size)[k].payload != []
  {
    if HeaderLen(ip) + TcpLen(tcp) + |payload| > size {
      CutNotEmpty(link, ip, tcp, payload, 0, 0, size - HeaderLen(ip) - TcpLen(tcp), k);
    }
  }
}
