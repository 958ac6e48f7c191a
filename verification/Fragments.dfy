/**
  * IPv4 fragmentation (internal/pcap/fragment.go, CreateIPv4FragmentPackets): what a set of
  * fragments of one datagram is, and the splitting loop.
  */
module Fragments {
  import opened Words
  import opened Packets

  const IPV4_MAX: int := 65535

  // An IPv4 header with the bytes it carries.
  datatype Datagram = Datagram(ip: IPv4, payload: seq<Byte>)

  /** The payloads of the first `k` datagrams, one after the other. */
  function Joined(frags: seq<Datagram>, k: nat): seq<Byte>
    requires k <= |frags|
  {
    if k == 0 then [] else Joined(frags, k - 1) + frags[k - 1].payload
  }

  /** The offset, in bytes, at which piece `k` starts. */
  function Before(frags: seq<Datagram>, k: nat): nat
    requires k <= |frags|
  {
    |Joined(frags, k)|
  }

  /** All the fragments of one datagram in order of offset (section 3.2 of RFC 791): More Fragments
      is clear on the last one only, every other one carries a positive multiple of 8 bytes, and
      the offsets are the running sum over 8. */
  ghost predicate FragmentSet(frags: seq<Datagram>) {
    && |frags| >= 2
    && (forall k {:trigger frags[k].ip} | 0 <= k < |frags| ::
          MoreFragments(frags[k].ip) == Follows(k, |frags|, false))
    && (forall k | 0 <= k < |frags| - 1 :: |frags[k].payload| > 0 && Aligned(|frags[k].payload|))
    && (forall k {:trigger frags[k].ip} | 0 <= k < |frags| :: 8 * frags[k].ip.fragOffset == Before(frags, k))
    && (forall k {:trigger frags[k].ip} | 0 <= k < |frags| ::
          frags[k].ip.id == frags[0].ip.id && frags[k].ip.src == frags[0].ip.src)
    && Before(frags, |frags|) <= IPV4_MAX
  }

  /** A fragmentation of `payload` under `ip` in which every fragment fits `size`. */
  ghost predicate Fits(frags: seq<Datagram>, payload: seq<Byte>, headerLen: nat, size: nat) {
    && FragmentSet(frags)
    && Joined(frags, |frags|) == payload
    && forall k | 0 <= k < |frags| :: headerLen + |frags[k].payload| <= size
  }

  /** One round of the loop: the length of the next piece when `rest` bytes are left and a fragment
      has `room` bytes for them. It is aligned unless it is the last, and it leaves the last piece
      at least 8 bytes. */
  function PieceLen(room: int, rest: int): int {
    var length := Min(room, rest);
    var aligned := if rest - length > 0 then length / 8 * 8 else length;
    if 0 < rest - aligned < 8 then aligned - 8 else aligned
  }

  /** The loop makes progress on every payload exactly when a fragment has room for 15 bytes. */
  lemma ProgressIff(room: int)
    requires room >= 0
    ensures (forall rest: nat | rest > 0 :: PieceLen(room, rest) > 0) <==> room >= 15
  {
    if room < 15 {
      var rest := if room < 8 then 8 else room + 1;
      assert PieceLen(room, rest) <= 0;
    }
  }

  /** The number of fragments a datagram needs. */
  function Pieces(room: int, rest: int): int
    requires room >= 15
  {
    if rest <= 0 then 0
    else if rest <= room then 1
    else 1 + CeilDiv(rest - room, room / 8 * 8)
  }

  function CeilDiv(x: int, m: int): int
    requires m > 0
  {
    (x + m - 1) / m
  }

  lemma CeilDivStep(x: int, m: int)
    requires m > 0
    ensures CeilDiv(x - m, m) == CeilDiv(x, m) - 1
  {
    var y := x + m - 1;
    assert y - m == (y / m - 1) * m + y % m;
    DivUnique(y - m, y / m - 1, y % m, m);
  }

  lemma CeilDivSmall(x: int, m: int)
    requires 0 < x <= m
    ensures CeilDiv(x, m) == 1
  {
  }

  /** What a round of the loop takes, and that it takes a fragment from the count. */
  lemma PieceStep(room: int, rest: int)
    requires room >= 15 && rest > 0
    ensures var len := PieceLen(room, rest);
            && 0 < len <= rest && len <= room
            && (len < rest ==> Aligned(len) && rest - len >= 8)
            && (len == rest <==> rest <= room)
            && Pieces(room, rest - len) == Pieces(room, rest) - 1
  {
    var m := room / 8 * 8;
    if rest > room {
      if rest - m >= 8 {
        if rest - m <= room {
          CeilDivSmall(rest - room, m);
        } else {
          CeilDivStep(rest - room, m);
        }
      } else {
        CeilDivSmall(rest - room, m);
      }
    }
  }

  /** The number of rounds the loop makes. */
  function Rounds(room: int, rest: nat): nat
    requires room >= 15
  {
    if rest == 0 then 0 else PieceStep(room, rest); 1 + Rounds(room, rest - PieceLen(room, rest))
  }

  lemma {:induction false} RoundsArePieces(room: int, rest: nat)
    requires room >= 15
    ensures Rounds(room, rest) == Pieces(room, rest)
  {
    if rest > 0 {
      PieceStep(room, rest);
      RoundsArePieces(room, rest - PieceLen(room, rest));
    }
  }

  method CreateIPv4FragmentPackets(ip: IPv4, payload: seq<Byte>, size: nat) returns (fragments: seq<Datagram>)
    requires size >= HeaderLen(ip) + 15
    requires HeaderLen(ip) + |payload| <= IPV4_MAX
    ensures HeaderLen(ip) + |payload| <= size ==> fragments == [Datagram(ip, payload)]
    ensures HeaderLen(ip) + |payload| > size ==>
              && Fits(fragments, payload, HeaderLen(ip), size)
              && |fragments[|fragments| - 1].payload| >= 8
              && |fragments| == Rounds(size - HeaderLen(ip), |payload|)
              && CutHeaders(fragments, ip)
  {
    hide Fits, CutHeaders, Rounds, Joined, Cut;
    var headerLen := HeaderLen(ip);
    if headerLen + |payload| <= size {
      return [Datagram(ip, payload)];
    }
    fragments := SplitPayload(ip, payload, size - headerLen);
    CutFits(fragments, ip, payload, headerLen, size);
  }

  /** The loop, with room for `room` bytes of payload in a fragment. */
  method SplitPayload(ip: IPv4, payload: seq<Byte>, room: int) returns (fragments: seq<Datagram>)
    requires 15 <= room < |payload|
    ensures |fragments| >= 2 && |fragments[|fragments| - 1].payload| >= 8
    ensures Joined(fragments, |fragments|) == payload
    ensures |fragments| == Rounds(room, |payload|)
    ensures Cut(fragments, ip, room, false)
  {
    hide SoFar, CutAt, Rounds, Cut, Joined;
    fragments := [];
    var i, remain := 0, |payload|;
    SoFarStart(ip, room, payload);
    while i < |payload|
      invariant 0 <= i && 0 <= remain && i + remain == |payload|
      invariant SoFar(fragments, ip, room, payload, i, remain)
      decreases remain
    {
      SoFarAligned(fragments, ip, room, payload, i, remain);
      var piece, rest, more := CutPiece(ip, payload, i, remain, room);
      SoFarStep(fragments, ip, room, payload, i, remain, piece, rest, more);
      fragments := fragments + [piece];
      i, remain := i + |piece.payload|, rest;
    }
    SoFarDone(fragments, ip, room, payload, i);
  }

  lemma SoFarStart(ip: IPv4, room: int, payload: seq<Byte>)
    requires 15 <= room < |payload|
    ensures SoFar([], ip, room, payload, 0, |payload|)
  {
  }

  lemma SoFarAligned(frags: seq<Datagram>, ip: IPv4, room: int, payload: seq<Byte>, i: nat, remain: nat)
    requires SoFar(frags, ip, room, payload, i, remain) && remain > 0
    ensures Aligned(i)
  {
  }

  lemma SoFarDone(frags: seq<Datagram>, ip: IPv4, room: int, payload: seq<Byte>, i: nat)
    requires SoFar(frags, ip, room, payload, i, 0)
    ensures |frags| >= 2 && |frags[|frags| - 1].payload| >= 8
    ensures Joined(frags, |frags|) == payload && |frags| == Rounds(room, |payload|) && Cut(frags, ip, room, false)
  {
    assert payload[..i] == payload;
  }

  /** The loop has cut the first `i` bytes and has `remain` bytes to go. */
  ghost predicate SoFar(frags: seq<Datagram>, ip: IPv4, room: int, payload: seq<Byte>, i: nat, remain: nat) {
    && room >= 15 && i + remain == |payload|
    && Joined(frags, |frags|) == payload[..i]
    && |frags| + Rounds(room, remain) == Rounds(room, |payload|)
    && (if remain > 0
        then Aligned(i) && (frags == [] <==> i == 0) && (i > 0 ==> remain >= 8) && Cut(frags, ip, room, true)
        else |frags| >= 2 && |frags[|frags| - 1].payload| >= 8 && Cut(frags, ip, room, false))
  }

  lemma SoFarStep(frags: seq<Datagram>, ip: IPv4, room: int, payload: seq<Byte>, i: nat, remain: nat,
                  piece: Datagram, rest: nat, more: bool)
    requires SoFar(frags, ip, room, payload, i, remain) && 0 < remain && room < |payload|
    requires 0 < |piece.payload| && |piece.payload| + rest == remain
    requires piece.payload == payload[i..i + |piece.payload|] && CutAt(piece, i, ip, room, more)
    requires more <==> rest > 0
    requires more ==> Aligned(i + |piece.payload|) && rest >= 8
    requires rest == 0 ==> remain <= room
    requires Rounds(room, remain) == 1 + Rounds(room, rest)
    ensures SoFar(frags + [piece], ip, room, payload, i + |piece.payload|, rest)
  {
    hide Rounds, CutAt, Aligned;
    AppendPiece(frags, piece, ip, room, more, payload, i);
  }

  /** One round: the piece that starts at byte `i`, the number of bytes after it, and whether there
      are any. */
  method CutPiece(ip: IPv4, payload: seq<Byte>, i: nat, rest: nat, room: int)
    returns (piece: Datagram, remain: nat, more: bool)
    requires room >= 15 && rest > 0 && i + rest == |payload| && Aligned(i)
    ensures 0 < |piece.payload| && |piece.payload| + remain == rest
    ensures piece.payload == payload[i..i + |piece.payload|]
    ensures more <==> remain > 0
    ensures CutAt(piece, i, ip, room, more)
    ensures more ==> Aligned(i + |piece.payload|) && remain >= 8
    ensures remain == 0 <==> rest <= room
    ensures Rounds(room, rest) == 1 + Rounds(room, remain)
  {
    var length := PieceLen(room, rest);
    PieceStep(room, rest);
    AlignedSum(i, length);
    remain := rest - length;
    more := remain > 0;
    piece := Datagram(PieceHeader(ip, more, i), payload[i..i + length]);
  }

  lemma AppendPiece(frags: seq<Datagram>, piece: Datagram, ip: IPv4, room: int, more: bool,
                    payload: seq<Byte>, i: nat)
    requires Cut(frags, ip, room, true) && CutAt(piece, Before(frags, |frags|), ip, room, more)
    requires i + |piece.payload| <= |payload| && piece.payload == payload[i..i + |piece.payload|]
    requires Joined(frags, |frags|) == payload[..i]
    ensures Cut(frags + [piece], ip, room, more)
    ensures Joined(frags + [piece], |frags + [piece]|) == payload[..i + |piece.payload|]
  {
    CutStep(frags, piece, ip, room, more);
    SliceSplit(payload, i, |piece.payload|);
  }

  lemma SliceSplit<T>(s: seq<T>, i: nat, n: nat)
    requires i + n <= |s|
    ensures s[..i] + s[i..i + n] == s[..i + n]
  {
  }

  predicate Aligned(n: int) {
    n % 8 == 0
  }

  lemma AlignedSum(a: int, b: int)
    requires Aligned(a)
    ensures Aligned(b) ==> Aligned(a + b)
  {
  }

  /** Whether bytes follow piece `k` of `n`, when bytes follow the last one exactly if `more`. */
  predicate Follows(k: int, n: int, more: bool) {
    k < n - 1 || more
  }

  /** The header of a piece: only the flags and the offset change. */
  function PieceHeader(ip: IPv4, more: bool, start: nat): IPv4 {
    FlagIPv4(ip, false, more, Wrap16(start / 8))
  }

  /** The pieces have the header `ip` but for the offset and the flags: More Fragments on all but the
      last, and Don't Fragment on none. */
  ghost predicate CutHeaders(frags: seq<Datagram>, ip: IPv4) {
    forall k {:trigger frags[k].ip} | 0 <= k < |frags| ::
      && frags[k].ip.(flags := ip.flags, fragOffset := ip.fragOffset) == ip
      && frags[k].ip.flags == (if k < |frags| - 1 then 1 else 0)
  }

  /** A piece that starts at byte `start`; `more` says whether bytes follow it. */
  ghost predicate CutAt(piece: Datagram, start: nat, ip: IPv4, room: int, more: bool) {
    && Aligned(start)
    && piece.ip == PieceHeader(ip, more, start)
    && |piece.payload| <= room
    && (more ==> |piece.payload| > 0 && Aligned(|piece.payload|))
  }

  /** What the loop has cut off so far; `more` says whether bytes are left. */
  ghost predicate Cut(frags: seq<Datagram>, ip: IPv4, room: int, more: bool) {
    forall k {:trigger frags[k].ip} | 0 <= k < |frags| ::
      CutAt(frags[k], Before(frags, k), ip, room, Follows(k, |frags|, more))
  }

  lemma CutStepAt(frags: seq<Datagram>, piece: Datagram, ip: IPv4, room: int, more: bool, k: nat)
    requires Cut(frags, ip, room, true) && k <= |frags|
    requires CutAt(piece, Before(frags, |frags|), ip, room, more)
    ensures var all := frags + [piece];
            CutAt(all[k], Before(all, k), ip, room, Follows(k, |all|, more))
  {
    JoinedAppend(frags, [piece], k);
    if k < |frags| {
      assert (frags + [piece])[k].ip == frags[k].ip;
    }
  }

  lemma CutStep(frags: seq<Datagram>, piece: Datagram, ip: IPv4, room: int, more: bool)
    requires Cut(frags, ip, room, true)
    requires CutAt(piece, Before(frags, |frags|), ip, room, more)
    ensures Cut(frags + [piece], ip, room, more)
    ensures Joined(frags + [piece], |frags| + 1) == Joined(frags, |frags|) + piece.payload
  {
    JoinedAppend(frags, [piece], |frags|);
    forall k | 0 <= k <= |frags|
      ensures CutAt((frags + [piece])[k], Before(frags + [piece], k), ip, room, Follows(k, |frags| + 1, more))
    {
      CutStepAt(frags, piece, ip, room, more, k);
    }
  }

  lemma {:induction false} BeforeMono(frags: seq<Datagram>, j: nat, k: nat)
    requires j <= k <= |frags|
    ensures Before(frags, j) <= Before(frags, k)
    decreases k
  {
    if j < k {
      BeforeMono(frags, j, k - 1);
    }
  }

  lemma CutAtFacts(piece: Datagram, start: nat, ip: IPv4, room: int, more: bool)
    requires CutAt(piece, start, ip, room, more) && start <= IPV4_MAX
    ensures 8 * piece.ip.fragOffset == start
    ensures MoreFragments(piece.ip) == more
    ensures piece.ip.id == ip.id && piece.ip.src == ip.src
    ensures piece.ip == PieceHeader(ip, more, start) && |piece.payload| <= room
    ensures more ==> |piece.payload| > 0 && Aligned(|piece.payload|)
  {
  }

  lemma CutFits(frags: seq<Datagram>, ip: IPv4, payload: seq<Byte>, headerLen: nat, size: nat)
    requires size >= headerLen && |frags| >= 2 && Cut(frags, ip, size - headerLen, false)
    requires Joined(frags, |frags|) == payload && |payload| <= IPV4_MAX
    ensures Fits(frags, payload, headerLen, size)
    ensures CutHeaders(frags, ip)
  {
    hide Cut, Joined, FragmentSet, CutHeaders;
    CutIsSet(frags, ip, size - headerLen);
    CutIsSized(frags, ip, size - headerLen);
  }

  lemma PieceHeaderIs(ip: IPv4, more: bool, start: nat)
    ensures var h := PieceHeader(ip, more, start);
            h.(flags := ip.flags, fragOffset := ip.fragOffset) == ip && h.flags == (if more then 1 else 0)
  {
  }

  lemma FollowsLast(k: int, n: int)
    ensures Follows(k, n, false) <==> k < n - 1
  {
  }

  lemma CutIsSized(frags: seq<Datagram>, ip: IPv4, room: int)
    requires Cut(frags, ip, room, false) && Before(frags, |frags|) <= IPV4_MAX
    ensures CutHeaders(frags, ip)
    ensures forall k | 0 <= k < |frags| :: |frags[k].payload| <= room
  {
    hide Cut, Aligned, MoreFragments, PieceHeader, Follows, Before;
    forall k | 0 <= k < |frags|
      ensures frags[k].ip.(flags := ip.flags, fragOffset := ip.fragOffset) == ip
      ensures frags[k].ip.flags == (if k < |frags| - 1 then 1 else 0)
    {
      CutPieceFacts(frags, ip, room, k);
      PieceHeaderIs(ip, Follows(k, |frags|, false), Before(frags, k));
      FollowsLast(k, |frags|);
    }
    forall k | 0 <= k < |frags| ensures |frags[k].payload| <= room {
      CutPieceFacts(frags, ip, room, k);
    }
  }

  lemma CutPieceFacts(frags: seq<Datagram>, ip: IPv4, room: int, k: nat)
    requires Cut(frags, ip, room, false) && k < |frags| && Before(frags, |frags|) <= IPV4_MAX
    ensures 8 * frags[k].ip.fragOffset == Before(frags, k)
    ensures MoreFragments(frags[k].ip) == Follows(k, |frags|, false)
    ensures frags[k].ip.id == ip.id && frags[k].ip.src == ip.src
    ensures k < |frags| - 1 ==> |frags[k].payload| > 0 && Aligned(|frags[k].payload|)
    ensures |frags[k].payload| <= room
    ensures frags[k].ip == PieceHeader(ip, Follows(k, |frags|, false), Before(frags, k))
  {
    var f := frags[k];
    assert f.ip == frags[k].ip;
    BeforeMono(frags, k, |frags|);
    hide CutAt, Aligned, MoreFragments, PieceHeader, Before;
    CutAtFacts(f, Before(frags, k), ip, room, Follows(k, |frags|, false));
  }

  lemma CutIsSet(frags: seq<Datagram>, ip: IPv4, room: int)
    requires |frags| >= 2 && Cut(frags, ip, room, false) && Before(frags, |frags|) <= IPV4_MAX
    ensures FragmentSet(frags)
  {
    hide Cut, Aligned, MoreFragments, PieceHeader, Follows, Joined, Before;
    CutPieceFacts(frags, ip, room, 0);
    forall k | 0 <= k < |frags| ensures 8 * frags[k].ip.fragOffset == Before(frags, k) {
      CutPieceFacts(frags, ip, room, k);
    }
    forall k | 0 <= k < |frags| ensures MoreFragments(frags[k].ip) == Follows(k, |frags|, false) {
      CutPieceFacts(frags, ip, room, k);
    }
    forall k | 0 <= k < |frags|
      ensures frags[k].ip.id == frags[0].ip.id && frags[k].ip.src == frags[0].ip.src
    {
      CutPieceFacts(frags, ip, room, k);
    }
    forall k | 0 <= k < |frags| - 1 ensures |frags[k].payload| > 0 && Aligned(|frags[k].payload|) {
      CutPieceFacts(frags, ip, room, k);
    }
  }

  /** The pieces of a prefix are joined in the same way. */
  lemma {:induction false} JoinedAppend(a: seq<Datagram>, b: seq<Datagram>, k: nat)
    requires k <= |a|
    ensures Joined(a + b, k) == Joined(a, k)
  {
    if k > 0 {
      JoinedAppend(a, b, k - 1);
    }
  }

  /** The splitter makes the fewest fragments: every fragmentation that fits has at least as many. */
  lemma FewestFragments(frags: seq<Datagram>, payload: seq<Byte>, headerLen: nat, size: nat)
    requires size >= headerLen + 15 && headerLen + |payload| > size
    requires Fits(frags, payload, headerLen, size)
    ensures |frags| >= Rounds(size - headerLen, |payload|)
  {
    var room := size - headerLen;
    var n := |frags| - 1;
    forall j | 0 <= j < n ensures |frags[j].payload| <= room / 8 * 8 {
      AlignedFit(|frags[j].payload|, room);
    }
    NonFinalFill(frags, n, room / 8 * 8);
    assert |payload| == Before(frags, n) + |frags[n].payload|;
    CeilDivLeast(|payload| - room, room / 8 * 8, n);
    RoundsArePieces(room, |payload|);
  }

  lemma AlignedFit(length: nat, room: int)
    requires length % 8 == 0 && length <= room
    ensures length <= room / 8 * 8
  {
  }

  /** The rounded-up quotient is the least factor that reaches. */
  lemma CeilDivLeast(x: int, m: int, n: int)
    requires m > 0 && x <= n * m
    ensures CeilDiv(x, m) <= n
  {
    DivMono(x + m - 1, n * m + m - 1, m);
    DivUnique(n * m + m - 1, n, m - 1, m);
  }

  lemma {:induction false} NonFinalFill(frags: seq<Datagram>, k: nat, m: nat)
    requires k <= |frags| && forall j | 0 <= j < k :: |frags[j].payload| <= m
    ensures Before(frags, k) <= k * m
  {
    if k > 0 {
      NonFinalFill(frags, k - 1, m);
      assert k * m == (k - 1) * m + m;
    }
  }

  /** The bound that ignores the larger last piece: the payload over the aligned room, rounded up. */
  lemma FragmentCountBound(room: int, length: int)
    requires room >= 15 && length > room
    ensures 2 <= Rounds(room, length) <= CeilDiv(length, room / 8 * 8)
  {
    var m := room / 8 * 8;
    CeilDivStep(length, m);
    CeilDivMono(length - room, length - m, m);
    CeilDivMono(1, length - room, m);
    CeilDivSmall(1, m);
    RoundsArePieces(room, length);
  }

  lemma CeilDivMono(x: int, y: int, m: int)
    requires m > 0 && x <= y
    ensures CeilDiv(x, m) <= CeilDiv(y, m)
  {
    DivMono(x + m - 1, y + m - 1, m);
  }

  lemma DivMono(x: int, y: int, m: int)
    requires m > 0 && x <= y
    ensures x / m <= y / m
  {
    var a, b := x / m, y / m;
    assert a * m <= x && y < b * m + m;
    if a > b {
      MulMono(b + 1, a, m);
      assert false;
    }
  }
}
