/**
  * Parsed packets (internal/pcap/packet.go, internal/pcap/icmp4.go, internal/pcap/layer.go,
  * internal/addr/addr.go): the IPv4 header, the transport layer with the ports and Ids that
  * address translation reads and writes, and the header quoted inside an ICMPv4 error.
  */
module Packets {
  import opened Words

  type IP = U32

  datatype Proto = TCP | UDP | ICMPv4

  // The `net.Addr` values that occur in address translation.
  datatype Addr =
    | IPAddr(ip: IP)
    | TCPAddr(ip: IP, port: U16)
    | UDPAddr(ip: IP, port: U16)
    | ICMPQueryAddr(ip: IP, id: U16)

  // What `String()` tells apart: a TCP and a UDP address print alike.
  datatype AddrText =
    | Host(ip: IP)
    | HostPort(ip: IP, port: U16)
    | HostId(ip: IP, id: U16)

  function Text(a: Addr): AddrText {
    match a
    case IPAddr(ip) => Host(ip)
    case TCPAddr(ip, port) => HostPort(ip, port)
    case UDPAddr(ip, port) => HostPort(ip, port)
    case ICMPQueryAddr(ip, id) => HostId(ip, id)
  }

  // The three flag bits: 1 is More Fragments, 2 is Don't Fragment.
  datatype IPv4 = IPv4(src: IP, dst: IP, id: U16, ttl: nat, flags: nat, fragOffset: U16, options: seq<Byte>)

  const DONT_FRAGMENT: nat := 2
  const MORE_FRAGMENTS: nat := 1

  predicate MoreFragments(h: IPv4) {
    h.flags % 2 == 1
  }

  predicate IsFragment(h: IPv4) {
    MoreFragments(h) || h.fragOffset != 0
  }

  /** The serialized header: 20 bytes and the options padded to a multiple of four. */
  function HeaderLen(h: IPv4): (n: nat)
    ensures n % 4 == 0 && 0 <= n - 20 - |h.options| < 4
    ensures |h.options| <= 40 ==> n <= 60
  {
    20 + (|h.options| + 3) / 4 * 4
  }

  /** FlagIPv4Layer: replaces the whole flag field and the fragment offset. */
  function FlagIPv4(h: IPv4, df: bool, mf: bool, offset: U16): IPv4 {
    h.(flags := if mf then MORE_FRAGMENTS else if df then DONT_FRAGMENT else 0, fragOffset := offset)
  }

  // `rest` stands for the header fields that translation copies.
  datatype Transport =
    | Tcp(srcPort: U16, dstPort: U16, rest: seq<Byte>)
    | Udp(srcPort: U16, dstPort: U16, rest: seq<Byte>)
    | Icmp(ty: nat, id: U16, rest: seq<Byte>, quote: Option<Quote>)

  // The IPv4 header and transport header that an ICMPv4 error quotes.
  datatype Quote = Quote(ip: IPv4, transport: Transport)

  datatype Packet = Packet(ip: IPv4, transport: Option<Transport>, payload: seq<Byte>)

  // Echo, router, timestamp, information and address mask messages.
  predicate IsQueryType(ty: nat) {
    ty in {0, 8, 9, 10, 13, 14, 15, 16, 17, 18}
  }

  // Unreachable, source quench, redirect, time exceeded, parameter problem.
  predicate IsErrorType(ty: nat) {
    ty in {3, 4, 5, 11, 12}
  }

  predicate SupportedType(ty: nat) {
    IsQueryType(ty) || IsErrorType(ty)
  }

  predicate IsError(t: Transport) {
    t.Icmp? && IsErrorType(t.ty)
  }

  predicate IsQuery(t: Transport) {
    t.Icmp? && IsQueryType(t.ty)
  }

  /** What the parsers accept: a fragment has no transport layer and nothing else lacks one; an
      ICMPv4 message has a supported type and quotes a packet exactly when it is an error. The
      type of a quoted ICMPv4 message is not checked, and nothing is quoted inside a quote. */
  predicate Parsed(p: Packet) {
    && (p.transport.None? <==> IsFragment(p.ip))
    && (p.transport.Some? && p.transport.value.Icmp? ==>
          var t := p.transport.value;
          && SupportedType(t.ty)
          && (t.quote.Some? <==> IsErrorType(t.ty))
          && (t.quote.Some? && t.quote.value.transport.Icmp? ==> t.quote.value.transport.quote.None?))
  }

  function ProtoOf(t: Transport): Proto {
    match t
    case Tcp(_, _, _) => TCP
    case Udp(_, _, _) => UDP
    case Icmp(_, _, _, _) => ICMPv4
  }

  /** A quoted ICMPv4 message of unsupported type makes the address accessors panic. */
  predicate QuotesUnsupported(t: Transport) {
    && IsError(t)
    && t.quote.Some?
    && t.quote.value.transport.Icmp?
    && !SupportedType(t.quote.value.transport.ty)
  }

  /** Source endpoint of a header that is not an ICMPv4 error. */
  function SrcEndpoint(ip: IPv4, t: Transport): Addr {
    match t
    case Tcp(s, _, _) => TCPAddr(ip.src, s)
    case Udp(s, _, _) => UDPAddr(ip.src, s)
    case Icmp(ty, id, _, _) => if IsQueryType(ty) then ICMPQueryAddr(ip.src, id) else IPAddr(ip.src)
  }

  /** Destination endpoint of a header that is not an ICMPv4 error. */
  function DstEndpoint(ip: IPv4, t: Transport): Addr {
    match t
    case Tcp(_, d, _) => TCPAddr(ip.dst, d)
    case Udp(_, d, _) => UDPAddr(ip.dst, d)
    case Icmp(ty, id, _, _) => if IsQueryType(ty) then ICMPQueryAddr(ip.dst, id) else IPAddr(ip.dst)
  }

  /** NATSrc: an error stands for the flow of the packet it quotes, with the ends flipped (EmbSrc).
      `None` is the panic on a quoted ICMPv4 message of unsupported type. */
  function NATSrc(ip: IPv4, t: Transport): Option<Addr>
    requires IsError(t) ==> t.quote.Some?
  {
    if !IsError(t) then Some(SrcEndpoint(ip, t))
    else if QuotesUnsupported(t) then None
    else Some(DstEndpoint(t.quote.value.ip, t.quote.value.transport))
  }

  /** NATDst: the mirror image of NATSrc (EmbDst). */
  function NATDst(ip: IPv4, t: Transport): Option<Addr>
    requires IsError(t) ==> t.quote.Some?
  {
    if !IsError(t) then Some(DstEndpoint(ip, t))
    else if QuotesUnsupported(t) then None
    else Some(SrcEndpoint(t.quote.value.ip, t.quote.value.transport))
  }

  function NATProtocol(t: Transport): Proto
    requires IsError(t) ==> t.quote.Some?
  {
    if IsError(t) then ProtoOf(t.quote.value.transport) else ProtoOf(t)
  }
}
