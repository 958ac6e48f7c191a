# IkaGo: a model and its proofs

IkaGo carries whole IPv4 packets inside a real or imitated TCP connection from a client to a server,
and the server translates addresses and ports between the packets and the Internet. This project
models the four parts of it that keep state, in the form the Go source has (objects whose methods
update fields, loops, arrays), and proves what they do over every run:

- the server's port and Id translation: the allocator, the two tables, the three pools of last-use
  times, and the two packet handlers (`Ports`, `Nat`, `NatRuns`, `NatReplies`, `NatFlows`,
  `NatOrder`, `NatStrays`, `NatScenario`, `NatServer`);
- IPv4 fragmentation and reassembly (`Fragments`, `Reassembly`, `Orders`, `Interleaving`,
  `Provenance`, `Defragmenter`);
- recovering packets from a byte stream, and the connection of plain `tcp` mode (`Sticky`, `Tunnel`);
- FakeTCP: segmentation, handshake, sequence and acknowledgement numbers, Ids (`Segments`, `FakeTcp`,
  `FakeTcpLink`, `FakeTcpConn`).

`Words` holds the machine integers with their wrap-around and `Packets` the parsed packets.

Each stateful operation appears twice: as a method on a class with the fields of the source, and as a
function on the value of these fields. The method's `ensures` says that it takes exactly the step of the
function; the theorems are about the function and about the runs it generates.

## How to read the model

- A parsed packet is a record with the fields that the handlers read or write; `rest`, `options` and
  `payload` stand for bytes that they copy. `Packets.Parsed` says what the parsers let through; that a
  fragment is decoded without a transport layer, and everything else with one, is the behaviour of the
  gopacket library, which is not part of this model.
- A `net.Addr` becomes `Packets.Addr`, and its `String()` becomes `Packets.AddrText`, in which a TCP and a
  UDP address are the same text. The Go variable `nat` is the field `table` of `Nat.State`.
- Time is an integer number of nanoseconds and a parameter of each step. Only `NoReuseWhileActive` asks
  for a clock that does not run backwards.
- Whether a packet could be serialized and written is the parameter `wrote` of `Nat.Listen`. A Go panic is
  an outcome of the step (`ListenPanics`, `UpstreamPanics`), so that its absence is something to prove.
- `ParseEmbPacket`, as the desticker uses it, is a parameter `p: Parser`. What is asked of it about the
  packets of a stream is `Sticky.Frames`; `Sticky.PacketsFrame` shows a parser that meets it.
- Encryption is a pair of functions in `FakeTcp.Config`; the plain crypt is the identity.

## Where the code departs from its intent

The model follows the code. Each departure has an exact statement:

- A fragment sent by a client makes the server panic, and so does an ICMPv4 error, from either side, that
  quotes an ICMPv4 message of unsupported type; nothing else does (`NatRuns.PanicsExactly`). The
  documentation (dev.md:49) promises that fragments are kept and restored.
- An inbound ICMPv4 error is looked up under ICMPv4, so one about a TCP or UDP packet is never delivered
  (`NatReplies.InboundErrorDelivery`).
- A delivered inbound error refreshes the Id of its own header instead of that of the query it is about
  (`NatFlows.InboundErrorKeepsOuterId`). Flow number k has Id number k, for every k below 65536, exactly when no
  query flow is entered while such a stamp, at most 30 seconds old, is on the Id that is its turn
  (`NatOrder.InOrderIffPunctual`). `NatOrder.KthFlowGetsKthPort` says which Id a new flow gets instead, and
  `NatOrder.InboundErrorSkipsAnId` is an input. Ports are always in order (`NatOrder.PortsInOrder`).
- The pieces of a fragmented reply are forwarded with the external port in them
  (`NatReplies.FragmentsKeepExternalPort`).
- `patMap` never forgets, so more flows than ports share one, and TCP and UDP flows are isolated exactly
  while there are no more of them than ports. For ICMPv4 each Id that an error stamped out of turn can cost
  one: flows are isolated as long as the flows and these Ids together are at most 65536
  (`NatStrays.IsolationBound`). How sharing begins is said in `NatOrder.FullPoolShares`.
- Completion of a datagram is decided by a byte count, so the last arrival emits the datagram made of its
  fragments, and nothing else comes out, exactly when every fragment arrived once
  (`Provenance.RightIffNoDuplicates`). This is about the fragments handed over; the bytes of a datagram can
  be right in spite of a duplicate that equals the payload it displaces. `Provenance.DuplicateCompletes` is
  an input for which the bytes are wrong as well. `Provenance.EmitsIff` is the condition for any arrivals.
- The age of buffered stream data is counted from the last packet that came out, however fresh the data
  are. A stream is delivered exactly when every chunk that comes later than the deadline after the last
  completed packet begins with a packet (`Sticky.StreamDeliveredIff`). After a silence, a packet that comes
  in two chunks loses the first one (`Sticky.SilenceLosesFirstChunk`); what follows is served as in a new
  run (`Sticky.LateChunkStartsAfresh`).
- With a link layer all segments of a write carry the sequence number of the first, so the two ends agree
  after a write exactly when it fits one packet (`FakeTcpConn.AgreementAfterWriteIff`).
- The acknowledgement number is a maximum exactly while no end of data reaches 2^32
  (`FakeTcp.AckIsMaximumIff`).

## Model

| member | source | states |
|---|---|---|
| Ports.ScanFindsFirst | cmd/ikago-server/main.go:1227-1241 | the scan takes the first idle slot in cyclic order from the pointer, or leaves every slot it has seen busy, with the pointer moved by the steps made modulo 2^16 |
| Ports.ScanComplete | cmd/ikago-server/main.go:1222-1279 | a full lap fails if and only if every slot was used within 30 seconds, and otherwise returns an idle slot in range |
| Ports.ScanPool | cmd/ikago-server/main.go:1227-1241 | the loop over a pool array computes the scan |
| Nat.TakeInPool | cmd/ikago-server/main.go:1222-1283 | an allocated port or Id lies in its pool and its slot was idle; allocation fails if and only if no slot is |
| Nat.AssignGrows | cmd/ikago-server/main.go:728-746 | looking up or allocating keeps every flow's port, enters at most this flow, and refuses an error without a flow |
| Nat.ListenKeepsInv | cmd/ikago-server/main.go:699-991 | an outbound packet preserves the invariant and every port assignment, and panics exactly in two cases |
| Nat.ListenEffect | cmd/ikago-server/main.go:728-969 | a sent packet leaves from the port its flow owns and files the entry that leads back to it, unless it is an error |
| Nat.UpstreamKeepsInv | cmd/ikago-server/main.go:993-1220 | an inbound packet preserves the invariant and both tables, and panics exactly in one case |
| Nat.UpstreamDelivers | cmd/ikago-server/main.go:1017-1148 | a packet whose destination has an entry is delivered on its connection, every piece readdressed; any other is ignored |
| Nat.FoundEntryFits | cmd/ikago-server/main.go:1029-1040 | an entry that is found has the kind of endpoint that the packet's rewriting asserts and a port inside the pool |
| NatRuns.Run | cmd/ikago-server/main.go:657-684 | every reachable state has well-sized pools, ports in their pools, keys of the right kind and coherent tables |
| NatRuns.PanicsExactly | cmd/ikago-server/main.go:699-1148 | after any run a handler panics if and only if it is given a fragment from a client or an error that quotes an ICMPv4 message of a type other than the fifteen supported ones |
| NatRuns.TablesCohere | cmd/ikago-server/main.go:917-969 | after any run each entry under an external endpoint leads to the flow that owns that port or Id |
| NatRuns.PortsAreKept | cmd/ikago-server/main.go:733-746 | no event of any run changes the port of a flow that has one |
| NatRuns.QuoteOutInverse | cmd/ikago-server/main.go:777-832 | rewriting the quote of a delivered packet undoes the rewriting of the packet |
| NatRuns.QuotedHeaderInverse | cmd/ikago-server/main.go:768-848 | the headers built for an inner host's error about an unfragmented packet that was delivered quote exactly what the remote host sent, and are otherwise those of the error under the server's address, whatever happened in between |
| NatReplies.TableIsLastSender | cmd/ikago-server/main.go:960-969 | in every reachable state the table records, for each external endpoint, the last packet sent through it |
| NatReplies.ReplyReachesLastSender | cmd/ikago-server/main.go:1017-1075 | a reply is delivered if and only if someone sent through its destination, and then to the last sender, readdressed and otherwise unchanged, whatever the remote host |
| NatReplies.RoundTrip | cmd/ikago-server/main.go:728-1075 | until somebody else sends through the source of a sent packet, a reply to it comes back to the sender's inner endpoint on the sender's connection, whatever else happens |
| NatReplies.RequestRoundTrip | internal/pcap/icmp4.go:26-43 | each of the five kinds of ICMPv4 request makes the round trip with the reply of its kind |
| NatReplies.OutboundTranslation | cmd/ikago-server/main.go:724-772 | all packets of a flow leave from the same external endpoint for as long as the server runs, otherwise unchanged |
| NatReplies.OutboundError | cmd/ikago-server/main.go:728-848 | after any run an inner host's error is sent if and only if the flow it is about has a port or Id; its own source and the destination it quotes become external ones, and nothing else changes |
| NatReplies.InboundErrorDelivery | cmd/ikago-server/main.go:1018-1132 | an inbound error is delivered if and only if it quotes a query of a flow with an entry, and then to its last sender with nothing changed but its destination and the source it quotes |
| NatReplies.QueryErrorInverse | cmd/ikago-server/main.go:1076-1132 | until somebody else sends through its Id, an inbound error about a sent query arrives quoting exactly what the inner host sent, and otherwise unchanged but for its destination |
| NatReplies.FragmentsKeepExternalPort | cmd/ikago-server/main.go:1042-1148 | of the pieces of a fragmented reply only the destination address is rewritten |
| NatOrder.RunInOrder | cmd/ikago-server/main.go:724-747 | after every run that enters its flows in order they have the slots in that order, the other slots have the stamps of errors only, and the pointer is at the next one |
| NatOrder.InOrderIffPunctual | cmd/ikago-server/main.go:1222-1279 | over every run, flow number k has port or Id number k for every k in the pool if and only if no flow is entered while an error has stamped the slot that is its turn within 30 seconds |
| NatOrder.KthFlowGetsKthPort | cmd/ikago-server/main.go:1222-1275 | after such a run a new flow is given the k-th port or Id if and only if no error has stamped it within 30 seconds, and otherwise the next one that none has |
| NatOrder.InboundErrorSkipsAnId | cmd/ikago-server/main.go:1036-1040 | a delivered error whose own Id is the next in order makes a query flow that comes within 30 seconds skip it |
| NatOrder.IsolationIffEnoughPorts | cmd/ikago-server/main.go:724-747 | when flows are entered in order, no two share a port if and only if there are no more of them than ports |
| NatStrays.IsolationBound | cmd/ikago-server/main.go:724-747 | in every run more flows than ports share one, and none do as long as the flows and the Ids that errors stamped out of turn together fit the pool; for TCP and UDP there are no such Ids |
| NatStrays.NewFlowAlone | cmd/ikago-server/main.go:1222-1279 | while the flows and the Ids that errors stamped out of turn leave room in the pool, the packet of a new flow is not refused, and it is sent from a port that no other flow has |
| NatOrder.FullPoolShares | cmd/ikago-server/main.go:1222-1279 | when flows were entered in order and every port has one, a new flow is refused if and only if all ports are busy, and is otherwise sent from a port of another flow |
| NatFlows.FlowsAtMostOffered | cmd/ikago-server/main.go:724-747 | the flows of a run are no more than the distinct keys of the packets from clients in it, so that enough ports can be checked from the events |
| NatOrder.ReplyReachesOwner | cmd/ikago-server/main.go:1017-1027 | when flows are entered in order and there are enough ports, a delivered reply reaches the one flow that owns the port, client and inner endpoint |
| NatFlows.NoReuseWhileActive | cmd/ikago-server/main.go:971-983 | a port is given to a new flow only when every earlier packet through it, in either direction, is more than 30 seconds old |
| NatServer.Server.constructor | cmd/ikago-server/main.go:169-175 | the server starts with empty tables and unused pools |
| NatServer.Server.Allocate | cmd/ikago-server/main.go:1222-1279 | the allocator on the server's fields takes the modelled step |
| NatServer.Server.KeepAlive | cmd/ikago-server/main.go:971-983 | the keep-alive write is in range and stamps the slot of the port |
| NatServer.Server.AssignPort | cmd/ikago-server/main.go:728-746 | the lookup with allocation takes the modelled step and keeps the invariant |
| NatServer.Server.HandleListen | cmd/ikago-server/main.go:699-991 | the outbound handler takes the modelled step on the server's fields and keeps the invariant |
| NatServer.Server.HandleUpstream | cmd/ikago-server/main.go:993-1220 | the inbound handler takes the modelled step on the server's fields and keeps the invariant |
| NatServer.Rewrite | cmd/ikago-server/main.go:1042-1200 | the loop over the pieces rewrites every one |
| Fragments.ProgressIff | internal/pcap/fragment.go:281-299 | the splitting loop makes progress on every payload if and only if a fragment has room for 15 bytes |
| Fragments.CreateIPv4FragmentPackets | internal/pcap/fragment.go:259-348 | fragments tile the payload, fit the size, carry multiples of 8 bytes except the last, which has at least 8, and have the right flags and offsets and otherwise the header given; a payload that fits is left alone |
| Fragments.SplitPayload | internal/pcap/fragment.go:276-326 | the loop cuts the whole payload into at least two such pieces |
| Fragments.CutPiece | internal/pcap/fragment.go:286-320 | one round cuts an aligned piece and leaves nothing or at least 8 bytes |
| Fragments.FewestFragments | internal/pcap/fragment.go:286-299 | no fragmentation that fits has fewer fragments than the splitter makes |
| Fragments.FragmentCountBound | internal/pcap/fragment.go:286-299 | a payload that is cut needs at most its length over the aligned room, rounded up |
| Reassembly.CountFits | internal/pcap/fragment.go:37-38 | the 16-bit byte count does not wrap for a datagram of legal length |
| Reassembly.AddHolds | internal/pcap/fragment.go:33-51 | adding a fragment keeps the collection equal to what has arrived, in order of offset |
| Reassembly.CompletedIff | internal/pcap/fragment.go:53-55 | completion is recognized if and only if every fragment has arrived |
| Reassembly.OneKey | internal/pcap/fragment.go:153-156 | the fragments of one datagram are recognized as such and have one key |
| Reassembly.CollectAllAppend | internal/pcap/fragment.go:148-186 | serving two runs of arrivals one after the other is serving their concatenation |
| Orders.NothingEarly | internal/pcap/fragment.go:168-172 | nothing is emitted before the last fragment, in any order of arrival |
| Orders.ReassemblyInverts | internal/pcap/fragment.go:57-119 | in any order without duplicates the last arrival, and only it, emits all payloads in order of offset under the first header, in which nothing but flags and offset changes, to zero |
| Orders.SplitThenReassemble | internal/pcap/fragment.go:259-348 | what the splitter cuts is reassembled to the payload and header it was given |
| Interleaving.KeysAreIndependent | internal/pcap/fragment.go:153-186 | in every run a key is served as if its arrivals were the only ones |
| Interleaving.SequentialReuse | internal/pcap/fragment.go:174-175 | a key used for one datagram after another emits each of them |
| Interleaving.EveryDatagramOnce | internal/pcap/fragment.go:148-186 | in any interleaving each complete datagram is emitted exactly once, as in isolation |
| Interleaving.PassesThrough | internal/pcap/fragment.go:149-151 | in every run a packet that is no fragment comes out at once, unchanged and as its only piece |
| Interleaving.RunHandsOver | internal/pcap/fragment.go:148-186 | what is emitted is no fragment, and its pieces all are unless it arrived whole |
| Provenance.NextIsRecent | internal/pcap/fragment.go:157-170 | a collection holds exactly the fragments that arrived since it began |
| Provenance.EmittedFromRecent | internal/pcap/fragment.go:163-185 | an emitted datagram is made of consecutive arrivals, none used twice, no two successive ones further apart than the deadline |
| Provenance.EmitsIff | internal/pcap/fragment.go:37-55 | whatever arrives at a key, something is emitted if and only if the bytes of the inner fragments collected, modulo 2^16 and over 8, are the offset of the last final one; the pieces are in order of offset |
| Provenance.RightIffNoDuplicates | internal/pcap/fragment.go:53-55 | for fragments of one datagram arriving in time, in any order and any number of times: the last arrival, and only it, emits the datagram made of them if and only if every fragment arrived exactly once |
| Provenance.DuplicateCompletes | internal/pcap/fragment.go:53-55 | the first of three fragments arriving twice instead of an equally long second one with another payload completes a datagram that is not the one sent |
| Defragmenter.FragIndicator.Append | internal/pcap/fragment.go:33-51 | the indicator's fields take the modelled step |
| Defragmenter.FragIndicator.IsCompleted | internal/pcap/fragment.go:53-55 | the test is that of the model |
| Defragmenter.FragIndicator.ConcatenateFrags | internal/pcap/fragment.go:57-84 | the loop joins all payloads under the first header, flags and offset cleared |
| Defragmenter.EasyDefragmenter.Obtain | internal/pcap/fragment.go:157-168 | the indicator of a key is the one in the table or a new one, shared with no other key |
| Defragmenter.EasyDefragmenter.AppendOriginal | internal/pcap/fragment.go:148-186 | the table of indicator objects takes the modelled step, no two keys sharing an object |
| Sticky.DrainCuts | internal/pcap/sticky.go:36-61 | on a prefix of a stream of packets the loop cuts off exactly the packets that are complete |
| Sticky.BytesConserved | internal/pcap/sticky.go:22-68 | packets, buffer and discarded bytes add up to the bytes received, for any input |
| Sticky.ChunkingIndependence | internal/pcap/sticky.go:22-68 | for any chunking the packets handed out are the complete ones, in order, and the buffer is the rest |
| Sticky.LosesNothingIff | internal/pcap/sticky.go:25-31 | nothing is thrown away if and only if every chunk that comes later than the deadline after the last completed packet begins with a packet |
| Sticky.StreamDeliveredIff | internal/pcap/sticky.go:22-68 | a stream comes out as its packets, with an empty buffer, if and only if the times and sizes of its chunks meet that condition |
| Sticky.AppearIsLastEmission | internal/pcap/sticky.go:63-65 | the time that the deadline counts from is that of the last call that returned packets |
| Sticky.SilenceLosesFirstChunk | internal/pcap/sticky.go:25-31 | after more than a deadline without a packet and with an empty buffer, a packet that comes in two chunks loses the bytes of the first |
| Sticky.LateChunkStartsAfresh | internal/pcap/sticky.go:25-31 | from a chunk that comes too late on, a run goes on as a new one, whatever was buffered |
| Sticky.RecoversAfterLoss | internal/pcap/sticky.go:22-68 | a stream of packets that begins with such a chunk is delivered as if it were the first |
| Sticky.Desticker.Append | internal/pcap/sticky.go:22-68 | the loop on the object's fields takes the modelled step and terminates |
| Tunnel.ReadRefinesAppend | internal/pcap/tcpconn.go:66-111 | reading packets one by one from the stash is the same as taking them all at once |
| Tunnel.TunnelDelivers | internal/pcap/tcpconn.go:66-127 | the non-empty results of Read are the packets given to Write, in order, if and only if every chunk that comes later than the deadline after the last completed packet begins with a packet |
| Tunnel.TunnelPrefix | internal/pcap/tcpconn.go:66-127 | under the same condition, at any time before the end of the stream the results are exactly the packets whose last byte has arrived |
| Tunnel.TCPConn.Read | internal/pcap/tcpconn.go:66-111 | Read copies the packet into the caller's array as far as it goes, changes nothing else in it, and takes the modelled step |
| Tunnel.TCPConn.Write | internal/pcap/tcpconn.go:113-127 | Write extends the stream of the packets written by the new one |
| Segments.CreateTCPSegmentPackets | internal/pcap/fragment.go:350-449 | the method computes the modelled segments |
| Segments.CutSegments | internal/pcap/fragment.go:371-428 | the loop computes the modelled cut |
| Segments.SegmentsJoin | internal/pcap/fragment.go:371-428 | the segments carry the payload in order, and there is one if and only if it fits |
| Segments.SegmentsTile | internal/pcap/fragment.go:381-419 | each segment takes as many of the next bytes as fit, has the next Id, a sequence number that counts bytes without a link layer and is constant with one, and otherwise the headers given |
| FakeTcp.ThreeWayHandshake | internal/pcap/faketcpconn.go:165-352 | SYN, SYN and ACK, ACK, with the right flags and numbers from any state, leave both ends expecting what the other sends next |
| FakeTcp.SynEffect | internal/pcap/faketcpconn.go:165-228 | dialling and reconnecting send a SYN to the remote end with its numbers, count it, and touch no other client |
| FakeTcp.AcceptEffect | internal/pcap/faketcpconn.go:802-832 | an accepted connection answers the SYN from the port it came to and knows this client only |
| FakeTcp.WriteEffect | internal/pcap/faketcpconn.go:566-628 | a write to a known client sends it packets with its numbers that carry the encrypted contents in order, moves its sequence number past them, and touches nothing else; a write to an unknown one does nothing |
| FakeTcp.ReceiveReturns | internal/pcap/faketcpconn.go:452-535 | contents are handed out if and only if data of a known client decrypt; the two errors are exact as well |
| FakeTcp.ReceiveSends | internal/pcap/faketcpconn.go:436-493 | a RST is answered by a SYN to the remote end, a SYN and a known client's SYN and ACK by what the handshake asks for, and nothing else is sent |
| FakeTcp.ReceiveState | internal/pcap/faketcpconn.go:436-518 | the numbers of the sender and the state of the connection after any packet |
| FakeTcp.ReceiveKeepsOthers | internal/pcap/faketcpconn.go:436-518 | no other client changes but the remote end after a RST |
| FakeTcp.DoIds | internal/pcap/faketcpconn.go:216-219 | every operation numbers its packets from the counter and leaves the counter at the next Id |
| FakeTcp.IdsCountUp | internal/pcap/faketcpconn.go:615-623 | over every run the Ids sent on a connection count up modulo 2^16 |
| FakeTcp.IdsDistinct | internal/pcap/faketcpconn.go:615-623 | any 2^16 consecutive packets have different Ids |
| FakeTcp.AckIsMaximumIff | internal/pcap/faketcpconn.go:512-518 | after any reordering, loss and duplication the acknowledgement is the maximum end of data if and only if no end reaches 2^32 |
| FakeTcpLink.StepKeepsAgreement | internal/pcap/faketcpconn.go:358-651 | every write, reconnect and delivery keeps both directions in step |
| FakeTcpLink.AckPlusFlightIsSeq | internal/pcap/faketcpconn.go:358-651 | over every run, across any number of wraps, the acknowledgement plus the sequence space in flight is the sender's number modulo 2^32, and what was read plus what is in flight is what was written |
| FakeTcpConn.AgreementAfterWriteIff | internal/pcap/faketcpconn.go:596-613 | the ends agree after a non-empty write if and only if its contents fit one packet |
| FakeTcpConn.FakeTCPConn.Dial | internal/pcap/faketcpconn.go:58-89 | dialling makes a connection in the modelled state and sends its SYN |
| FakeTcpConn.FakeTCPConn.AcceptFrom | internal/pcap/faketcpconn.go:802-832 | accepting makes a connection in the modelled state and answers the SYN |
| FakeTcpConn.FakeTCPConn.SendSYN | internal/pcap/faketcpconn.go:165-228 | takes the modelled step |
| FakeTcpConn.FakeTCPConn.SendSYNACK | internal/pcap/faketcpconn.go:230-295 | takes the modelled step |
| FakeTcpConn.FakeTCPConn.SendACK | internal/pcap/faketcpconn.go:297-352 | takes the modelled step for a known client |
| FakeTcpConn.FakeTCPConn.ReadFrom | internal/pcap/faketcpconn.go:413-535 | takes the modelled step for every TCP packet when what it sends can be written |
| FakeTcpConn.FakeTCPConn.WriteTo | internal/pcap/faketcpconn.go:537-651 | takes the modelled step, cutting the contents with the segmenter |

## Left out

- Nat.Listen: starts from the parsed packet; an empty or unparsable one changes nothing, and the result is the packet before CreateFragmentPackets cuts it.
- Nat.Upstream: starts from what the reassembler hands over (`Interleaving.RunHandsOver` says what that is); a failed write to the client is not modelled, since the state does not depend on it.
- Nat.QuoteOut: the rewritten quote is the header the code builds (main.go:832); the payload handed to the serializer behind it (main.go:896) is not part of this model.
- NatRuns.QuotedHeaderInverse: about the header built, as above, and about packets that were delivered in one piece.
- NatOrder.KthFlowGetsKthPort: supposes that the flows before were entered in order; after a skipped Id `NatStrays.NewFlowAlone` says that the port is new, but not which one it is.
- NatFlows.NoReuseWhileActive: a delivered inbound error does not count as a use of the Id it is about, because the code does not stamp that Id.
- Reassembly.Insert: puts a fragment after those with the same offset; `sort.Slice` leaves the order of equal offsets open, which matters only for duplicates.
- Reassembly.Concatenate: re-parsing the reassembled bytes, and its errors, are not modelled.
- Sticky.Frames: that the library's parser meets it for IPv4 packets is an assumption about the library, shown here for a parser that reads the version and length fields.
- FakeTcp.Receive: one TCP packet at a time; UDP and fragments in the FakeTCP stream, read timeouts and log messages are left out, and so are the error results of a reconnection or handshake packet that cannot be written (faketcpconn.go:441-449, 480-488).
- FakeTcp.Write: a write that fails half way through its segments, and write timeouts, are left out.
- FakeTcp.Accept: the listener's own table of clients appears only as whether the accepting end knows the client yet.
- Client main program: its translation table has one key per packet kind and would add only easy members.
- StrictDefragmenter: a wrapper of a library that is not shown.
- KCP sessions, authenticated ciphers and key derivation: foreign libraries.
- Devices, pcap handles, filters, link-layer addresses, checksums and byte-level encoding: I/O and library code.
- Locks and goroutines: each handled packet is one atomic step.
- IPv6 in the segmenter: not supported by the program (README.md:143).
- Statistics, DNS records, configuration, firewall rules and the monitor: they do not affect the modelled state.
