# The MAGI network stack, modelled and proved

MAGI is a network simulator: hosts with a TCP/IP stack, routers, VLAN switches, small application
servers, a JSON topology format and a PNG export. This project models the parts of it whose
correctness is not visible from one function body, and proves what they promise:

- **TCP** (`TcpWire`, `TcpSpec`, `TcpSocket`, `TcpReassembly`, `TcpRun`, `TcpAnswers`, `TcpTransfer`,
  `TcpLife`): the control block with its
  out-of-order buffer, unacknowledged buffer and eleven states. `TcpSocket` is the object with its
  arrays, `TcpSpec` the same operations on values; every method is proved equal to its function.
  `TcpRun` puts two endpoints on a network that loses, duplicates, delays and reorders segments and
  proves safety over all interleavings, following section 3.3 (sequence numbers), section 3.5 (closing)
  and section 3.9 (SEGMENT ARRIVES) of RFC 793. `TcpAnswers` says which segments are answered, with
  what, and where each leads; `TcpTransfer` what an answer does for the sender; `TcpLife` that among the
  runs is, for all data both ways, one that delivers all of it and closes.
- **Sockets of a host** (`SourcePorts`, `Demux`, `SocketLookup`): source port search, lookup by
  four-tuple, child sockets, recycling of TIME_WAIT slots, over all runs, and each step slot by slot.
- **Address resolution** (`PendingQueue`, `PendingTrace`, `AddressBits`, `HostArp`, `HostSending`, and for
  the router `RouterArp`, `RouterRun`, `RouterRequests`, `RouterSending`, `RouterFlush`, `RouterNode`):
  whom a packet is handed to, told by prefix bits; the circular queue of
  packets waiting for an ARP reply as a refinement of a sequence; the retry loops of host and router
  with their termination proofs, including the router's mutual recursion through the ICMP errors it
  queues in the queue it is draining and the answers that arrive inside its own requests; what becomes
  of every packet, as a trace.
- **Checksums and wire formats** (`Checksum`, `Ipv4Wire`, `IcmpWire`, `TcpWire`, `UdpWire`,
  `EthernetWire`, `WireLayouts`): the end-around-carry sum of RFC 1071, serialising, parsing and
  validating, and the layouts byte by byte.
- **VLAN switching** (`VlanSwitch`, `SwitchForwarding`, `VlanRun`): MAC learning, ingress and egress rules, flooding, and
  isolation over all runs of a network of switches (IEEE 802.1Q).
- **Parser and printer pairs**: JSON text (`JsonText`, `JsonParser`, `JsonWriter`, `JsonRoundTrip`), also
  against the grammar of RFC 8259 (`JsonGrammar`, `JsonPrinted`), DNS
  names and messages (`DnsNames`, `DnsServer`, `DnsMessages`), and the PNG writer's CRC-32 (`Crc32`) and stored zlib
  stream (`StoredDeflate`).

Objects that the program updates in place are classes here (`TcpSocket.TcpSocket`,
`PendingQueue.Ring`, `HostArp.Sender`, `RouterNode.Forwarder`, `Demux.SocketTable`,
`VlanSwitch.SwitchNode`, `JsonParser.Parser`, `JsonWriter.Writer`, `DnsServer.Server`,
`Crc32.Encoder`). Time is a real number and a parameter; what is sent is recorded in traces.

## What the code does not do

Where a property does not hold of the code everywhere, the exact condition is proved:

- `recvSeq(peer) <= sendSeq` fails, by exactly one, from the moment the peer has counted an endpoint's
  SYN until the endpoint leaves SYN_SENT or SYN_RECEIVED (`TcpRun.NumbersOrdered` inside
  `TcpRun.EveryRunIsSafe`).
- Sequence numbers are compared with `<`: bytes whose number has wrapped are taken for old ones, exactly
  those (`TcpReassembly.FiledUnlessWrapped`, with `TcpReassembly.NewByteLostAtTheWrap` as the smallest
  input); the TCP theorems hold for streams that end, FIN included, below the wrap.
- If the router's ARP table is full when a reply comes, the flushing loop sends the waiting packets to
  an address that is still unknown. With real time, with two or more packets, or if the interface has no
  address it never ends (`RouterFlush.FlushNeverEnds`). Otherwise its own request decides: while it is
  answered, and finds no room again, the flush goes on inside itself, so with answers that never stop
  it never ends (`RouterFlush.AnswersKeepItGoing`); if none comes, one turn ends it, with the packet asked
  for in vain and dropped (`RouterFlush.FlushGivesUp`, `RouterFlush.FlushStuckExactly`).
  A router whose loop never ends is `stuck` in the model. The host does not flush without the entry.
- An ARP request teaches an address but flushes nothing: the packets waiting for it are still retried and,
  if no retry is answered, given up (`HostArp.PollIgnoresTheTable`).
- An access VLAN above 65535 may be cut to another VLAN on a trunk: `VlanSwitch.TrunkTagIsExact` says for
  which. A cable whose ports are reconfigured under a frame leaks it unless the frame is, under the new
  configuration, admitted as itself in its own VLAN or not at all (`VlanRun.UnsafeChangeLeaks`);
  `VlanRun.HarmlessExactly` says which frames those are. In a configuration that is left alone, a frame
  of a VLAN can leave the network by the port it entered by exactly if a walk of ports that carry the
  VLAN, never straight back over a cable, leads from that switch back to it: it lies on a loop of the
  cabling or is joined to one (`VlanRun.ReturnsExactly`; the smallest is `VlanRun.SmallestLoop`). An
  untagged frame of type 0x8100 is read as tagged (`EthernetWire.UntaggedLooksTagged`).
- DNS names round-trip with labels up to 191 bytes, not 63, and not with empty labels or a trailing dot
  (`DnsNames.NameRoundTrip`).
- The first compression pointer of a DNS name is read wrongly: its low byte is taken from the second byte
  behind the pointer, or from behind the message (`DnsNames.FirstPointer`), so the pointer is not followed
  (`DnsNames.PointerNotFollowed`). If a name stands where decoding goes on, that one comes out, so the
  result is right exactly if it is the name meant (`DnsNames.CompressedName`). Decoding never ends exactly
  on a cycle of later pointers, with no label in between (`DnsNames.EndlessExactly`); such messages exist
  (`DnsNames.PointsToItself`).
- The DNS response's space check is two bytes short: exactly when it is overrun is
  `DnsServer.OverrunsExactly`, and that it is, `DnsServer.OverrunHappens`. A name added with a slash or a
  leading "http://" is not found under itself, because resolving cuts it (`DnsServer.AddedResolves`).
- JSON nested more than 32 deep is written but not read (`JsonRoundTrip.RoundTrip`).
- Numbers with an exponent are refused as JSON (`JsonGrammar.ExponentRefused`), and the escapes of b, f and u are
  read as that letter (`JsonGrammar.OtherEscapesStay`); all other standard text is read as what it stands for
  (`JsonGrammar.StandardTextsRead`).
- An empty image is written without any final block (`StoredDeflate.RoundTrip`).
- The IPv4 header checksum does not protect the type of service, identification, flags and fragment
  offset; of the other words every change is noticed but the exchange of 0x0000 and 0xFFFF
  (`Ipv4Wire.HeaderErrorsDetected`).
- A one-word change of a checksummed message escapes only as 0x0000 for 0xFFFF or the reverse, and the
  reverse not even if it leaves nothing but zeros (`Checksum.OneWordErrorDetected`).

## Model

| member | source | states |
|---|---|---|
| TcpRun.EveryRunIsSafe | magi_system/layer4/tcp_socket.c:360-633 | In every state of every run of two endpoints over a losing, duplicating, reordering network, both ways: what was read and what is readable is the prefix of the sent stream up to recvSeq; acknowledged <= received <= sent, with the handshake's off-by-one; FIN_WAIT_2, TIME_WAIT and the release from LAST_ACK imply that the peer has every byte and the FIN; a FIN is consumed only when nothing before it is missing; in ESTABLISHED the send buffer is exactly the stream from sendAck to sendSeq |
| TcpRun.FlowControl | magi_system/layer4/tcp_socket.c:52-66 | In every run every data segment on the network, old duplicates included, passes the checksum and window test of a receiver in any state that buffers data; it is refused exactly when unread and waiting bytes exceed 4096, so never once everything has been read |
| TcpRun.WindowHolds | magi_system/layer4/tcp_socket.c:284-306 | A sender never has more than 4096 bytes beyond what its peer received |
| TcpRun.AckClause | magi_system/layer4/tcp_socket.c:100-124 | A legitimate acknowledgement removes exactly the acknowledged prefix of the send buffer; the clamp to the buffer size is never taken |
| TcpRun.PayloadClause | magi_system/layer4/tcp_socket.c:30-98 | A segment cut from the peer's stream extends what was received in order and disturbs nothing else |
| TcpRun.FinMeansAll | magi_system/layer4/tcp_socket.c:495-520 | A FIN at the next expected sequence number means that every byte of the peer has arrived |
| TcpRun.FinClause | magi_system/layer4/tcp_socket.c:495-602 | In ESTABLISHED, FIN_WAIT_1 and FIN_WAIT_2 a FIN is consumed only if nothing before it is missing; otherwise the socket stays as it was |
| TcpRun.FinAckedClause | magi_system/layer4/tcp_socket.c:556-622 | An acknowledgement of our FIN in FIN_WAIT_1, CLOSING or LAST_ACK means that the peer has every byte and the FIN |
| TcpRun.ArrivalSound | magi_system/layer4/tcp_socket.c:360-633 | Any segment in any state keeps the invariant, and the response is one that may go on the network |
| TcpRun.ActionKeeps | magi_system/layer7/magi_socket.c:172-360 | Connecting, sending, reading, closing, releasing and receiving all keep the two-endpoint invariant while the stream stays below the wrap |
| TcpRun.HandshakeIsARun | magi_system/layer4/tcp_socket.c:375-471 | For all addresses and ports the three-way handshake is a run that ends in ESTABLISHED on both sides |
| TcpAnswers.AnswersExactly | magi_system/layer4/tcp_socket.c:360-633 | For every control block and segment: answered are exactly the valid segments that open a connection, or carry data or a FIN in a state that takes them; a SYN by a SYN and its acknowledgement, all others by a valid bare ACK of everything received, this segment included, with the next sequence number to send |
| TcpAnswers.MovesExactly | magi_system/layer4/tcp_socket.c:375-633 | For every control block and segment: the next state, what is counted as received, and what stays; an invalid segment changes nothing |
| TcpAnswers.FlagBits | magi_system/layer4/tcp.h:15-21 | Which bits of the flags byte are FIN, SYN, RST and ACK |
| TcpAnswers.SendsExactly | magi_system/layer7/magi_socket.c:278-323 | Exactly when data is taken, and that it goes out at once as it is, in a valid PSH segment with the old sequence number |
| TcpAnswers.ClosesExactly | magi_system/layer7/magi_socket.c:453-511 | From which states a FIN goes out, valid and with a sequence number of its own, and what the others do |
| TcpAnswers.ReadsInOrder | magi_system/layer4/tcp_socket.c:308-326 | However reads are cut, together they hand out the first bytes of the buffer, as many as were asked for or are there, and leave the others |
| TcpTransfer.AnswerAcknowledges | magi_system/layer4/tcp_socket.c:486-615 | Whatever data segment of an established sender reaches its peer, old or new, stored or refused: it is answered, and once the answer arrives the send buffer is exactly what the peer has not received |
| TcpTransfer.RestArrives | magi_system/layer4/tcp_socket.c:30-98 | The segment that carries all that is missing is received whole if there is room: the stream is complete and readable |
| TcpTransfer.FinArrives | magi_system/layer4/tcp_socket.c:500-605 | A FIN behind everything received is taken, acknowledged with a number of its own, and leads to CLOSE_WAIT, CLOSING or TIME_WAIT |
| TcpLife.EverythingArrives | magi_system/layer4/tcp_socket.c:360-633 | For all endpoints and all chunks of 1 to 1460 bytes both ways, below the wrap, some run from the start opens the connection, brings exactly those bytes to the application on the other side, and closes: one side in TIME_WAIT, the other released |
| TcpLife.ChunksCross | magi_system/layer7/magi_socket.c:278-360 | From any two quiet endpoints any chunks cross, are read and acknowledged, and leave both quiet |
| TcpLife.HalfCloses | magi_system/layer4/tcp_socket.c:500-598 | Closing one side leads it to FIN_WAIT_2 and the other to CLOSE_WAIT |
| TcpLife.OtherCloses | magi_system/layer4/tcp_socket.c:582-626 | Then closing the other leads to TIME_WAIT and a released socket |
| TcpLife.BothClose | magi_system/layer4/tcp_socket.c:533-615 | If both close before a FIN arrives, both pass through CLOSING to TIME_WAIT |
| TcpReassembly.OrderIndependent | magi_system/layer4/tcp_socket.c:30-98 | Two orders of arrival of overlapping, repeated or old pieces of one stream that accept the same bytes end with the same next sequence number, the same waiting bytes and the same bytes handed over or ready |
| TcpReassembly.RunRepresents | magi_system/layer4/tcp_socket.c:30-98 | After any sequence of arrivals and reads recvSeq stands at the first byte not accepted, the slots hold exactly the accepted bytes beyond it, and what was handed over or is ready is the stream before it |
| TcpReassembly.OfferKeeps | magi_system/layer4/tcp_socket.c:30-98 | One call appends the next bytes of the stream to the readable ones and nothing else |
| TcpReassembly.RefusedIff | magi_system/layer4/tcp_socket.c:52-66 | Exactly which pieces of a stream the window test and the capacity test refuse |
| TcpReassembly.FiledUnlessWrapped | magi_system/layer4/tcp_socket.c:38-50 | For every state of the buffer, offset into the window and payload: it is filed at its place exactly if its sequence number has not wrapped, and is otherwise taken for a duplicate and dropped |
| TcpReassembly.NewByteLostAtTheWrap | magi_system/layer4/tcp_socket.c:38-50 | The smallest such loss: the byte after sequence number 2^32 - 1 |
| TcpSocket.TcpSocket.BufferPayload | magi_system/layer4/tcp_socket.c:30-98 | The in-place trimming, filing, scanning and shifting of the buffers computes TcpSpec.BufferPayload |
| TcpSocket.TcpSocket.Advance | magi_system/layer4/tcp_socket.c:77-95 | The contiguous front of the slots moves behind the readable bytes and the slots shift by as many |
| TcpSocket.TcpSocket.AcknowledgeData | magi_system/layer4/tcp_socket.c:100-124 | The memmove of the send buffer drops the acknowledged prefix |
| TcpSocket.TcpSocket.ReceiveSegment | magi_system/layer4/tcp_socket.c:360-633 | The state machine on the object equals TcpSpec.Receive: return value, new state and response |
| TcpSocket.TcpSocket.SendData | magi_system/layer7/magi_socket.c:278-323 | Buffering, the PSH segment with the old sequence number, and the advance of sendSeq; refused outside ESTABLISHED, empty, oversized or when the buffer is full |
| TcpSocket.TcpSocket.RecvData | magi_system/layer4/tcp_socket.c:308-326 | The oldest readable bytes are handed out and removed, in place |
| TcpSocket.TcpSocket.CloseSocket | magi_system/layer7/magi_socket.c:453-511 | FIN from ESTABLISHED and CLOSE_WAIT, release before the handshake is complete, nothing otherwise |
| TcpSocket.TcpSocket.Free | magi_system/layer4/tcp_socket.c:163-167 | The socket becomes the zeroed socket |
| SourcePorts.SelectIsExact | magi_system/layer4/tcp_socket.c:199-225 | The scan returns an unused user port, and 0 exactly if all 64512 are used |
| SourcePorts.VisitsEachOnce | magi_system/layer4/tcp_socket.c:203-222 | The wrapping scan visits every port from 1024 to 65535 exactly once |
| SourcePorts.ScanFindsNearest | magi_system/layer4/tcp_socket.c:199-225 | No unused port nearer to the start of the scan is passed over |
| SourcePorts.SmallTableNeverFails | magi_system/layer4/tcp_socket.c:199-225 | With fewer than 64512 sockets a port is always found (pigeonhole) |
| SourcePorts.RepeatsOnlyWhenExhausted | magi_system/layer4/tcp_socket.c:199-225 | If each search starts behind the port last found, none is found twice before every free one was |
| SourcePorts.SelectPort | magi_system/layer4/tcp_socket.c:199-225 | The nested loops compute the specified selection |
| Demux.EveryRunDemultiplexes | magi_system/layer4/tcp_socket.c:132-197 | In every run of connect, listen, arrival, use and recycling: connections have distinct four-tuples, each is found by its own, sockets in LISTEN are exactly the listeners, and no segment changes a listener |
| Demux.CursorMovesOn | magi_system/layer2/host.c:875-894 | A selection gives an unused port and leaves the cursor where the next search starts behind it |
| Demux.NoPortRepeatsEarly | magi_system/layer2/host.c:875-894 | Over any selections of a host on an unchanged table, no port is handed out twice before every free one had its turn |
| Demux.FindsItself | magi_system/layer4/tcp_socket.c:169-197 | A connection is found by its four-tuple before any listener and any other connection |
| Demux.ListenersStay | magi_system/layer2/host.c:304-341 | A listener never leaves LISTEN by receiving |
| Demux.SynOpensConnection | magi_system/layer2/host.c:315-341 | A SYN for a listening port, given a slot, leaves a child in SYN_RECEIVED that its four-tuple finds |
| Demux.ConnectKeeps | magi_system/layer7/magi_socket.c:172-217 | A new connection never takes the four-tuple of another one |
| SocketLookup.FindExactly | magi_system/layer4/tcp_socket.c:169-197 | The socket found is the first connection between the two endpoints or, if there is none, the first listener on the local one |
| SocketLookup.FindNothing | magi_system/layer4/tcp_socket.c:169-197 | None is found exactly if there is neither |
| SocketLookup.AllocExactly | magi_system/layer4/tcp_socket.c:132-161 | The slot for a new socket is the first unused one, else the first connection in TIME_WAIT |
| SocketLookup.ArrivesExactly | magi_system/layer2/host.c:296-341 | What a valid segment does to the whole table: it reaches the socket found and no other, or opens a child that expects the byte behind the SYN, or nothing happens |
| SocketLookup.ConnectsExactly | magi_system/layer7/magi_socket.c:172-217 | The socket, addresses and state of a new connection, and its port: the first free one at or behind the cursor, or 2000 above the remote port, or 49152; nothing else changes |
| SocketLookup.ListensExactly | magi_system/layer7/magi_socket.c:94-128 | A listener takes the next slot, if there is one, and nothing else changes |
| Demux.SocketTable.FindSocket | magi_system/layer4/tcp_socket.c:169-197 | The two loops find a connection first and a listener second |
| Demux.SocketTable.AllocSlot | magi_system/layer4/tcp_socket.c:132-161 | The first free slot, else the first that is in TIME_WAIT and no listener |
| Demux.SocketTable.StartConnect | magi_system/layer7/magi_socket.c:172-217 | Allocation, port selection, cursor and SYN_SENT in place |
| Demux.SocketTable.StartListen | magi_system/layer7/magi_socket.c:94-128 | A listening socket is put in an allocated slot in place, or nothing changes if there is none |
| Demux.SocketTable.ReceiveSegment | magi_system/layer2/host.c:296-341 | Lookup, child creation and delivery of a valid segment, in place |
| PendingQueue.Ring.Enqueue | magi_system/layer2/host.c:497-531 | The circular buffer appends unless it is full, at any capacity |
| PendingQueue.Ring.DequeueFor | magi_system/layer2/host.c:539-569 | Rotating the whole buffer, even a full one, removes the first match and keeps all others in order |
| PendingQueue.Ring.SetAttempt | magi_system/layer3/router.c:229-251 | Exactly the packets for one address get the new attempt count and time |
| PendingQueue.Ring.FindFor | magi_system/layer2/host.c:593-611 | The first packet waiting for an address, in queue order across the wrap |
| PendingQueue.Ring.FindDue | magi_system/layer2/host.c:797-806 | The first packet whose retry is due, in queue order across the wrap |
| PendingQueue.RemoveFirstOfGroup | magi_system/layer2/host.c:539-569 | Taking the first match removes the head of its group and leaves all other packets |
| PendingTrace.ConservedFirst | magi_system/layer2/host.c:539-569 | Taking out the oldest packet of a group keeps first-in-first-out for every address |
| HostArp.EveryRunResolvesFairly | magi_system/layer2/host.c:646-829 | In every run, whatever the clock says and whichever requests are answered at once, first ones and retries: one retry state per address; at most three requests before its packets leave; given up only after exactly three; accepted packets leave in order, none lost or repeated |
| HostArp.PollLeavesNothingDue | magi_system/layer2/host.c:783-829 | The retry loop ends with no packet due |
| HostArp.PollProgress | magi_system/layer2/host.c:811-828 | Every turn of the retry loop, answered or not, leaves fewer attempts to be made: it terminates |
| HostArp.DrainQueue | magi_system/layer2/host.c:721-747 | Flushing or giving up takes exactly the packets for one address and leaves the others in order |
| HostArp.DrainTrace | magi_system/layer2/host.c:721-747 | Each of them is sent or discarded exactly once, oldest first, and nothing else happens |
| HostArp.PollIgnoresTheTable | magi_system/layer2/host.c:783-829 | If no retry is answered, retrying and giving up do not depend on what the ARP table has learned meanwhile |
| AddressBits.SameNetworkByBits | magi_system/layer2/host.c:23-54 | Two addresses are in one network exactly if their first prefix bits agree, octet by octet from the most significant |
| HostSending.SendsTowards | magi_system/layer2/host.c:646-719 | An accepted packet goes, or waits, for its own target exactly if the leading prefix bits of target and host agree, and else for the gateway; at once if the table knows that address, else waiting, and asked for if it is the first to wait |
| HostSending.RefusedExactly | magi_system/layer2/host.c:646-719 | Exactly when a packet is refused: too long, no own address, or a full queue before an unknown address |
| HostSending.LearnsOne | magi_system/layer2/host.c:637-644 | Learning sets one entry, if it is there or there is room, and no other |
| HostSending.ReplySends | magi_system/layer2/host.c:215-236 | A reply that can be stored sends every packet waiting for its sender to the address it names, oldest first, and nothing else happens |
| HostSending.PollsOnTime | magi_system/layer2/host.c:783-829 | While nothing answers, the timetable of every waiting group: one request for each whole second since the last attempt, up to the third, and given up a second after that |
| HostSending.GivenUpAtOnce | magi_system/layer2/host.c:646-719 | Without real time a packet for an unknown host that never answers has been asked for three times and given up before the call returns |
| HostArp.Sender.SendPacket | magi_system/layer2/host.c:646-719 | Broadcast, missing address, next hop, cache hit, full queue, joining a group or opening one: result, queue and what is sent |
| HostArp.Sender.FlushPending | magi_system/layer2/host.c:721-747 | The flushing loop, which needs the ARP entry and otherwise does nothing |
| HostArp.Sender.PollArp | magi_system/layer2/host.c:783-829 | The retry loop equals its specification and terminates |
| RouterRun.EveryRunReportsFairly | magi_system/layer3/router.c:322-540 | In every run, whichever requests are answered at once, with room or without: an error is made exactly for the failed packets that may be reported and have a way back, once and directly after each, and is at once sent out or queued for the next hop and by the port of its route; it is never itself reported; at most three requests per address; first in, first out for every address; only packets for existing ports wait |
| RouterArp.ErrorsEndHere | magi_system/layer3/router.c:425-487 | The error is a valid Destination Unreachable to the source quoting its first 28 bytes, and may not be answered by an error (section 3.2.2 of RFC 1122) |
| RouterRun.PollLeavesNothingDue | magi_system/layer3/router.c:489-540 | When the retry loop ends no packet is due, although failing packets queues new ones |
| RouterRequests.GivenUpAfterThree | magi_system/layer3/router.c:489-540 | In every run of a router whose ports have addresses, an address is given up only after exactly three requests, with none of its packets gone before; every address waited for has been asked for as often as attempts were counted; and without real time nothing waits between two steps |
| RouterRequests.TurnDecides | magi_system/layer3/router.c:502-538 | For every state and time: the first due group is given up exactly if its shared attempt count is 3 and the last lies a second back, and then all of it leaves; else it counts one attempt more, a second after the last, and is asked for at once |
| RouterSending.ForwardsExactly | magi_system/layer3/router.c:322-401 | What sending comes to: the next hop, port and VLAN of the route, at once, waiting, or asked for; or exactly why nothing changes |
| RouterSending.HeardExactly | magi_system/layer3/router.c:632-664 | A request only teaches; a reply that can be stored sends everything that waits for its sender, in order, and leaves the rest waiting |
| RouterSending.LearnsExactly | magi_system/layer3/router.c:804-822 | Learning sets one table entry and the VLAN of one port, and no other |
| RouterSending.ErrorExactly | magi_system/layer3/router.c:425-471 | Exactly when an error can be made, and all of it but the checksum: addresses, TTL, protocol, type, code, zeros, and the first 28 bytes of the packet |
| RouterSending.ReportedUnlessError | magi_system/layer3/router.c:473-487 | Exactly which packets are never reported |
| RouterArp.SendToNextHop | magi_system/layer3/router.c:322-401 | Sending never adds a packet that may cause an error beyond the one sent, whatever replies arrive meanwhile, with room in the ARP table or without, through all nested polling and flushing; with RouterArp.Poll and RouterArp.Drain the termination argument |
| RouterArp.Poll | magi_system/layer3/router.c:489-540 | Packets that may still cause an error never become more, whatever replies arrive; the triple (those packets, answers to come that may find no room, attempts left), compared in this order, never grows; and a flush gets stuck only if such an answer came |
| RouterArp.Drain | magi_system/layer3/router.c:519-524 | Giving up a group makes that triple strictly smaller, errors queued on the way included |
| RouterRun.FlushSendsTheGroup | magi_system/layer3/router.c:403-423 | With the ARP entry present every packet for the address is sent once, oldest first, and the others stay |
| RouterFlush.FlushNeverEnds | magi_system/layer3/router.c:403-423 | With the ARP table full of other addresses, and real time, two waiting packets or an interface without an address: after every number of turns of the loop the group is as large as before |
| RouterFlush.TurnRequeues | magi_system/layer3/router.c:403-423 | Each such turn takes the oldest packet of the group out and queues it at the end, and changes nothing else in the queue, however often its request is answered |
| RouterFlush.FlushGivesUp | magi_system/layer3/router.c:403-423 | Otherwise, unless an answer within the turn starts a flush that never ends, one turn ends the loop: the packet is dropped in that turn, never flushed, and nothing waits for the address afterwards, whatever errors the nested polling queues; if no answer arrives within the turn nothing gets stuck |
| RouterFlush.FlushStuckExactly | magi_system/layer3/router.c:403-423 | If no request within it is answered, flushing never ends exactly in the first three cases |
| RouterFlush.AnswersKeepItGoing | magi_system/layer3/router.c:382-423 | In the remaining case the turn goes on as long as its requests are answered: it outlasts every point up to which they are |
| RouterArp.LongestPrefixWins | magi_system/layer3/router.c:778-802 | The route found covers the address and none more specific does; none is found only if none covers it |
| RouterSending.RouteByBits | magi_system/layer3/router.c:778-802 | None is found exactly if no route shares its leading prefix bits with the address; the one found does, no longer one does, and it is the first of its length |
| RouterNode.Forwarder.SendPacketToNextHop | magi_system/layer3/router.c:322-401 | The recursive method, with the reply that arrives within its request, equals its specification and terminates |
| RouterNode.Forwarder.HearAnswer | magi_system/layer3/router.c:653-664 | Receiving that reply, learning and flushing, equals its specification |
| RouterNode.Forwarder.SendIcmpError | magi_system/layer3/router.c:425-471 | Building and sending the error, for any packet, equals its specification |
| RouterNode.Forwarder.PollArp | magi_system/layer3/router.c:489-540 | The retry loop over the ring equals its specification and terminates |
| RouterNode.Forwarder.FlushPending | magi_system/layer3/router.c:403-423 | The flushing loop equals its specification, with the entry or without; where it never ends it leaves the router stuck |
| RouterNode.Forwarder.ReceiveArp | magi_system/layer3/router.c:632-664 | Learning the sender and its VLAN and, for a reply, flushing, in place |
| Checksum.FoldCarries | magi_system/layer3/ipv4.c:215-217 | Folding the carries gives the ones'-complement normal form of the sum |
| Checksum.AddWords | magi_system/layer4/tcp.c:151-156 | Folding after every word gives the normal form of the whole sum, odd lengths padded with zero |
| Checksum.ComputeWithPseudo | magi_system/layer4/tcp.c:113-159 | The same with addresses, protocol and length of the pseudo-header |
| Checksum.ChecksumByOctets | magi_system/layer3/ipv4.c:201-221 | The checksum is the number below 65536 that completes the sum of the octet pairs, the first octet of a pair being the high one, to a multiple of 65535 |
| Checksum.OddIsPadded | magi_system/layer4/tcp.c:151-156 | A message of odd length has the checksum of the message with a zero octet behind it |
| Checksum.TwoMoreOctets | magi_system/layer4/tcp.c:151-156 | Two octets more add 256 times the first and the second |
| Checksum.PseudoSumByOctets | magi_system/layer4/tcp.c:113-150 | The sum the addresses, protocol and length start with is that of the octets of the pseudo-header |
| Checksum.ThreeOctets | magi_system/layer4/tcp.c:151-159 | Three octets have the checksum 0x97CB |
| Checksum.StoredChecksumValidates | magi_system/layer3/ipv4.c:304-320 | Storing the checksum in its zeroed word makes the recomputed checksum zero |
| Checksum.OneWordErrorDetected | magi_system/layer3/ipv4.c:201-221 | A change of one aligned word stays unnoticed exactly if it exchanges the two zeros |
| Ipv4Wire.SendReceive | magi_system/layer3/ipv4.c:223-320 | Every packet survives serialising, link padding, parsing and validation |
| Ipv4Wire.HeaderErrorsDetected | magi_system/layer3/ipv4.c:266-320 | Exactly which changes of one word of a transmitted header are parsed and accepted: all of the fields that are not read, none of the length, and elsewhere the exchange of the two zeros |
| Ipv4Wire.ToBytes | magi_system/layer3/ipv4.c:223-264 | The in-place writer produces the format, or nothing if it does not fit |
| Ipv4Wire.ValidateChecksum | magi_system/layer3/ipv4.c:304-320 | Re-serialising with the received checksum and summing decides validity |
| IcmpWire.SendReceive | magi_system/layer3/icmp.c:95-163 | Every message survives serialising, parsing and validation |
| IcmpWire.ToBytes | magi_system/layer3/icmp.c:95-121 | The in-place writer produces the format with its checksum patched in |
| TcpWire.RoundTrip | magi_system/layer4/tcp.c:181-247 | A segment survives the wire exactly if its data offset is 5 |
| TcpWire.SendReceive | magi_system/layer4/tcp.c:113-247 | A sealed segment comes back with the same fields and is valid, pseudo-header included |
| TcpWire.ToBytes | magi_system/layer4/tcp.c:181-209 | The in-place writer produces the format, or nothing if it does not fit |
| UdpWire.SendReceive | magi_system/layer4/udp.c:42-193 | Every datagram built by udp_create and sealed survives serialising, padding, parsing and validation |
| UdpWire.ToBytes | magi_system/layer4/udp.c:139-162 | The in-place writer produces the format, or nothing if it does not fit |
| EthernetWire.RoundTrip | magi_system/layer2/ethernet.c:16-93 | A frame survives the wire exactly if its VLAN id fits twelve bits and, untagged, its type is not 0x8100 |
| EthernetWire.UntaggedLooksTagged | magi_system/layer2/ethernet.c:52-93 | An untagged frame of type 0x8100 is parsed as tagged or refused |
| EthernetWire.ToBytes | magi_system/layer2/ethernet.c:16-50 | The moving offset writes exactly the format, or nothing if it does not fit |
| EthernetWire.FromBytes | magi_system/layer2/ethernet.c:52-93 | The parser on the buffer equals the specified one, every length checked |
| WireLayouts.Ipv4Written | magi_system/layer3/ipv4.c:223-264 | Every header octet by the table of section 3.1 of RFC 791, the octet pairs adding up to a multiple of 65535 |
| WireLayouts.Ipv4Read | magi_system/layer3/ipv4.c:266-302 | Exactly which bytes are read as a packet, and what every field is |
| WireLayouts.IcmpWritten | magi_system/layer3/icmp.c:95-121 | Every octet by RFC 792 |
| WireLayouts.IcmpRead | magi_system/layer3/icmp.c:123-145 | Exactly which bytes are read as a message, and what every field is |
| WireLayouts.TcpWritten | magi_system/layer4/tcp.c:113-209 | Every octet of a sealed segment by section 3.1 of RFC 793, adding up to a multiple of 65535 with the pseudo-header |
| WireLayouts.TcpRead | magi_system/layer4/tcp.c:211-247 | Exactly which bytes are read as a segment, and what every field is |
| WireLayouts.UdpWritten | magi_system/layer4/udp.c:139-162 | Every octet of a sealed datagram by RFC 768 |
| WireLayouts.UdpRead | magi_system/layer4/udp.c:164-193 | Exactly which bytes are read as a datagram, and what every field is |
| WireLayouts.EthernetWritten | magi_system/layer2/ethernet.c:16-50 | Every octet of a frame, tagged or not |
| WireLayouts.EthernetRead | magi_system/layer2/ethernet.c:52-93 | Exactly which bytes are read as a frame, when it is tagged, and what every field is |
| VlanRun.EveryRunIsolates | magi_system/layer2/switch.c:18-128 | In every run of any network of switches, for every MAC table and reconfiguration, a frame leaves only as the frame that entered, untagged on an access port of its VLAN or tagged with its VLAN on a trunk; and never by the port it entered by, unless a walk over cables, never straight back, leads from its switch back to it |
| VlanRun.HarmlessExactly | magi_system/layer2/switch.c:261-281 | Exactly which frames on a cable survive which reconfiguration of its ports: tagged ones every one; untagged ones an access port that keeps the VLAN, or refuses type 0x8100, or a trunk if they are not tagged twice |
| VlanRun.UnsafeChangeLeaks | magi_system/layer2/switch.c:261-281 | In every other case a broadcast leaves at an edge port in a VLAN, or with a content, that is not its own |
| VlanRun.LoopReturns | magi_system/layer2/switch.c:59-80 | In any network, every walk back to a switch over access and trunk ports that carry a VLAN brings every broadcast of the VLAN, unless of type 0x8100, back to any such edge port of that switch it entered by, in a run of one step more than the walk has hops |
| VlanRun.ReturnsExactly | magi_system/layer2/switch.c:18-128 | In any configuration left alone, for every VLAN and edge port that carries it: some run delivers a frame of the VLAN at the port it entered by if and only if a walk over ports that carry the VLAN leads from that switch back to it |
| VlanSwitch.ReceiveLeaves | magi_system/layer2/switch.c:82-128 | Whatever the MAC table holds, a frame leaves only in the VLAN it was admitted in, unchanged but for the tag, and never by the port it came in by; a frame not admitted leaves nowhere and teaches nothing |
| VlanSwitch.FloodReachesAll | magi_system/layer2/switch.c:59-80 | Flooding reaches every other cabled port of the VLAN |
| VlanSwitch.LearnUpdates | magi_system/layer2/switch.c:176-200 | The table is a map: learning sets exactly one key, if it is valid and there is room |
| VlanSwitch.TrunkTagIsExact | magi_system/layer2/switch.c:18-57 | Exactly which access VLANs a trunk tags with another id |
| VlanSwitch.SwitchNode.ReceiveFrame | magi_system/layer2/switch.c:82-128 | Learning and forwarding in place: the new table and everything sent |
| VlanSwitch.SwitchNode.FloodFrame | magi_system/layer2/switch.c:59-80 | The port loop sends what the specification says and counts it |
| VlanSwitch.SwitchNode.RemoveEntry | magi_system/layer2/switch.c:202-221 | Closing the gap removes exactly the entry found |
| VlanSwitch.SwitchNode.SetAccessPort | magi_system/layer2/switch.c:261-270 | The port becomes an access port of the VLAN in place, or nothing changes |
| VlanSwitch.SwitchNode.SetTrunkPort | magi_system/layer2/switch.c:272-281 | The port becomes a trunk in place, or nothing changes |
| VlanSwitch.BroadcastGoesOut | magi_system/layer2/switch.c:59-128 | An admitted broadcast leaves by every other cabled port of its VLAN, tagged on trunks and untagged elsewhere |
| SwitchForwarding.ForwardsExactly | magi_system/layer2/switch.c:82-128 | All that an admitted frame does: its source is learned; if the table then knows the unicast destination, one frame leaves, by that port and with its tag, or none if it is the port of entry or cannot carry the VLAN; else every other port that can gets exactly one copy |
| SwitchForwarding.AdmittedExactly | magi_system/layer2/switch.c:299-322 | Exactly which frames are admitted at which port, in which VLAN; the others change nothing |
| SwitchForwarding.SeenThenServed | magi_system/layer2/switch.c:82-128 | Once a source was seen at a port, a frame for it leaves by that port alone |
| SwitchForwarding.FloodExactly | magi_system/layer2/switch.c:59-80 | Flooding sends one copy by each port that can carry the VLAN but the port of entry, lower ports first, and nothing else |
| SwitchForwarding.ForgetUpdates | magi_system/layer2/switch.c:202-221 | Removing an entry forgets one key and no other |
| JsonRoundTrip.RoundTrip | magi_system/utils/json.c:245-372 | For every tree that fits and holds exact integers, at every indentation, parsing the printed text gives it back if and only if it is nested at most 32 deep |
| JsonRoundTrip.ParsePrintParse | magi_system/utils/json.c:124-264 | Whatever text is accepted, the tree fits its fixed-size fields and the depth limit; and if it holds only exact integers, printing and parsing it again changes nothing |
| JsonRoundTrip.StringBack | magi_system/utils/json.c:43-70 | Every string shorter than the buffer is read back as printed, escapes included |
| JsonRoundTrip.NumberBack | magi_system/utils/json.c:83-122 | Every printed integer is read back exactly, up to a character that ends it |
| JsonGrammar.StandardTextsRead | magi_system/utils/json.c:43-264 | Every text of the grammar of RFC 8259, with any white space, without exponents and the escapes of b, f and u, whose strings and arrays fit, is read as what it stands for, fractions included, if and only if it is nested at most 32 deep |
| JsonGrammar.NumberRead | magi_system/utils/json.c:83-122 | Sign, digits and fraction are read as the decimal number they are |
| JsonGrammar.ExponentRefused | magi_system/utils/json.c:83-122 | A text that is a number with an exponent is refused |
| JsonGrammar.OtherEscapesStay | magi_system/utils/json.c:43-70 | The escapes of b, f and u are read as that letter |
| JsonPrinted.PrintsStandardText | magi_system/utils/json.c:296-372 | What is printed of a tree of integers is such a text, indented by two blanks a level, and stands for the tree |
| JsonParser.ParseText | magi_system/utils/json.c:245-264 | The parser object, moving through the text with its depth counter, equals the specified parser |
| JsonParser.Parser.ParseValue | magi_system/utils/json.c:228-243 | Each value is parsed as specified, consuming exactly its text and restoring the depth |
| JsonWriter.Writer.Write | magi_system/utils/json.c:313-372 | The stream gets exactly the specified text appended |
| JsonWriter.Writer.WriteString | magi_system/utils/json.c:296-311 | The escaping loop appends the quoted text |
| DnsNames.NameRoundTrip | magi_system/layer7/dns_server.c:87-168 | Decoding an encoded name, whatever follows it, gives it back and consumes its encoding exactly if all labels have 1 to 191 bytes and no dot is trailing |
| DnsNames.Encode | magi_system/layer7/dns_server.c:87-117 | The label loop writes the encoding, or fails if it exceeds 256 bytes |
| DnsNames.Decode | magi_system/layer7/dns_server.c:122-168 | The decoding loop, pointers included, equals its specification on all bytes on which it ends and that hold what it reads |
| DnsNames.EndlessExactly | magi_system/layer7/dns_server.c:131-148 | The loop is still running after every number of turns exactly if, after the first jump, it comes back to a pointer it has followed without a label in between |
| DnsNames.FirstPointer | magi_system/layer7/dns_server.c:135-144 | Behind any labels, where the first pointer leads: its second byte plays no part, the second byte behind it takes its place; behind the end of the message the code reads on |
| DnsNames.CompressedName | magi_system/layer7/dns_server.c:122-168 | Labels followed by a pointer decode to the labels and the name at that place; so the name is right exactly if it stands there too, and the length given back exactly if no label comes before the pointer |
| DnsNames.PointerNotFollowed | magi_system/layer7/dns_server.c:135-144 | Seven bytes with a pointer to a name that come out as the empty name |
| DnsServer.PipelineResolves | magi_system/layer7/dns_server.c:189-354 | For every proper name that fits, with space for 512 bytes, parsing the response to its query gives exactly what the table resolves, and nothing on NXDOMAIN |
| DnsServer.OverrunsExactly | magi_system/layer7/dns_server.c:315-352 | For every table, query and space, the length of the response, and exactly when it exceeds the space it was checked against |
| DnsServer.OverrunHappens | magi_system/layer7/dns_server.c:315-352 | Every proper name in the table has a query and a space that are overrun, by one byte and by two |
| DnsServer.AddedResolves | magi_system/layer7/dns_server.c:37-84 | An added name resolves to its address exactly if resolving does not cut it, that is without a slash and a leading "http://", or what it is cut to already did |
| DnsServer.AddChangesOneName | magi_system/layer7/dns_server.c:37-84 | For all names: what adding does to the one name that is stored, and that every other name resolves as before |
| DnsMessages.NameOnWire | magi_system/layer7/dns_server.c:87-117 | Labels of 1 to 63 bytes, joined by dots, are written each behind its length, and then a zero |
| DnsMessages.QueryOnWire | magi_system/layer7/dns_server.c:189-218 | Every byte of a query by section 4.1 of RFC 1035, or that it does not fit |
| DnsMessages.ResponseOnWire | magi_system/layer7/dns_server.c:279-354 | Every byte of the response to such a query, with the address or with response code 3 |
| DnsMessages.ResponseRead | magi_system/layer7/dns_server.c:220-277 | A response with any questions and any records behind them, of whatever types, is read as the first address among the records, or as none if its response code is not zero |
| DnsMessages.CleanExactly | magi_system/layer7/dns_server.c:62-75 | What of a URL is looked up: behind a leading "http://", up to the first slash, the end or 255 bytes |
| DnsMessages.FirstEntryCounts | magi_system/layer7/dns_server.c:76-84 | The first entry of that name decides |
| DnsServer.Server.Handle | magi_system/layer7/dns_server.c:279-354 | The response is written in place as specified |
| DnsServer.Server.Add | magi_system/layer7/dns_server.c:37-60 | The table is updated in place as specified, and refused when full |
| DnsServer.CreateQueryIn | magi_system/layer7/dns_server.c:189-218 | The query is written in place as specified, or refused if it does not fit |
| DnsServer.ParseResponseIn | magi_system/layer7/dns_server.c:220-277 | The two loops over questions and answers equal the specified parser on all bytes whose names end and lie inside them |
| Crc32.TableStep | magi_system/gui/app.c:1799-1819 | One table lookup equals eight steps of the bit-at-a-time register |
| Crc32.CrcConcat | magi_system/gui/app.c:1813-1819 | Continuing a CRC gives the CRC of the concatenation |
| Crc32.Encoder.Update | magi_system/gui/app.c:1813-1819 | The table-driven loop computes the bit-at-a-time CRC of every byte string |
| Crc32.Encoder.constructor | magi_system/gui/app.c:1799-1811 | Every table entry is eight register steps on its index |
| Crc32.Encoder.WriteChunk | magi_system/gui/app.c:1829-1846 | A chunk is length, type, data and the CRC of type and data together |
| Crc32.Generator | magi_system/gui/app.c:1799-1811 | The constant holds exactly the terms of the generator of IEEE 802.3 |
| Crc32.EndChunk | magi_system/gui/app.c:1829-1846 | The bytes of the end chunk of every PNG file, its CRC included |
| StoredDeflate.RoundTrip | magi_system/gui/app.c:1886-1916 | A reader of stored blocks gets the data back, checksum included, exactly if there is data |
| StoredDeflate.BlocksRoundTrip | magi_system/gui/app.c:1898-1912 | Reading stops exactly behind the last block: it alone is final |
| StoredDeflate.SizeOfBlocks | magi_system/gui/app.c:1888-1890 | The blocks take the data's size and five bytes each |
| StoredDeflate.ComputeAdler | magi_system/gui/app.c:1848-1856 | Reducing after every byte gives the Adler-32 of the unreduced sums |
| StoredDeflate.AdlerInFull | magi_system/gui/app.c:1848-1856 | Both halves of the checksum by section 8.2 of RFC 1950, as sums over the data |
| StoredDeflate.ShortStream | magi_system/gui/app.c:1888-1916 | Every byte of the stream for data of one block |
| StoredDeflate.LongStream | magi_system/gui/app.c:1898-1912 | Longer data starts with a full block that is not final |
| StoredDeflate.WriteZlib | magi_system/gui/app.c:1888-1916 | The block loop fills the buffer of the size computed in advance exactly, with the specified stream |

## Left out

- Retransmission and liveness of TCP: the program has no retransmission, so nothing is promised for a run in which a segment is lost; TcpLife.EverythingArrives shows a run in which none is.
- Sequence numbers crossing 2^32 and segments of an earlier incarnation of a connection.
- TcpRun.EveryRunIsSafe: covers one connection, from a fresh client and the child socket its SYN creates, with streams that end, FIN included, below the wrap.
- The parent pointer of child sockets, accept, and the MagiSocket handles that may outlive a recycled slot.
- Ipv4Wire.ValidateChecksum: re-serialises as the code does, so header fields the parser ignores (type of service, identification, fragment, options) are not covered by the checksum test (Ipv4Wire.HeaderErrorsDetected).
- HostArp.EveryRunResolvesFairly: the host keeps its own address and gateway for the whole run, and a reply within a request comes from the address asked for.
- RouterRun.EveryRunReportsFairly: addresses and routes of the router stay fixed for the run; a reply within a request comes from the address asked for; and replies within requests that find the ARP table full are finitely many, because with others a step need not end (RouterFlush.AnswersKeepItGoing).
- The router's errors for expired TTL and missing routes, which are sent without asking whether the packet may be reported, and its handling of packets addressed to itself.
- The ICMP status that a host records when an echo request fails.
- VlanRun.EveryRunIsolates: cables between switches join trunk to trunk or two access ports of one VLAN, and both ends change together, when that is harmless to what is on the cable.
- The exact ring positions of queue items: PendingQueue.Ring hides them behind the sequence of waiting packets.
- JsonRoundTrip.RoundTrip: whole numbers of at most 2^53; the text of other numbers comes from `%g`, which is a parameter of the writer, and parsed fractions are exact reals here.
- Strings with embedded zero bytes: C strings end there.
- DnsNames.Decode: not defined on bytes on which the code does not end (DnsNames.EndlessExactly), or reads the byte behind them (DnsNames.FirstPointer): what lies there is not part of this model.
- DnsServer.ParseResponseIn: not defined on messages with such names.
- DnsServer.Server.Handle: not defined on queries with such a name; and the buffer holds the response even where the space check lets it be one or two bytes longer than the space (DnsServer.OverrunsExactly).
- The order of rows, filter bytes and IHDR fields of the PNG file, and the conversion of the zlib stream into its IDAT chunk.
- DHCP, HTTP, the command line, the graphical interface, the topology loader, the simulator's link bookkeeping and its clock.
- Memory allocation, null checks, virtual tables and printed output.
