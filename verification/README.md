# Verified model of the reverse-tethering relay and tunnel

The system gives a phone the network of a computer. The relay on the computer ends the phone's TCP
and UDP flows in host sockets; the tunnel on the phone carries raw IP packets between a tun device
and the relay over one byte stream. This project models the parts on which correctness hangs and
proves what they promise, for every input and over every run.

## How it is laid out

| files | part of the system | form |
|---|---|---|
| `TcpFlow`, `TcpConnection` | the relay's TCP endpoint | step functions on values, and a class whose handlers update its fields and are each proved equal to the step function |
| `TcpTheorems`, `TcpDownstream`, `TcpUpstream`, `TcpCombined` | what holds over every run of that endpoint | lemmas over the step functions |
| `TcpWire`, `TcpIntake`, `TcpDiagram` | what it puts on the wire, what it takes, and the diagram of RFC 793 | lemmas over the step functions |
| `TcpRuns` | runs from a new flow on that show where it falls short | lemmas with concrete inputs |
| `WireBytes` | the packets of a flow as bytes | predicates and lemmas |
| `PendingSources` | packets that wait for the client link | class and lemmas |
| `StreamBuffer`, `DatagramBuffer`, `ByteBuffer` | the three buffers | classes over arrays that refine plain queues |
| `IpPackets`, `Verdicts`, `Framing` | parsing, and the two deframers | functions and lemmas |
| `Client`, `Tunnel`, `EndToEnd`, `FlowPackets` | both ends of the link, the link as a whole, and the TCP flows' packets on it | classes and lemmas |
| `Checksum`, `Headers`, `Packetizer`, `Ipv6Packetizer`, `Icmpv6` | synthesis of packets | classes and methods over arrays |
| `EventLoop` | the selector and the router's discipline | class proved equal to functions on the table of routes |
| `VpnAbility` | the VPN ability | step functions over the stretches between two awaits, their interleavings, and a class proved equal to them |
| `VpnProgress` | that ability's stages and its progress | lemmas over the step functions |
| `Words`, `Splicing` | machine words, byte order, writing into arrays | helpers |

Integers that wrap in the source wrap here explicitly (`Wrap`, `% 0x1_0000`). What the outside world
decides is a parameter that may take any value: how many bytes a socket takes or gives, whether it
fails or would block, whether the link has room, which initial sequence number is drawn, which slab
key is vacant, in which order awaited calls come back.

## What the proofs found about the code

* A packet that the link refuses is kept and pulled later; the pull advances the sequence number by
  the whole packet length instead of the payload length. `TcpTheorems.SequenceAccounting` gives the
  exact drift, and when there is none.
* Such a packet shares its buffer with the empty replies, so a reply built meanwhile replaces its
  header, byte for byte as `Packetizers.Packetizer.BuildReplyInflate` says:
  `TcpDownstream.DeferredPacketIntactIff` and `TcpDownstream.FramingAccounting` say exactly when, and
  `TcpRuns.DeferredPacketCanBeMisframed` gives a run. `FlowPackets.AcceptedAreWellFormedIff` says
  when the phone is spared, `Framing.MisframedPacketShiftsStream` what happens to it otherwise.
* A FIN is processed although the payload of its own segment was dropped.
  `TcpUpstream.FinWithDroppedPayloadLosesData` tells such segments exactly from the harmless ones: if
  the payload is kept, no later run processes the FIN before the host has the whole stream; if it is
  dropped, some later run does. `TcpRuns.FinCanOvertakeData` gives one.
* A flow can close while its packet is pending, and the later pull then panics:
  `PendingSources.PanicsExactly` gives the exact condition, `TcpRuns.ClosedFlowCanStayPending` a run.
* A FIN can be sent while a packet is pending, and data then follows it:
  `TcpDownstream.PendingDataFollowsFin`, with a run in `TcpRuns.DataCanFollowFin`; otherwise nothing
  does: `TcpDownstream.NothingFollowsFin`.
* When one poll event is both writable and readable, the read is not guarded by `may_read` again.
  The guard would fail exactly if the write sent our FIN (`TcpTheorems.ReadableStill`). The read
  then panics the relay exactly if the client's window was one byte (`TcpCombined.ReadPanicsIff`);
  if it does not panic, the bytes still arrive in order and counted, in every later run, but the
  life cycle breaks exactly if the read puts a packet on the link
  (`TcpCombined.CombinedEventIsSafeIff`). `TcpRuns.ReadAfterWriteCanBreak` reaches both.
* A datagram buffer forgets its whole queue when a write wraps the head onto a tail at 0:
  `DatagramBuffers.DatagramBuffer.ReadFrom`, with a run over a UDP flow's own buffer in
  `DatagramBuffers.OverrunRelayBuffer`.
* The total length of an IPv4 reply is added in 16 bits, which overflows exactly if the payload fills
  the whole buffer: `Packetizers.Packetizer.Build`.
* Once the client id has gone out, a write to the phone that would block closes the client like any
  other failure: `Clients.Client.ProcessSend`.

Two facts of the interfaces that no caller in the relay can bring about: a datagram of 65536 bytes
passes the assertion of the datagram buffer and is stored with length 0, and `set_flags` caches all
16 bits that it is given but writes nine.

## Model

| member | source | states |
|---|---|---|
| TcpTheorems.LifeCycle | relay/src/relay/tcp_connection.rs:420-443 | over every run in which no event puts a packet of its read behind a FIN of its write: at most five changes of state, a FIN number is known exactly in the four closing states and there numbers all that was counted since, `CloseWait` is never reached, and a flow deregisters once |
| TcpTheorems.GoodRun | relay/src/relay/tcp_connection.rs:237-303 | every run keeps the counts (FINs, SYN, payload, deferred packets, what was sent, one deregistration), and the life cycle too if no event puts a packet of its read behind a FIN of its write |
| TcpTheorems.GoodStep | relay/src/relay/tcp_connection.rs:237-303 | so does each event (packet, writable, readable, both at once, hangup, expiry, shut, pull), which in the second case never lowers the rank of the state |
| TcpTheorems.ChangesRise | relay/src/relay/tcp_connection.rs:237-303 | in every such orderly run the number of changes of state is bounded by the rank gained |
| TcpTheorems.DeregistersOnce | relay/src/relay/tcp_connection.rs:870-884 | over every run a flow has deregistered once if it is closed and never before, and does not wait in `CloseWait` |
| TcpTheorems.GoodFirstPacket | relay/src/relay/tcp_connection.rs:610-648 | the first packet, SYN or not, brings a fresh flow into the invariant: the initial number is the drawn one, or the client's acknowledgement if the flow is reset |
| TcpTheorems.GoodNext | relay/src/relay/tcp_connection.rs:940-954 | a pull keeps the invariant, and the packet it hands over declares its true length iff no reply was built over it |
| TcpTheorems.SequenceAccounting | relay/src/relay/tcp_connection.rs:371-397 | over every run, whatever its events put behind a FIN, the sequence number is ISN, SYN, payload bytes relayed and FINs, plus the header bytes of every deferred packet, modulo 2^32; it is the true stream position iff those header bytes are a multiple of 2^32 |
| TcpDownstream.DirectDataPlacement | relay/src/relay/tcp_connection.rs:371-386 | in every run in which no event puts a packet of its read behind a FIN of its write, a data packet sent at once declares its true length and is numbered by the payload before it plus one header per earlier deferral; its number is the true place iff those headers vanish modulo 2^32 |
| TcpDownstream.DownstreamDelivery | relay/src/relay/tcp_connection.rs:354-397 | over every run, bytes behind a FIN included, the bytes read from the host are the payloads given to the link, in order, followed by the pending payload if there is one: none lost, doubled or reordered |
| TcpDownstream.FramingAccounting | relay/src/relay/tcp_connection.rs:466-489 | over every run every packet given to the link declares its true length iff no pending packet was pulled after an empty reply was built over it |
| TcpDownstream.DeferredPacketIntactIff | relay/src/relay/tcp_connection.rs:388-395 | the pending payload is always intact; its header is the one it was built with (length, flags, sequence number) iff no reply was built since, and otherwise declares an empty packet |
| TcpDownstream.SendsFinExactly | relay/src/relay/tcp_connection.rs:690-720 | a step sends our FIN iff it is an end of file, or the client's FIN becomes processable while the flow is established: the condition is stated on the event and the state before |
| TcpDownstream.NothingFollowsFin | relay/src/relay/tcp_connection.rs:828-837 | with no packet pending when the FIN is sent, in every later run no payload is read or sent, the sequence number stays FIN + 1 and the FIN number is kept |
| TcpDownstream.PendingDataFollowsFin | relay/src/relay/tcp_connection.rs:940-954 | a packet still pending when the FIN is sent does follow it, nonempty, and moves the sequence number beyond FIN + 1 |
| TcpDownstream.RemainingWindowIsWhatIsLeft | relay/src/relay/tcp_connection.rs:139-149 | the remaining window is max(0, window - bytes in flight), under 32-bit wraparound, for every control block |
| TcpDownstream.DirectDataFitsWindow | relay/src/relay/tcp_connection.rs:354-386 | data sent at once leaves no more in flight than the last accepted window, and adds exactly its length to it |
| TcpDownstream.PulledPacketFitsWindowIff | relay/src/relay/tcp_connection.rs:940-954 | a pulled packet respects the window as the relay counts it iff its whole length fits |
| TcpTheorems.ReadableStill | relay/src/relay/tcp_connection.rs:262-280 | after the write of an event under `may_read`, the flow is closed or `may_read` still holds, iff the write did not take the last byte before a received FIN; if it did, the flow is open in LastAck with our FIN sent |
| TcpCombined.WindowAfterWrite | relay/src/relay/tcp_connection.rs:262-280 | the write leaves the remaining window as it was, less one byte iff it sent our FIN |
| TcpCombined.ReadPanicsIff | relay/src/relay/tcp_connection.rs:354-363 | the assertions of the read fail iff the write sent our FIN and the remaining window before it was exactly one byte |
| TcpCombined.CombinedEventIsSafeIff | relay/src/relay/tcp_connection.rs:262-280 | an event that is writable and readable and does not panic always keeps the counts, and keeps the life cycle iff no packet of the read follows a FIN of the write, which event and state before it tell |
| TcpCombined.CombinedEventIsTwoSteps | relay/src/relay/tcp_connection.rs:262-280 | when the event goes on to its read, that read is one that `may_read` allows iff the write did not send our FIN, and then the event is exactly those two steps of a run |
| TcpCombined.ReadAfterWriteInOneEvent | relay/src/relay/tcp_connection.rs:262-280 | for every window: when the last byte before a received FIN is written, the read panics iff the window was one byte, and data read is numbered after our own FIN |
| TcpRuns.DeferralIsReachable | relay/src/relay/tcp_connection.rs:388-395 | a concrete run from a new flow reaches an established flow with a pending packet |
| TcpRuns.DeferredPacketCanBeMisframed | relay/src/relay/tcp_connection.rs:466-489 | that run, a client segment and its relay to the host reach a flow whose pulled packet declares 40 bytes and carries one more |
| TcpRuns.ClosedFlowCanStayPending | relay/src/relay/tcp_connection.rs:804-805 | that run and a reset reach a closed flow whose packet stays pending: the pass over a list of this flow panics as soon as 41 bytes are free |
| TcpRuns.PullCanDrift | relay/src/relay/tcp_connection.rs:940-954 | that run and a pull reach a flow with number 1042 at the true position 1002 |
| TcpRuns.DataCanFollowFin | relay/src/relay/tcp_connection.rs:690-703 | that run and the client's FIN reach a flow whose own FIN has number 1001, and whose next pull sends a byte behind it |
| TcpRuns.FinCanOvertakeData | relay/src/relay/tcp_connection.rs:745-749 | a run in which the segment that completes the handshake carries one byte and the FIN: the byte is dropped, the FIN processed and acknowledged in its place |
| TcpRuns.DrainingIsReachable | relay/src/relay/tcp_connection.rs:670-688 | for every window, a run reaches a readable flow with one byte buffered before a received FIN |
| TcpRuns.ReadAfterWriteCanBreak | relay/src/relay/tcp_connection.rs:262-280 | from there one event, writable and readable, panics if the window is 1, and otherwise numbers data after our FIN |
| TcpWire.WireAccounting | relay/src/relay/tcp_connection.rs:466-501 | section 3.3 of RFC 793: in every run in which the link takes all that cannot wait, every packet but a pulled one is numbered by the ISN and the sequence space (payload, SYN, FIN) of all packets before it, the number of the flow stands behind the last, and as many SYNs and FINs are on the wire as were counted |
| TcpWire.FinIsOnTheWire | relay/src/relay/tcp_connection.rs:491-501 | whenever an event sets the FIN number and the link has room, a new packet with exactly FIN and ACK bears that number and acknowledges all that was taken; and no new packet bears a FIN unless one is counted |
| TcpWire.PacketsAcknowledge | relay/src/relay/tcp_connection.rs:456-489 | every packet built for an event acknowledges what the flow has taken by the end of the event, with ACK set or as a reset |
| TcpWire.NothingWithoutRoom | relay/src/relay/tcp_connection.rs:466-489 | an event for which the link has no room puts nothing on it |
| TcpWire.WritesAreAcknowledged | relay/src/relay/tcp_connection.rs:306-351 | what the host takes is acknowledged by exactly one packet: ACK alone, or FIN and ACK if the client's FIN became processable while established |
| TcpDiagram.EventsFollowDiagram | relay/src/relay/tcp_connection.rs:537-736 | section 3.2 of RFC 793: each event of an orderly run moves the state exactly as the connection diagram does on the signals that the event carries (SYN, its acknowledgement, FIN, ACK of our FIN, end of file, connect), and the flow is closed afterwards iff it was, the diagram ends, it is reset, or it is given up |
| TcpIntake.FirstSynOpens | relay/src/relay/tcp_connection.rs:610-648 | the first SYN is waited on without an answer: the next byte is the one behind it, the ISN the drawn one |
| TcpIntake.SynAgain | relay/src/relay/tcp_connection.rs:650-668 | a later SYN renumbers an unconnected flow, is ignored if it has the same number, and otherwise resets the flow, with an RST of its number if there is room |
| TcpIntake.OtherSegmentsAreIgnored | relay/src/relay/tcp_connection.rs:554-572 | a segment that is not the next one changes nothing at all |
| TcpIntake.NextSegmentIsTaken | relay/src/relay/tcp_connection.rs:554-608 | the next one gives window and acknowledgement; its payload joins the ring iff it is accepted; its FIN is processed iff nothing is left to write |
| TcpIntake.WriteIsTaken | relay/src/relay/tcp_connection.rs:306-351 | what the host takes leaves the ring in order and is counted in the acknowledgement; the FIN is processed with the last byte before it |
| TcpIntake.ResetsAreSent | relay/src/relay/tcp_connection.rs:466-489 | with room, a packet with RST goes out iff the first packet is no SYN, a later SYN has another number, the host cannot be connected, written or read, it hangs up or the flow expires inside the handshake |
| TcpUpstream.UpstreamDelivery | relay/src/relay/tcp_connection.rs:554-572 | section 3.3 of RFC 793: if every segment is a slice of one stream at the place its number names, then in every run host output and ring are a prefix of that stream, the acknowledgement number is SYN + 1 + bytes written + FINs processed modulo 2^32, and a FIN is processed once, after all of the stream |
| TcpUpstream.UpRun | relay/src/relay/tcp_connection.rs:306-351 | the invariant behind it is kept by every run of a behaving client from any state that has it |
| TcpUpstream.UpStep | relay/src/relay/tcp_connection.rs:537-608 | and by every single event, retransmitted, overlapping and out-of-order segments included |
| TcpUpstream.InOrderOffset | relay/src/relay/tcp_connection.rs:554-572 | a segment that passes the 32-bit comparison is meant for the very next byte: its offset is what was received so far; no data or FIN passes after a processed FIN, and no data after a received one |
| TcpUpstream.FinWithDroppedPayloadLosesData | relay/src/relay/tcp_connection.rs:595-600 | in every state that a behaving client can bring about, after an in-order FIN segment no later run processes the FIN while the host lacks part of the stream, iff the payload of that segment is empty or enters the ring, which flags, state and free room tell |
| TcpUpstream.DrainIsShort | relay/src/relay/tcp_connection.rs:306-333 | a flow that has dropped the payload before a received FIN loses it however the host takes what is buffered: each write leaves the flow so, and the last processes the FIN short of the stream |
| TcpConnections.TcpConnection.constructor | relay/src/relay/tcp_connection.rs:161-224 | a new flow is the initial flow: empty ring, no FIN, nothing pending, not closed; its packetizer builds behind the turned headers, the TCP header shrunk to 20 bytes |
| TcpConnections.TcpConnection.RemainingClientWindow | relay/src/relay/tcp_connection.rs:139-149 | refines the window function that `RemainingWindowIsWhatIsLeft` characterises |
| TcpConnections.TcpConnection.MayRead | relay/src/relay/tcp_connection.rs:828-837 | decides the guard of the read step: connected, not closing, nothing pending and window left |
| TcpConnections.TcpConnection.ReplyEmptyPacket | relay/src/relay/tcp_connection.rs:466-489 | an empty reply is built over the buffer, whether or not a packet is pending there and whether or not the link takes it; the bytes sent realise the flow's packet |
| TcpConnections.TcpConnection.Packetize | relay/src/relay/tcp_connection.rs:366-374 | the packet built declares the flow's numbers, flags and true length and carries the bytes read |
| TcpConnections.TcpConnection.Close | relay/src/relay/tcp_connection.rs:870-884 | marks the flow closed and counts one deregistration |
| TcpConnections.TcpConnection.HandleFirstPacket | relay/src/relay/tcp_connection.rs:610-648 | refines its step function: SYN opens, anything else is reset with the client's own number |
| TcpConnections.TcpConnection.HandleDuplicateSyn | relay/src/relay/tcp_connection.rs:650-668 | refines its step function: renumbers while connecting, resets on another SYN number, else ignores |
| TcpConnections.TcpConnection.HandleAck | relay/src/relay/tcp_connection.rs:738-773 | refines its step function on the real ring: establishes, or appends the payload if it fits, or drops it |
| TcpConnections.TcpConnection.HandleFin | relay/src/relay/tcp_connection.rs:670-688 | refines its step function: a FIN waits until the ring is empty |
| TcpConnections.TcpConnection.DoHandleFin | relay/src/relay/tcp_connection.rs:690-720 | refines its step function: acknowledges the FIN and moves to LastAck, Closing or closed |
| TcpConnections.TcpConnection.HandleFinAck | relay/src/relay/tcp_connection.rs:722-736 | refines its step function: the acknowledgement of our FIN closes or moves to FinWait2 |
| TcpConnections.TcpConnection.HandlePacket | relay/src/relay/tcp_connection.rs:537-608 | refines its step function, which the run theorems quantify over |
| TcpConnections.TcpConnection.ProcessConnect | relay/src/relay/tcp_connection.rs:420-443 | refines its step function: SYN-ACK counted once, or reset |
| TcpConnections.TcpConnection.ProcessSend | relay/src/relay/tcp_connection.rs:306-351 | refines its step function on the real ring; the outcome is the one of the host: blocked or failed iff it did and there was anything to write, else as many bytes as it takes of the contiguous part; bytes taken leave the ring and advance the acknowledgement, and a waiting FIN is processed when the ring runs empty |
| TcpConnections.TcpConnection.Eof | relay/src/relay/tcp_connection.rs:491-501 | refines its step function: FIN sent, counted and remembered; the packet that this puts on the link is that of `TcpWire.FinIsOnTheWire` |
| TcpConnections.TcpConnection.ProcessReceive | relay/src/relay/tcp_connection.rs:354-418 | where its two assertions hold, whatever the state, and for a read within the window, refines its step function |
| TcpConnections.TcpConnection.ProcessRead | relay/src/relay/tcp_connection.rs:354-363 | panics iff a packet is pending or no window is left, then nothing changes; else the outcome is the offer of the host, cut to what window and buffer take, as the step function says |
| TcpConnections.TcpConnection.ProcessWrite | relay/src/relay/tcp_connection.rs:268-274 | the first readiness to write connects or fails as the host says, later ones write as the host takes it: refines the write part of the step function |
| TcpConnections.TcpConnection.SendOrDefer | relay/src/relay/tcp_connection.rs:375-397 | refines its step function: sent as bytes that realise the flow's packet and counted by payload, or kept in the buffer with its whole length |
| TcpConnections.TcpConnection.Process | relay/src/relay/tcp_connection.rs:262-303 | for any readiness event, writable and readable at once included: the event that happens is the one that came, with what the host made of it; it panics iff the read's assertions fail after the write, and otherwise is that possible step of the state machine |
| TcpConnections.TcpConnection.Expire | relay/src/relay/tcp_connection.rs:886-904 | refines its step function, of closed flows too: an unfinished handshake of an open flow is reset, then the flow closes and deregisters |
| TcpConnections.TcpConnection.Get | relay/src/relay/tcp_connection.rs:932-938 | some bytes iff a packet is pending, of the pending length: they realise the flow's pending packet, with its payload under whatever header was built last |
| TcpConnections.TcpConnection.Next | relay/src/relay/tcp_connection.rs:940-954 | refines its step function: those bytes are sent, the pending packet is cleared and the number advances by its whole length |
| PendingSources.PassSendsOrKeeps | relay/src/relay/client.rs:377-416 | a pass that does not panic keeps exactly the flows that still wait, in their old order, and every listed flow is unchanged or has sent its packet |
| PendingSources.PanicsExactly | relay/src/relay/client.rs:377-416 | a pass panics iff some listed flow is closed and its packet fits in the room left at its turn |
| PendingSources.PassKeepsAgreement | relay/src/relay/client.rs:377-416 | a pass that does not panic leaves each flow listed exactly once iff a packet of it is pending, so neither "no packet" expectation fires |
| PendingSources.PassTouchesListed | relay/src/relay/client.rs:377-416 | a pass changes no flow that is not listed |
| PendingSources.StillWaitingSubsequence | relay/src/relay/client.rs:377-416 | what is kept lists exactly the waiting flows among the old ones, none twice |
| PendingSources.Sources.Happen | relay/src/relay/tcp_connection.rs:388-395 | any event of a flow keeps list and pending packets in agreement, registering exactly the flows it defers |
| PendingSources.Sources.ProcessPending | relay/src/relay/client.rs:377-416 | the loop over the list refines the pass, panic included |
| StreamBuffers.RingAppendStraight | relay/src/relay/stream_buffer.rs:76-99 | bytes written before the end of the ring are appended to the queue that the ring stands for |
| StreamBuffers.RingAppendWrapped | relay/src/relay/stream_buffer.rs:76-99 | so are bytes written in two pieces around the end |
| StreamBuffers.RingDrop | relay/src/relay/stream_buffer.rs:55-74 | moving the tail over a contiguous stretch removes exactly that stretch from the front |
| StreamBuffers.StreamBuffer.constructor | relay/src/relay/stream_buffer.rs:27-33 | an empty queue of the given capacity |
| StreamBuffers.StreamBuffer.IsEmpty | relay/src/relay/stream_buffer.rs:35-37 | true iff the queue is empty: full and empty are never confused |
| StreamBuffers.StreamBuffer.Size | relay/src/relay/stream_buffer.rs:39-45 | the length of the queue |
| StreamBuffers.StreamBuffer.Remaining | relay/src/relay/stream_buffer.rs:51-53 | size and remaining room add up to the capacity |
| StreamBuffers.StreamBuffer.ReadFrom | relay/src/relay/stream_buffer.rs:76-99 | appends the source to the queue |
| StreamBuffers.StreamBuffer.WriteTo | relay/src/relay/stream_buffer.rs:55-74 | what is written is a prefix of the queue, cut only by the writer's budget and the end of the ring, and the queue keeps the rest; a failed write changes nothing |
| StreamBuffers.StreamBuffer.DrainInTwoWrites | relay/src/relay/stream_buffer.rs:55-74 | two complete writes emit the whole queue in order and leave it empty |
| DatagramBuffers.EncodeInjective | relay/src/relay/datagram_buffer.rs:71-127 | different queues of datagrams never have the same encoding: boundaries are kept |
| DatagramBuffers.EnqueueStraight | relay/src/relay/datagram_buffer.rs:96-117 | a block written to an unwrapped ring is appended to the queue, unless the head wraps onto the tail: then the ring stands for the empty queue |
| DatagramBuffers.EnqueueWrapped | relay/src/relay/datagram_buffer.rs:96-117 | a block written behind the tail of a wrapped ring is appended to the queue |
| DatagramBuffers.FrontDatagram | relay/src/relay/datagram_buffer.rs:71-81 | the bytes at the tail are the front datagram, with its length before it |
| DatagramBuffers.DequeueFront | relay/src/relay/datagram_buffer.rs:71-81 | moving the tail past them leaves the rest of the queue, across the end of the ring too |
| DatagramBuffers.DatagramBuffer.constructor | relay/src/relay/datagram_buffer.rs:48-55 | an empty queue over a ring of capacity + 1 positions, head and tail at 0 |
| DatagramBuffers.DatagramBuffer.IsEmpty | relay/src/relay/datagram_buffer.rs:57-59 | true iff the queue is empty |
| DatagramBuffers.DatagramBuffer.HasEnoughSpaceFor | relay/src/relay/datagram_buffer.rs:61-69 | true iff neither the next block nor the head behind it would meet the tail |
| DatagramBuffers.DatagramBuffer.ReadFrom | relay/src/relay/datagram_buffer.rs:96-117 | refused iff there is no space, then nothing changes; else a datagram of at most 65535 bytes is appended, or the queue becomes empty iff the head wraps onto the tail; where the head then stands; one of 65536 bytes is stored with length 0 |
| DatagramBuffers.OverrunRelayBuffer | relay/src/relay/udp_connection.rs:72 | in a UDP flow's new buffer four datagrams of 65507 bytes and a fifth of at least 107 are all accepted, and the queue is then empty |
| DatagramBuffers.DatagramBuffer.WriteTo | relay/src/relay/datagram_buffer.rs:71-94 | removes exactly the front datagram and hands it out whole, even when the send fails or is cut short, which is reported |
| ByteBuffers.ByteBuffer.ReadFrom | relay/src/relay/byte_buffer.rs:33-38 | appends as much of the source as there is room for, and reports whether that was anything |
| ByteBuffers.ByteBuffer.Peek | relay/src/relay/byte_buffer.rs:40-42 | the whole contents |
| ByteBuffers.ByteBuffer.Consume | relay/src/relay/byte_buffer.rs:48-76 | removes exactly the given number of bytes from the front, though the rest is shifted in place |
| IpPackets.RelayFront | relay/src/relay/ip_packet.rs:69-103 | the relay's front length: a frame is at least 20 bytes and all there |
| IpPackets.PhoneFront | app/entry/src/main/cpp/tunnel.cpp:133-150 | the phone's front length: a frame is at least 20 bytes and all there |
| IpPackets.FramesAgree | relay/src/relay/ip_packet.rs:69-103 | the two independently written functions cut the same frame, or none, from every byte string |
| IpPackets.BadAgree | app/entry/src/main/cpp/tunnel.cpp:133-150 | what the phone calls malformed the relay does too; the converse fails only on fewer than 20 bytes, where the phone still waits |
| IpPackets.WellFormedIsFramed | app/entry/src/main/cpp/tunnel.cpp:153-168 | a tun packet passes the phone's test iff the relay frames it at exactly its size |
| IpPackets.FrontIsStable | relay/src/relay/ip_packet.rs:69-103 | more bytes never change a decision, on either side |
| Verdicts.Ipv4VerdictSays | relay/src/relay/ip_packet.rs:105-143 | a framed IPv4 packet is dropped iff a fragment flag or offset bit is set; else delivered iff its TCP header lies within it or its UDP length is that of the datagram, or it is of another protocol; else malformed |
| Verdicts.Ipv6VerdictSays | relay/src/relay/ipv6_packet.rs:29-78 | a framed IPv6 packet is delivered iff TCP or UDP follows at once and fits, malformed if it does not fit, and otherwise dropped as fragment, extension or unknown header |
| Verdicts.GivesUpIff | relay/src/relay/client.rs:347-375 | the relay gives up on a framed packet iff it is no fragment and its transport header does not fit |
| Verdicts.PlainPacketIsDelivered | relay/src/relay/ip_packet.rs:120-140 | a plain IPv4 packet of protocol 6 or 17 is delivered and the client goes on, whether or not it may be fragmented |
| Verdicts.Ipv4ReplyIsDelivered | relay/src/relay/packetizer.rs:110-124 | every unfragmented IPv4 reply that the relay builds its own parser would deliver |
| Framing.CutConserves | relay/src/relay/client.rs:333-345 | the frames and the rest, put together, are the bytes read |
| Framing.CutInTwo | relay/src/relay/ip_packet_buffer.rs:37-53 | parsing a longer stream continues from the rest of the shorter one, and a malformed front stays malformed |
| Framing.ChunkIndependence | relay/src/relay/client.rs:333-345 | frames, rest and the decision to close depend only on the concatenated bytes, however the stream is cut into reads, on both sides |
| Framing.EndsCutAlike | app/entry/src/main/cpp/tunnel.cpp:242-256 | the relay's frames are a prefix of the phone's on every stream, and the same unless a frame is malformed inside |
| Framing.LinkRecoversPackets | app/entry/src/main/cpp/tunnel.cpp:242-256 | every prefix of a stream of well-formed packets is cut into exactly the packets that are whole in it |
| Framing.WholeWithinAll | app/entry/src/main/cpp/tunnel.cpp:242-256 | and the whole stream into all of them |
| Framing.MisframedPacketShiftsStream | app/entry/src/main/cpp/tunnel.cpp:242-256 | a packet that declares less than it carries is cut short, and its remaining bytes are read as the next packet |
| Clients.IpPacketBuffer.Packet | relay/src/relay/ip_packet_buffer.rs:37-53 | the front packet with its parse, nothing yet, or malformed, as the pure parse of the contents says |
| Clients.IpPacketBuffer.Next | relay/src/relay/ip_packet_buffer.rs:37-53 | consumes exactly the front packet; it never fails after `packet` gave one |
| Clients.Client.SendRawToClient | relay/src/relay/client.rs:290-306 | a packet is accepted whole iff it fits, else not at all |
| Clients.Client.SendId | relay/src/relay/client.rs:312-318 | the unsent id bytes go first, and are counted off as the socket takes them |
| Clients.Client.ProcessSend | relay/src/relay/client.rs:232-259 | bytes already written are never taken back and the wire invariant is kept; the exact conditions under which the client closes; after a good write of packet bytes, and only then, the waiting packets are offered to the room that the write has left |
| Clients.Client.ProcessPending | relay/src/relay/client.rs:377-416 | each waiting packet that fits the room left at its turn is accepted whole, the others wait on in order |
| Clients.Client.PushOnePacketToNetwork | relay/src/relay/client.rs:347-375 | a front packet is delivered, dropped or closes the client as its parse says |
| Clients.Client.PushToNetwork | relay/src/relay/client.rs:333-345 | the loop ends, and has delivered, dropped and left exactly what the pure parse of the buffer says |
| Clients.Client.ProcessReceive | relay/src/relay/client.rs:262-279 | reading keeps the parse invariant, and a nonempty read always finds room, so that a full buffer is never taken for end of file; the client closes iff the read failed, the stream ended or its bytes are malformed |
| Clients.DeliveredAppend | relay/src/relay/client.rs:347-375 | what is delivered of two lists of packets is delivered of each in turn |
| EndToEnd.WireIsPrefix | relay/src/relay/client.rs:312-331 | in every reachable state the bytes sent are a prefix of the id followed by the accepted packets |
| EndToEnd.PhoneRecovers | app/entry/src/main/cpp/tunnel.cpp:242-256 | from any part of such a wire, read in any chunks, the phone gets the id and exactly the accepted packets that are whole in it |
| EndToEnd.RelayRecovers | relay/src/relay/client.rs:333-345 | from the tunnel's stream the relay gets exactly the accepted packets up to the first one it refuses, and closes iff there is such a one |
| EndToEnd.RelayReadsTunnel | relay/src/relay/client.rs:333-375 | in every pair of reachable states of tunnel and client, the packets handled are a prefix of those the tunnel accepted |
| WireBytes.ReplyRealises | relay/src/relay/packetizer.rs:110-124 | the bytes built for a TCP packet that is sent at once are that packet of the flow: size, payload, declared length, numbers and flags |
| WireBytes.LateRealises | relay/src/relay/packetizer.rs:126-132 | the bytes inflated from the buffer have the payload that waits there, under whatever headers were built last |
| WireBytes.RealisedIsWellFormedIff | app/entry/src/main/cpp/tunnel.cpp:153-168 | such bytes are well formed iff the flow's packet declares its true length |
| WireBytes.BitsStand | relay/src/relay/tcp_header.rs:42-46 | each flag stands at its bit of section 3.1 of RFC 793, and no other bit is set |
| WireBytes.BitsTell | relay/src/relay/tcp_header.rs:42-46 | different flags never look alike on the wire |
| FlowPackets.NewBytesRealise | relay/src/relay/tcp_connection.rs:375-397 | what a connection has sent more after an event than before realises exactly the packets that the event put on the link |
| FlowPackets.FramedRun | relay/src/relay/client.rs:290-306 | every run of a client, with any flows opened and any events of theirs, keeps their counts, and all of their packets declare their true length afterwards iff they did before and all bytes accepted meanwhile are well formed |
| FlowPackets.AcceptedAreWellFormedIff | relay/src/relay/client.rs:290-306 | in every run of a client all packets that it has accepted are well formed, as the phone's deframing needs, iff none of its TCP flows has sent a deferred packet that a reply was built over |
| FlowPackets.PassIsLinkPass | relay/src/relay/client.rs:377-416 | the pass over the pending flows and the link's pass over their packets keep the same flows, and the room left is what the accepted bytes leave |
| EndToEnd.Ipv4ReplyIsWellFormed | relay/src/relay/packetizer.rs:110-124 | an IPv4 reply passes the phone's well-formedness test |
| EndToEnd.Ipv6ReplyIsWellFormed | relay/src/relay/ipv6_packetizer.rs:119-136 | so does an IPv6 reply |
| Tunnels.ReadClientId | app/entry/src/main/cpp/tunnel.cpp:69-80 | exactly the first four bytes are taken, over any partial reads, and give the id |
| Tunnels.Tunnel.OnTunPacket | app/entry/src/main/cpp/tunnel.cpp:203-227 | a packet is forwarded iff well formed and not IPv6 outside Proxy mode, else counted as dropped; it is answered iff it is answerable IPv6 in Blackhole mode and the queue has room |
| Tunnels.Tunnel.ReadTun | app/entry/src/main/cpp/tunnel.cpp:203-230 | a packet read is recorded, forwarded or dropped, and answered iff it is answerable IPv6 in Blackhole mode and the queue has room; nothing else is queued |
| Tunnels.Tunnel.PollOut | app/entry/src/main/cpp/tunnel.cpp:203-238 | the same through the open gate, whatever the socket then takes; behind a closed gate nothing is read |
| Tunnels.ReadsSnoc | app/entry/src/main/cpp/tunnel.cpp:203-227 | one more packet read adds itself to the forwarded or to the refused, or to neither |
| Tunnels.Tunnel.OnSocketSent | app/entry/src/main/cpp/tunnel.cpp:231-237 | the bytes sent are the next bytes of the accepted packets |
| Tunnels.Tunnel.OnSocketData | app/entry/src/main/cpp/tunnel.cpp:239-257 | the packets queued are those of the pure parse of all bytes received, failing iff that breaks; each byte is queued or kept once |
| Tunnels.Tunnel.OnTunWritten | app/entry/src/main/cpp/tunnel.cpp:258-266 | a whole write takes the front packet off, a partial one is a failure and takes nothing |
| Tunnels.Tunnel.Turn | app/entry/src/main/cpp/tunnel.cpp:191-268 | every turn keeps the invariant: socket bytes are a prefix of the accepted packets, the tun device gets packets in queueing order, the queue counter is their total size, both gates bound the buffers, no IPv6 packet is accepted outside Proxy mode, and of all packets read so far the forwarded ones are the accepted, the others are counted as dropped, and the answers queued are refusals of exactly the refusable ones in order; a packet is read iff the gate was open and one came, and counts as dropped iff it is not forwarded; which device acts is what the gates said; the turn fails iff a device that was asked is gone, the stream breaks, the tun device takes the front packet in part, or a hangup is reported |
| Tunnels.Tunnel.Run | app/entry/src/main/cpp/tunnel.cpp:191-268 | so does every run, which ends early only if at its last poll a device or the stream has failed; nothing read, accepted, sent or written is taken back, and nothing read is forgotten: it was accepted, or dropped and, if it is to be refused, answered |
| Tunnels.TotalSizeSnoc | app/entry/src/main/cpp/tunnel.cpp:251-253 | queueing a packet adds its size to the total |
| Checksums.SplitSum | relay/src/relay/tcp_header.rs:329-355 | low and high bytes summed apart and shifted once give the word sum of section 1 of RFC 1071, for even, odd and empty lengths |
| Checksums.SumBounds | relay/src/relay/tcp_header.rs:329-355 | bounds on the three sums by the length, from which no 32-bit overflow follows |
| Checksums.WordSumAppend | relay/src/relay/tcp_header.rs:310-347 | word sums of adjacent stretches add up if the first is even |
| Checksums.WordSumField | relay/src/relay/tcp_header.rs:318-361 | storing a field in a zeroed place adds exactly that field to the sum |
| Checksums.FoldKeepsResidue | relay/src/relay/tcp_header.rs:357-359 | the fold ends, changes the sum by a multiple of 65535, and gives zero only for zero |
| Checksums.ComplementVerifies | relay/src/relay/tcp_header.rs:357-361 | a receiver's sum including the stored complement folds to 0xffff |
| Checksums.AllOnesVerifies | relay/src/relay/ipv6_packetizer.rs:175-179 | so it does when a zero complement is replaced by all ones |
| Checksums.FoldCarries | relay/src/relay/tcp_header.rs:357-359 | the loop computes the fold |
| Checksums.AddWords | relay/src/relay/ipv4_header.rs:193-207 | the loop adds the word sum of a stretch of the buffer |
| Checksums.AddBytes | relay/src/relay/tcp_header.rs:331-352 | the loop adds low and high byte sums of a stretch of the buffer |
| Headers.SumSegment | relay/src/relay/tcp_header.rs:310-355 | header words and split payload bytes together are pseudo-header plus word sum of the segment, without overflow for any segment below 65536 bytes |
| Headers.HalvesOfSum | relay/src/relay/tcp_header.rs:329-355 | low and high sums of header and payload join to the word sum of the whole, and each fits 32 bits |
| Headers.FieldVerifies | relay/src/relay/tcp_header.rs:299-361 | with the complement stored in its field, zero before, pseudo-header and stretch fold to 0xffff |
| Headers.PseudoHeaderSums | relay/src/relay/tcp_header.rs:299-322 | the sum that the checksum starts from, added to that of the segment, is the word sum of the 12-byte pseudo-header of section 3.1 of RFC 793 and the segment behind it |
| Headers.UpdateTcpChecksum | relay/src/relay/tcp_header.rs:299-361 | pseudo-header and segment fold to 0xffff afterwards, and only the checksum field has changed |
| Headers.UpdateIpv4Checksum | relay/src/relay/ipv4_header.rs:193-207 | the header folds to 0xffff afterwards (section 3.1 of RFC 791), and only the checksum field has changed |
| Packetizers.ShrinkOptions | relay/src/relay/tcp_header.rs:277-287 | dropping the options leaves 20 bytes that parse as before but for the header length |
| Packetizers.Packetizer.constructor | relay/src/relay/packetizer.rs:34-67 | the cached headers are the parse of the buffer, with both endpoints swapped against the reference |
| Packetizers.Packetizer.SetTotalLength | relay/src/relay/ipv4_header.rs:163-166 | cache and bytes still agree and nothing else changes |
| Packetizers.Packetizer.SetSequenceNumber | relay/src/relay/tcp_header.rs:256-259 | cache and bytes still agree and nothing else changes |
| Packetizers.Packetizer.SetAcknowledgementNumber | relay/src/relay/tcp_header.rs:262-265 | cache and bytes still agree and nothing else changes |
| Packetizers.Packetizer.SetFlags | relay/src/relay/tcp_header.rs:268-274 | the bytes carry the low nine bits and nothing else changes; cache and bytes agree iff the flags are below 512 |
| Packetizers.Packetizer.ComputeChecksums | relay/src/relay/ipv4_packet.rs:208-214 | header and segment fold to 0xffff, a UDP checksum is cleared, and only the checksum fields have changed |
| Packetizers.Packetizer.Build | relay/src/relay/packetizer.rs:110-124 | panics iff headers and payload fill the buffer's 65536 bytes; else the packet parses back to the cached endpoints, numbers and flags, declares its true length, carries the payload, and its checksums verify |
| Packetizers.ReplyVerifies | relay/src/relay/packetizer.rs:110-124 | a TCP reply verifies at its receiver, who puts the addresses of the packet itself, protocol 6 and the length before the segment |
| Packetizers.Packetizer.Packetize | relay/src/relay/packetizer.rs:73-77 | the same of the payload given, for every length that the rest of the buffer takes |
| Packetizers.Packetizer.BuildReplyInflate | relay/src/relay/packetizer.rs:69-132 | a packet inflated after an empty reply was built over it keeps its size and payload, but its header declares the headers alone |
| Packetizers.Packetizer.BuildThenInflate | relay/src/relay/packetizer.rs:110-132 | inflating the built length right after building gives the very same bytes |
| Ipv6Packetizers.StoredVerifies | relay/src/relay/ipv6_packetizer.rs:175-180 | whatever is stored, all ones in place of a zero UDP checksum included, pseudo-header and segment fold to 0xffff |
| Ipv6Packetizers.PseudoHeader6Sums | relay/src/relay/ipv6_packetizer.rs:139-181 | the sum that the checksum starts from is that of the 40-byte pseudo-header of section 8.1 of RFC 8200 before the packet |
| Ipv6Packetizers.Reply6Verifies | relay/src/relay/ipv6_packetizer.rs:139-181 | a reply verifies at its receiver, with the pseudo-header made of the fields of the packet itself |
| Ipv6Packetizers.BuiltIsDelivered | relay/src/relay/ipv6_packet.rs:29-78 | a packet whose lengths and header are consistent is accepted by the relay's own parser |
| Ipv6Packetizers.Ipv6Packetizer.constructor | relay/src/relay/ipv6_packetizer.rs:46-92 | any TCP or UDP packet that parses gives a template with both endpoints swapped |
| Ipv6Packetizers.Ipv6Packetizer.UpdateChecksum | relay/src/relay/ipv6_packetizer.rs:139-181 | the checksum of section 8.1 of RFC 8200 verifies, and is never zero for UDP |
| Ipv6Packetizers.Ipv6Packetizer.Build | relay/src/relay/ipv6_packetizer.rs:119-136 | for any sequence of payloads that fit the buffer the inner parse succeeds: endpoints mirrored, lengths true, payload preserved, checksum verified |
| Ipv6Packetizers.Ipv6Packetizer.Packetize | relay/src/relay/ipv6_packetizer.rs:98-101 | the same of the payload given |
| Icmpv6.AddAddresses | app/entry/src/main/cpp/icmpv6.cpp:17-21 | the interleaved loop adds the words of both addresses |
| Icmpv6.Ipv6Checksum | app/entry/src/main/cpp/icmpv6.cpp:15-32 | the complement of pseudo-header and stretch, odd lengths included |
| Icmpv6.BuildUnreachable | app/entry/src/main/cpp/icmpv6.cpp:34-71 | answered iff IPv6, not an ICMPv6 error and not multicast (section 2.4 of RFC 4443); the answer is at most 1280 bytes, well formed for the tunnel, mirrors the addresses, quotes a prefix of the original, and its checksum folds to 0xffff |
| Icmpv6.WhatIsAnswered | app/entry/src/main/cpp/icmpv6.cpp:35-42 | of the well-formed IPv6 packets all are answered but ICMPv6 errors (high-order bit of the type zero) and those to addresses from ff00:: on |
| Icmpv6.RefusalSays | app/entry/src/main/cpp/icmpv6.cpp:44-70 | the answer is type 1 code 1 between the mirrored addresses, quotes the whole packet or fills 1280 bytes, and verifies at its receiver |
| Icmpv6.RefusalIsNotAnswered | app/entry/src/main/cpp/icmpv6.cpp:36-42 | no answer is ever answered |
| EventLoops.EventLoop.Register | relay/src/relay/selector.rs:55-74 | a handler enters under a key that no other has, or nothing changes |
| EventLoops.EventLoop.SendToNetwork | relay/src/relay/router.rs:57-111 | keeps the invariant that routed flows are the open ones, each deregistered once it closes; the connection is routed afterwards iff it did not close |
| EventLoops.EventLoop.OnReady | relay/src/relay/tcp_connection.rs:237-303 | a closed flow ignores a late event; an open one closes and deregisters at most once |
| EventLoops.EventLoop.ClearRouter | relay/src/relay/router.rs:165-169 | afterwards every flow of that client is closed and none routed, and the flows of the other clients are as before |
| EventLoops.EventLoop.CleanExpired | relay/src/relay/router.rs:171-187 | afterwards exactly the expired connections are gone from the routes, and only their flows have changed |
| EventLoops.EventLoop.VacantKey | relay/src/relay/selector.rs:55-74 | a key that no handler has always exists |
| EventLoops.EventLoop.CleanRemovedTokens | relay/src/relay/selector.rs:106-111 | frees exactly the marked keys, each present and none twice; the handlers left belong to open flows |
| EventLoops.EventLoop.RunHandlers | relay/src/relay/selector.rs:117-130 | whatever the handlers of a batch do, every event finds the handler it was registered for when the batch began, every action of every script takes effect on the routes in order, and keys are freed only after the batch |
| EventLoops.EventLoop.Do | relay/src/relay/router.rs:57-111 | each action, a packet, an event, a clearing or an expiry, changes the routes as its function says |
| EventLoops.BatchRoutes | relay/src/relay/selector.rs:117-130 | in a batch of any scripts a routed flow stays routed iff none of the actions closes it, and a flow that was not routed never comes back |
| EventLoops.ScriptRoutes | relay/src/relay/tcp_connection.rs:237-303 | the same of the actions of one handler |
| VpnAbility.RunKeeps | app/entry/src/main/ets/vpn/TetherVpnAbility.ets:87-201 | every interleaving of continuations, ticks, retries, cleanups and destruction keeps the invariant of ownership and of one attempt at a time |
| VpnAbility.DescriptorsAreOwned | app/entry/src/main/ets/vpn/TetherVpnAbility.ets:176-185 | in every run no descriptor is closed twice or when it is not open, and exactly the open ones stand in the fields |
| VpnAbility.OneEstablishAtATime | app/entry/src/main/ets/vpn/TetherVpnAbility.ets:87-146 | in every run at most one establish is in flight, and then no retry is armed |
| VpnAbility.NothingLeaksAfterDestroy | app/entry/src/main/ets/vpn/TetherVpnAbility.ets:187-201 | in every run, once destroyed and with no device destruction awaited, every descriptor ever opened is closed, though an establish may still be suspended |
| VpnProgress.NeverStuck | app/entry/src/main/ets/vpn/TetherVpnAbility.ets:87-174 | progress: in every run that has begun and is not stopped, the ability rests iff the current attempt was refused for good; else a call is awaited, a retry is armed, or the tunnel is up over both descriptors and published, unless it came up for a session no longer current |
| VpnProgress.StagesInOrder | app/entry/src/main/ets/vpn/TetherVpnAbility.ets:87-135 | only a start or a retry begins an attempt, with a new generation; the socket is connected only once protected, the tun device made only once connected, and connected published only once the tunnel started, all by the attempt still current |
| VpnProgress.StagesGoOn | app/entry/src/main/ets/vpn/TetherVpnAbility.ets:87-135 | each awaited success of the current attempt leads to the next stage, over the same descriptors; a tunnel that does not start is taken down |
| VpnProgress.TickActsIfLost | app/entry/src/main/ets/vpn/TetherVpnAbility.ets:160-174 | a tick changes nothing unless the tunnel is connected and lost; then the tun device is closed at once and its destruction awaited on behalf of a retry |
| VpnProgress.LostIsRetried | app/entry/src/main/ets/vpn/TetherVpnAbility.ets:160-185 | when that comes back the socket is closed, and then a retry is armed |
| VpnProgress.ComesUp | app/entry/src/main/ets/vpn/TetherVpnAbility.ets:87-135 | four events bring a new ability up, connected over two descriptors |
| VpnAbility.TetherVpnAbility.EstablishNow | app/entry/src/main/ets/vpn/TetherVpnAbility.ets:87-92 | updates the fields as the step function of `establish` up to its first await |
| VpnAbility.TetherVpnAbility.Continue | app/entry/src/main/ets/vpn/TetherVpnAbility.ets:92-146 | and as the step function of each later stretch of `establish`, with its check for a newer generation |
| VpnAbility.TetherVpnAbility.Clean | app/entry/src/main/ets/vpn/TetherVpnAbility.ets:176-185 | and as that of `cleanup` up to its await |
| VpnAbility.TetherVpnAbility.RetryLater | app/entry/src/main/ets/vpn/TetherVpnAbility.ets:149-158 | and as that of `scheduleRetry` |
| VpnAbility.TetherVpnAbility.OnTick | app/entry/src/main/ets/vpn/TetherVpnAbility.ets:160-174 | and as that of `tick` |
| VpnAbility.TetherVpnAbility.OnDestroy | app/entry/src/main/ets/vpn/TetherVpnAbility.ets:187-201 | and as that of `onDestroy` |

## Left out

- Sockets, mio polling, the tun device, NAPI, HDC and clocks: their outcomes are parameters of the steps.
- Ipv6Packetizers.Ipv6Packetizer.Build: requires the packet to fit the 65536-byte buffer, as reading into the rest of that buffer ensures.
- DatagramBuffers.DatagramBuffer.ReadFrom: for a length of 65536, which no IP payload reaches, only the stored bytes are given, not what the queue then stands for.
- TcpTheorems.LifeCycle: it and `TcpDownstream.DirectDataPlacement` do not hold of runs with an event whose write sends our FIN and whose read then puts a packet on the link, or panics; `TcpCombined.CombinedEventIsSafeIff` and `TcpCombined.ReadPanicsIff` say exactly which events those are.
- TcpUpstream.UpstreamDelivery: the client must behave: segments are slices of one stream, within 2^32 of what was received, data comes after the SYN-ACK, and an in-order FIN does not share a segment with payload that is dropped.
- Clients.Client.ProcessPending: a waiting packet of a closed flow panics the relay; that is in `PendingSources`, and here the pass is one that does not.
- The addition of 1 to the remembered FIN number (relay/src/relay/tcp_connection.rs:603) is modelled as wrapping; a build with overflow checks panics there for 0xffffffff.
- Inside the TCP state machine, packets are their header fields and payload, and the link's room is a boolean; the connection itself builds bytes that realise them, and room is counted in `PendingSources` and `Clients`.
- Poll interests and their reregistration, timeouts of flows, logging, statistics callbacks.
- IPv6 and UDP connection objects, DNS and address rewriting, the root listener, the relay's start-up: thin wrappers, configuration and lookups.
- The event loop holds flows only; the keys of clients and of the listener are not part of this model.
- The older IPv4-only packet buffer, which the relay compiles for tests only.
- In the VPN ability: parameter checks of `onCreate`, published texts and statistics, the delay before a retry, the native duplicate of the socket, and threads behind tunnel start and stop; the IPv6 mode is fixed during a run.
- A read or write of a device that would block is a turn in which that device does nothing; a poll that itself reports an error ends the loop before a turn.
- STUN probe, result server, consent, user interface, Python, shell and build scripts.
