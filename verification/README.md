# Verified model of the proxy's UDP protocols, codecs and negotiation

This project models, in Dafny, the parts of the proxy whose correctness spans whole runs:

- **SQuic UDP associations** (`src/shadowquic/mod.rs`). Senders share one 16-bit id counter per connection,
  announce `(address, id)` on control streams and send payloads in datagrams or on unidirectional streams. The
  receiver keeps one route registry on which payload tasks park until their id is announced, and, on SunnyQUIC
  connections, an authentication cell that every task waits for. `SquicMachine` is a transition system over all
  interleavings of sends, task moves, failures and close; a run is any list of steps.
- **Hysteria2 UDP** (`src/hysteria2/packet.rs`, UDP loop of `src/hysteria2/server.rs`): fragmentation under a
  datagram budget, reassembly in one map with lazy expiry, the session table with weak references, the bounded
  receive queue.
- **Wire codecs**: QUIC variable-length integers (section 16 of RFC 9000), Hysteria2 TCP and UDP frames, the
  `host:port` text form, SOCKS5-style addresses (section 5 of RFC 1928).
- **Rates**: the saturating window computation and the two-sided bandwidth negotiation.

Code that updates state in place is modelled by classes and loops (`Defragger`, `PacketSender`, `UdpSessions`,
`ByteStream`, `Endpoint`, `IncomingUdpRegistry`, `ConnectionWindows`, `EncodeInto`, `DecodeSliceLoop`, …), each tied by
its postcondition to a function; the theorems are about those functions and about every run of them.

| files | subject |
|---|---|
| `Bytes`, `Text` | machine integers, byte order, UTF-8 (RFC 3629), decimal text |
| `Addresses`, `Varint`, `UdpFrames`, `TcpFrames`, `SquicWire` | codecs |
| `Reassembly`, `ReassemblyRuns`, `ReassemblyEpochs`, `Fragmentation` | Hysteria2 packets |
| `Sessions`, `SessionProofs`, `SessionHealth` | Hysteria2 session table |
| `SquicOutbound`, `SquicOutboundProofs`, `SquicRegistry`, `SquicMachine` | the SQuic machine |
| `SquicSending`, `SquicProgress` | what one send does, and what a move of a receiving task does, exactly |
| `SquicIntegrity`, `SquicDelivery` | delivery integrity and order, for every run |
| `SquicSchedules`, `SquicBound`, `SquicSpellings` | runs that can be brought about, and exactly where integrity and order end |
| `SquicOwnership`, `SquicWakeups`, `SquicGate`, `SquicClient` | registry ownership, wake-ups, authentication, the client's loop |
| `Negotiation`, `Windows` | rates |

## What was found

- **Packet ids repeat once at the counter wrap.** 2^32 is 1 modulo 65535, so the send whose incremented counter
  wraps to zero has the id of the send just before it. `PacketIdsCollide` shows that this is the only collision
  within 65535 sends. It has a consequence: fragments of the two can fill one set (`SharedIdMixes`), and
  `WrapCanEndTheLoop` gives four datagrams of two such sends, neither of them too long, that end the server's loop.
- **`host:port` text does not round-trip for every address.** `PrintThenParse` says what every address comes back
  as, and `TextRoundTrip` when that is the same: an IP literal must be spelled as it prints, a numeric zone after an
  IPv6 literal is lost (`ZoneIsLost`), and a bracketed host without a colon loses its brackets (`BracketsAreLost`).
  One host that can be named is refused when it is read back: a bare pair of brackets
  (`OnlyBareBracketsAreRefused`).
- **65536 context ids are the limit.** `IntegrityExactly`: runs that give out at most n ids never misdeliver if and
  only if n is at most 65536, at every receiver that lets anything through. An id is spent even when its address
  cannot be encoded, so a host with an accent is enough to spend them.
- **Stream mode is first-in first-out per destination as the sender spells it.** Two spellings of one IP literal use
  two streams, and the receiver names both alike. `FifoExactly`, for every receiver: order holds in all runs if and
  only if the destination has no second spelling (or cannot be encoded, or nothing gets through the gate). Both
  sides of that statement count all spellings.
- **One bad datagram ends a Hysteria2 connection's loop.** `LoopStaysOpen` says exactly which: one that does not
  decode, one for a new session that the router does not take, or one that completes a packet of more than 4096
  bytes. `LoopOpenExactly`: datagrams that come from `send`, with different packet ids in each session, never do,
  however they are lost, repeated, reordered or delayed, if and only if no send goes to a bare pair of brackets;
  every frame of such a send ends the loop (`BareBracketsEndTheLoop`).
- **A long error message may lose its last character.** The server cuts it at 2048 bytes, not at a character;
  `ErrorTextShown` says that the client then shows all whole characters and a replacement character, and
  `LastLetterIsLost` gives such a message. The only call in the repository reports success
  (`src/hysteria2/server.rs:555`), so no message is cut as the code stands.
- **One datagram can stall a client's receiver for good.** The loop handles a datagram to its end before it accepts
  anything else, and the client never closes its registry. `StallExactly`: a datagram that waits for its route holds
  up every later datagram and stream, in all runs within the id bound, if and only if the control stream of its id
  has ended and left no route. `StallIsReachable` gives a run.
- **PROTOCOL.md and the code.** The document says that each sender uses the lower of its own send rate and the
  peer's receive rate. In the code a client whose own receive rate is 0 stays on BBR in both directions, because
  the server then answers `auto` (`src/hysteria2/server.rs:355-357`). The model follows the code.

## Assumptions

- IP-literal text is a parameter, a `parse` and a `show` function with the laws in `Addresses.Lawful`: `parse`
  inverts `show`; a literal consists of hexadecimal digits, dots and colons; it is IPv6 exactly when it holds a
  colon. `LawsHaveAModel` shows the laws to be consistent.
- Time is an explicit argument, in nanoseconds. Where a result needs it, it does not go back.
- A `send` runs to completion without being cancelled in the middle of a write. The SQuic machine takes it as one
  step: the other end only sees bytes that were written, and may read them in any later step. A `Fault` stands for
  QUIC refusing the announcement, the new stream or the payload; a stream that refused a write refuses all later
  ones, so a half-written frame is never completed.
- QUIC streams are reliable and in order; datagrams may be lost, repeated and reordered.
- `Notify` is a generation counter: a waiter created before `notify_waiters` is woken by it. `register` and `close`
  are split between their update and their notify, `wait` at every point where another task can run.
- The authentication cell carries a version; a cloned receiver has seen the initial one. A credential is any byte
  string and the user table a map; the hash behind it is not interpreted.
- A run is `Reachable` when callers name addresses that are text and QUIC hands streams over in the order in which
  they were opened. The exact limits of integrity and order are stated over these runs; the safety theorems hold for
  all lists of steps.
- On a server every datagram has its own task, as in the source. A client handles datagrams one after the other
  inside its receiver loop; `SquicClient` restricts runs accordingly, and every other theorem holds for those runs
  because it holds for more. A client never closes its registry.
- Padding is any byte string up to the length that readers accept.

## Model

| member | source | states |
|---|---|---|
| Addresses.TextRoundTrip | src/address.rs:38-62 | printing then parsing an address is the identity if and only if its host is stable: canonical IP text or no IP literal, no numeric zone, not a colon-free bracketed string |
| Addresses.PrintThenParse | src/address.rs:38-62 | what every address comes back as after printing and parsing, or that it is refused |
| Addresses.OnlyBareBracketsAreRefused | src/address.rs:46-50 | an address with a host reads back as some address if and only if the host is not a bare pair of brackets |
| Addresses.ParsesExactly | src/address.rs:41-51 | which text with a colon is an address |
| Addresses.NoColonNoAddress | src/address.rs:45 | text without a colon is none |
| Addresses.ParsedMeans | src/address.rs:41-51 | the host and port that text stands for |
| Addresses.DisplayIsUtf8 | src/address.rs:54-62 | the printed form of a UTF-8 host is UTF-8, so wire readers get past their UTF-8 test |
| Addresses.LawsHaveAModel | src/address.rs:41-44 | the laws assumed of IP text can be met |
| Addresses.LaxIsLawful | src/address.rs:41-44 | and met by a notation with several spellings of one literal |
| Addresses.BracketsAreLost | src/address.rs:46-50 | a bracketed host without a colon comes back without its brackets, in every lawful notation; with nothing between them it is refused |
| Addresses.ZoneIsLost | src/address.rs:42-44 | an IPv6 literal with a numeric zone comes back without it, in every lawful notation |
| Addresses.Respelling | src/address.rs:42-44 | a concrete second spelling of a literal comes back as the first |
| Text.LossyIsUtf8 | src/hysteria2/protocol.rs:131-134 | the lossy form of any bytes is UTF-8, and UTF-8 is left as it is |
| Text.CutShows | src/hysteria2/protocol.rs:103 | UTF-8 cut at any byte shows all whole characters before the cut and one replacement character for a split one |
| Varint.Encode | src/varint.rs:22-46 | succeeds exactly below 2^62, with the length class of the value |
| Varint.EncodeInto | src/varint.rs:22-46 | the buffer filled from its end, with the tag in its first byte, is the encoding |
| Varint.FillFromEnd | src/varint.rs:32-37 | the reverse fill leaves the big-endian bytes of the value |
| Varint.DecodeSliceLoop | src/hysteria2/packet.rs:301-316 | the accumulator loop computes the decoded value and its width, with both error cases |
| Varint.DecodersAgree | src/hysteria2/packet.rs:301-316 | the stream and slice decoders accept the same inputs and agree on value and remainder |
| Varint.RoundTrip | src/varint.rs:7-46 | for every value below 2^62 and any suffix, both decoders return the value and leave exactly the suffix |
| Varint.DecodesExactly | src/hysteria2/packet.rs:301-316 | the slice decoder takes exactly the variable integers of section 16 of RFC 9000, in shortest form or not |
| Varint.ReadsExactly | src/varint.rs:7-15 | so does the stream reader, and it leaves what follows |
| Varint.EncodingIsShortest | src/varint.rs:26-31 | no byte string that decodes to a value is shorter than its encoding |
| UdpFrames.AppendMessage | src/hysteria2/packet.rs:280-299 | field-by-field appends produce the frame |
| UdpFrames.FrameFields | src/hysteria2/packet.rs:249-299 | a decoded frame has every field and the exact payload; only the address text goes through the parser, and its error is the result's error |
| UdpFrames.MessageRoundTrip | src/hysteria2/packet.rs:249-299 | decode after encode is the identity if and only if the host is stable |
| UdpFrames.DecodesExactly | src/hysteria2/packet.rs:249-278 | the decoder takes exactly the frames: header, an address of 1 to 2048 bytes behind its length, payload |
| TcpFrames.BlockRoundTrip | src/hysteria2/protocol.rs:78-89 | a length-prefixed block is read back, or refused by its length alone, whatever follows |
| TcpFrames.ReadsBlock | src/hysteria2/protocol.rs:78-89 | a block is read exactly where one stands that is not too long |
| TcpFrames.RequestRoundTrip | src/hysteria2/protocol.rs:53-93 | inside a stream, for any padding, the request reader returns the written address and leaves exactly what follows |
| TcpFrames.RequestExactly | src/hysteria2/protocol.rs:71-93 | the request reader takes exactly the requests of kind 0x401 with an address of 1 to 2048 bytes that parses and a padding of at most 4096 |
| TcpFrames.ResponseRoundTrip | src/hysteria2/protocol.rs:95-136 | the response reader reports success exactly when the writer was given Ok; an error message of any length arrives as readable text, cut to 2048 bytes and otherwise unchanged where the cut leaves UTF-8; exactly the frame is consumed |
| TcpFrames.ResponseExactly | src/hysteria2/protocol.rs:114-136 | the response reader takes exactly the responses; status 0 alone means success |
| TcpFrames.ErrorTextShown | src/hysteria2/protocol.rs:95-136 | exactly what a client shows of an error message of any length |
| TcpFrames.LastLetterIsLost | src/hysteria2/protocol.rs:103 | a concrete message whose last letter is replaced |
| TcpFrames.ByteStream.ReadVarint | src/varint.rs:7-15 | the byte-by-byte reader computes the specified value and leaves the specified remainder |
| TcpFrames.ByteStream.ReadTcpRequest | src/hysteria2/protocol.rs:71-93 | reads what the request specification says, with the same errors, and consumes exactly that |
| TcpFrames.ByteStream.ReadTcpResponse | src/hysteria2/protocol.rs:114-136 | reads what the response specification says, with the same errors and the same error text, and consumes exactly that |
| TcpFrames.ByteStream.WriteTcpRequest | src/hysteria2/protocol.rs:53-69 | appends exactly the request frame, or nothing when the address is too long |
| TcpFrames.ByteStream.WriteTcpResponse | src/hysteria2/protocol.rs:95-112 | appends exactly the response frame |
| Reassembly.AbsorbCounts | src/hysteria2/packet.rs:67-92 | the counter equals the number of filled slots, so a full count means that every slot can be opened |
| Reassembly.Step | src/hysteria2/packet.rs:67-115 | a set that stays stored has 2 to 255 slots, an exact count and at least one empty slot; an answer is given only when it is removed |
| Reassembly.Defragger.constructor | src/hysteria2/packet.rs:45-48 | starts empty and valid |
| Reassembly.Defragger.Admit | src/hysteria2/packet.rs:62-88 | sweeps, then finds, makes or resets the set of the packet id and fills the slot; nothing else changes |
| Reassembly.Defragger.FeedMessage | src/hysteria2/packet.rs:51-115 | keeps the invariant and computes the specified new map and answer; the removal and the slots that the source unwraps are always there |
| Reassembly.Join | src/hysteria2/packet.rs:97-114 | the two loops refuse more than 4096 bytes and otherwise concatenate in index order |
| ReassemblyRuns.AgreeStep | src/hysteria2/packet.rs:62-92 | one message keeps the shared map and the one-id reference in agreement |
| ReassemblyRuns.Independence | src/hysteria2/packet.rs:51-115 | the shared map with its global sweep refines independent per-id reassemblers that look at their own timer only: same answers for every trace and every non-decreasing clock |
| ReassemblyRuns.OtherIdsDoNotMatter | src/hysteria2/packet.rs:51-115 | traffic on other packet ids never changes an answer |
| ReassemblyRuns.StoredProvenance | src/hysteria2/packet.rs:62-92 | every stored slot was filled by the first copy of its index since the set began; all fragments of the id since then announced the same total and none came more than 10 s after the one before; the destination is that of the first |
| ReassemblyRuns.LastAnswer | src/hysteria2/packet.rs:89-115 | a fragment is answered with nothing until it completes its set, and then with the whole set or the size error |
| ReassemblyRuns.DeliveryProvenance | src/hysteria2/packet.rs:62-115 | for arbitrary input, a delivered packet is the index-ordered concatenation of distinct earlier messages, one per index and the first copy of it, at most 4096 bytes, bound for the destination of the first; consecutive fragments of the id since then are at most 10 s apart |
| ReassemblyRuns.StaleSetsAreGone | src/hysteria2/packet.rs:63-64 | a fragment more than 10 s after the one before it under its id is answered and stored as at an empty reassembler |
| ReassemblyEpochs.OwnEpochs | src/hysteria2/packet.rs:62-115 | one id holds and answers as its epochs say: fragments that follow within 10 s, with the same total, until all indices are there |
| ReassemblyEpochs.ReassemblyExact | src/hysteria2/packet.rs:51-115 | for every trace and non-decreasing clock, exactly when a packet comes out and which, said without the stored sets |
| ReassemblyEpochs.WholeMessages | src/hysteria2/packet.rs:52-60 | an unfragmented message is a packet of its own and an index beyond the total is nothing; stored sets stay |
| ReassemblyEpochs.OnlyFreshSetsStay | src/hysteria2/packet.rs:63-64 | after a fragment no set older than 10 s is stored under any id |
| ReassemblyRuns.Conservation | src/hysteria2/packet.rs:62-115 | deliveries of a packet, plus one if a set still holds the index, never exceed the copies fed of that index |
| ReassemblyRuns.Identity | src/hysteria2/packet.rs:51-115 | fragments in any order, duplicated and interleaved with other ids, at most 10 s apart and with no live leftover, yield nothing until the last missing one and then exactly the packet, or the error that it is too long |
| ReassemblyRuns.NothingElseArrives | src/hysteria2/packet.rs:51-115 | fragments of packets with different ids never mix, under loss, repetition, reordering and any delay: an arrival yields nothing or its own packet, and fails only if that packet is too long |
| Fragmentation.Chunks | src/hysteria2/packet.rs:184 | non-empty pieces of at most the given size that concatenate to the payload |
| Fragmentation.ChunkCount | src/hysteria2/packet.rs:180-184 | the number of pieces is the ceiling division announced in every frame |
| Fragmentation.PacketIdsCollide | src/hysteria2/packet.rs:157-161 | fewer than 65535 sends apart, ids are equal if and only if the two sends are adjacent at the counter wrap |
| Fragmentation.ConsecutiveIds | src/hysteria2/packet.rs:157-161 | up to 65535 consecutive sends have pairwise different ids if and only if they do not straddle the wrap |
| Fragmentation.BudgetExactly | src/hysteria2/packet.rs:168-173 | the budget is the most that is at most 1197 and three below the datagram size, if that is known |
| Fragmentation.PlanSound | src/hysteria2/packet.rs:162-211 | a send that is not refused produces frames numbered 0..total-1 with total at most 255, each within the budget, with payloads that concatenate to the input |
| Fragmentation.FramesFitThePath | src/hysteria2/packet.rs:168-173 | every frame has at most 1197 bytes and leaves three bytes of the path's datagram size |
| Fragmentation.PlanAccepts | src/hysteria2/packet.rs:152-182 | exactly which packets are refused; once 17 payload bytes fit in a frame the fragment count never is the reason |
| Fragmentation.PacketSender.constructor | src/hysteria2/packet.rs:130-142 | a session starts with counter 0 and nothing sent |
| Fragmentation.PacketSender.Send | src/hysteria2/packet.rs:151-214 | hands QUIC exactly the planned frames, or those before the first one it refuses, or returns the planned error; the counter moves for every packet that passes the size test |
| Fragmentation.PacketSender.SendNumbered | src/hysteria2/packet.rs:162-211 | the same once the id is drawn, for each refusal, for the empty payload and for a datagram QUIC refuses |
| Fragmentation.PacketSender.Emit | src/hysteria2/packet.rs:184-197 | the chunk loop emits one numbered frame per chunk, in order, although the index is cut to a byte, and stops at the first refused datagram |
| Fragmentation.SingleFrameDelivers | src/hysteria2/packet.rs:52-57 | a packet sent in one frame is delivered whole by that frame, stored fragments untouched |
| Fragmentation.SendThenReassemble | src/hysteria2/packet.rs:51-214 | planning, encoding, decoding and reassembling compose to the identity over reordered, repeated and interleaved arrivals |
| Fragmentation.InOrderDelivers | src/hysteria2/packet.rs:51-214 | the same for every packet whose frames arrive in order at a fresh reassembler |
| Fragmentation.OnlySentPacketsArrive | src/hysteria2/packet.rs:51-214 | frames of sends with different ids, however lost, repeated, reordered or delayed, never make the reassembler fail, and yield only packets that were sent, each by its own frames |
| Fragmentation.ConsecutiveSendsArrive | src/hysteria2/packet.rs:51-214 | the same for up to 65535 consecutive sends clear of the counter wrap, whose ids the counter gives |
| Fragmentation.SharedIdMixes | src/hysteria2/packet.rs:67-115 | two packets to one destination that share an id and a fragment count mix into one that nobody sent |
| Fragmentation.WrapBreaksReassembly | src/hysteria2/packet.rs:157-161 | two concrete sends at the counter wrap whose fragments make the reassembler fail |
| Sessions.UdpSessions.constructor | src/hysteria2/server.rs:387 | an empty table |
| Sessions.UdpSessions.HandleDatagram | src/hysteria2/server.rs:404-434 | one pass of the loop computes the specified table: decode, upgrade or announce and insert, then input |
| SessionProofs.RunsAreSafe | src/hysteria2/server.rs:387-434 | every run of datagrams, releases and receives keeps the table, log, reassembly and queue invariants |
| SessionProofs.OneLiveSessionPerId | src/hysteria2/server.rs:406-432 | never two live sessions with one id |
| SessionProofs.AnnouncedWhenNoneLive | src/hysteria2/server.rs:406-432 | a session is announced if and only if none with that id is live |
| SessionProofs.DatagramEffect | src/hysteria2/server.rs:404-434 | a message reaches exactly one session, live and with its id; every other session stays as it was |
| SessionProofs.ReleasedIsFrozen | src/hysteria2/server.rs:406-411 | a released session never changes or receives again, so its fragments contribute to nothing later |
| SessionProofs.ReceivedComesFromOwnMessages | src/hysteria2/packet.rs:144-149 | what `recv` returned is an in-order subsequence of what a fresh reassembler makes of this session's own messages, and nothing is dropped while at most 64 were reassembled |
| SessionProofs.QueueExactly | src/hysteria2/packet.rs:144-149 | in every run, a packet that a datagram completes goes to the end of the queue if and only if fewer than 64 are waiting |
| SessionProofs.RecvTakesTheOldest | src/hysteria2/packet.rs:216-223 | `recv` takes the oldest waiting packet of a live session and touches no other session |
| SessionProofs.ReleaseEndsTheSession | src/hysteria2/server.rs:406-411 | a release ends that session and no other, so that its id is no longer found |
| SessionProofs.RouterRefuses | src/hysteria2/server.rs:416-425 | a new session that the router does not take ends the loop and changes nothing else |
| SessionHealth.FailsWhenTooLong | src/hysteria2/packet.rs:97-106 | feeding a message fails if and only if it completes a set of more than 4096 bytes |
| SessionHealth.LoopStaysOpen | src/hysteria2/server.rs:404-434 | a datagram leaves the loop open if and only if it decodes, its session is live or the router takes a new one, and it does not complete a packet of more than 4096 bytes |
| SessionHealth.HonestPeersKeepTheLoopOpen | src/hysteria2/server.rs:404-434 | datagrams produced by sends with different ids in each session, to any host but a bare pair of brackets, never end the loop, in any order, with sessions coming and going |
| SessionHealth.FrameIsFragment | src/hysteria2/packet.rs:249-278 | a frame that `send` produced decodes if and only if its host is not a bare pair of brackets, and is then a fragment of its send |
| SessionHealth.BareBracketsEndTheLoop | src/hysteria2/server.rs:405 | every frame of a send to a bare pair of brackets ends the loop, whenever it arrives |
| SessionHealth.BareBracketsAreSent | src/hysteria2/packet.rs:162-182 | such a send is not refused |
| SessionHealth.LoopOpenExactly | src/hysteria2/server.rs:404-434 | no traffic of sends with different ids ends the loop if and only if none of them goes to a bare pair of brackets |
| SessionHealth.WrapCanEndTheLoop | src/hysteria2/server.rs:433 | with a shared id it can end: four datagrams of the two sends at the counter wrap |
| SessionHealth.WrapSendsAreGood | src/hysteria2/packet.rs:152-182 | neither of these two sends is refused |
| Negotiation.HeaderRoundTrip | src/hysteria2/protocol.rs:25-41 | every header value is parsed back from its text |
| Negotiation.OtherHeaders | src/hysteria2/protocol.rs:25-34 | a missing or unreadable header, or one that is no number, means a rate of 0; what spells a number means that rate; `auto` alone means automatic |
| Negotiation.EndsAgree | src/hysteria2/server.rs:320-357 | for all configurations of both ends, when the client is refused, which ends run Brutal and at which rates |
| Windows.WindowExact | src/transport.rs:76-82 | the saturating computation equals the bandwidth-delay formula over unbounded integers |
| Windows.WindowMonotone | src/transport.rs:76-82 | monotone in rate, round-trip time and minimum |
| Windows.WindowsExact | src/transport.rs:57-74 | both windows exactly, over unbounded integers |
| Windows.WindowBounds | src/transport.rs:57-74 | the receive window stays within 2^62-1 and below none of its floors unless the cap is; the send window is below none of its own |
| Windows.ConnectionWindows.Update | src/transport.rs:57-74 | sets both windows to the values that `WindowsExact` describes |
| SquicWire.AppendAddress | src/shadowquic/mod.rs:1179-1202 | pushing kind, host and port produces the encoding, with the same refusals |
| SquicWire.AddressRoundTrip | src/shadowquic/mod.rs:1179-1230 | decoding an encoded address, whatever follows, gives its canonical form and exactly the rest |
| SquicWire.EncodesExactly | src/shadowquic/mod.rs:1179-1202 | every IP literal and every host of 1 to 255 ASCII bytes can be encoded, and no other |
| SquicWire.DecodesExactly | src/shadowquic/mod.rs:1204-1230 | the decoder takes exactly an IP address, spelled as it prints, or a UTF-8 domain of 1 to 255 bytes, each with its port |
| SquicWire.AnnouncementRoundTrip | src/shadowquic/mod.rs:1115-1118 | the same for an announcement with its id |
| SquicWire.RecordRoundTrip | src/shadowquic/mod.rs:1157-1160 | the same for a length-prefixed payload |
| SquicOutbound.Endpoint.constructor | src/shadowquic/mod.rs:892-893 | a fresh endpoint starts at id 0 |
| SquicOutbound.Endpoint.SendPacket | src/shadowquic/mod.rs:795-839 | the statement-by-statement `send`, with its wrapping counter, computes the specified state and result in every failure case |
| SquicOutbound.Endpoint.SendInContext | src/shadowquic/mod.rs:816-837 | the payload half, in both modes |
| SquicOutboundProofs.SendOk | src/shadowquic/mod.rs:795-839 | every send keeps the sender's invariant: ids given out once, announcements and records exactly what was written, streams carrying exactly what was accepted |
| SquicSending.SendSucceeds | src/shadowquic/mod.rs:795-839 | a send succeeds if and only if its destination has or gets a context, QUIC takes the payload, and in stream mode it has at most 65535 bytes |
| SquicSending.SendExactly | src/shadowquic/mod.rs:795-839 | a send that succeeds adds exactly its packet, once, under an id announced for its destination; one that fails adds nothing that carries a packet |
| SquicRegistry.IncomingUdpRegistry.constructor | src/shadowquic/mod.rs:723-728 | starts empty and open |
| SquicRegistry.IncomingUdpRegistry.RegisterRoute | src/shadowquic/mod.rs:731-745 | inserts the route, then notifies |
| SquicRegistry.IncomingUdpRegistry.Remove | src/shadowquic/mod.rs:747-752 | the loop removes exactly the listed ids |
| SquicRegistry.IncomingUdpRegistry.Close | src/shadowquic/mod.rs:767-770 | sets the flag, then notifies; routes stay |
| SquicIntegrity.NextAnnouncement | src/shadowquic/mod.rs:1114-1121 | a control task behind k announcements decodes exactly the next one, or finds nothing |
| SquicIntegrity.NextRecord | src/shadowquic/mod.rs:1156-1169 | a stream task behind k payloads decodes exactly the next one, or finds nothing |
| SquicIntegrity.ReadStep | src/shadowquic/mod.rs:1114-1121 | reading an announcement keeps the invariant: the inserted route is the one its id was given out for |
| SquicIntegrity.AdvanceStep | src/shadowquic/mod.rs:984-1170 | every move of every task keeps the invariant |
| SquicIntegrity.ApplyStep | src/shadowquic/mod.rs:795-1170 | every step within the id bound keeps the invariant |
| SquicDelivery.RunsAreSound | src/shadowquic/mod.rs:795-1170 | every run that gives out at most 65536 ids keeps the invariant |
| SquicDelivery.DeliveryIntegrity | src/shadowquic/mod.rs:1130-1170 | in every such run, a packet queued to an association carries payload and canonical destination of a packet sent on the matching association |
| SquicDelivery.AcceptedIsOnTheWire | src/shadowquic/mod.rs:816-837 | conversely, every accepted packet is on the wire under an id announced for its destination on its association |
| SquicDelivery.RoutedPayloadIsQueued | src/shadowquic/mod.rs:1130-1147 | a datagram task that finds its id routed queues exactly its payload to the association the id was given to |
| SquicDelivery.StreamPrefix | src/shadowquic/mod.rs:1149-1170 | each stream task has queued, in order and with boundaries, a prefix of what was accepted for that stream's association and destination |
| SquicProgress.StreamGoesOn | src/shadowquic/mod.rs:1156-1169 | a move of a routed stream task queues exactly the next packet accepted for its association and destination |
| SquicProgress.StreamIsDrained | src/shadowquic/mod.rs:1156-1169 | after at least as many moves as packets are left, everything that was accepted for it is queued, in order |
| SquicProgress.AnnouncementBecomesRoute | src/shadowquic/mod.rs:1114-1121 | two moves of a control task register the next announcement: its id leads to its association under its canonical destination |
| SquicProgress.TeardownRemoves | src/shadowquic/mod.rs:1126 | a control task that fails takes exactly its routes with it |
| SquicProgress.AcceptedAsRequested | src/shadowquic/mod.rs:1027-1058 | an association is accepted in the mode and to the canonical destination that its sender asked for |
| SquicProgress.GateAnswers | src/shadowquic/mod.rs:560-576 | how the gate answers: JLS passes, a known credential passes under its name, a refused one ends the task, none yet waits |
| SquicProgress.CredentialDecides | src/shadowquic/mod.rs:996-1008 | a credential sets the cell to the name stored for it, or to a refusal |
| SquicProgress.StreamIsReported | src/shadowquic/mod.rs:1010-1026 | a stream let through is reported under the JLS user or the name of the credential |
| SquicProgress.ExtensionIsAnswered | src/shadowquic/mod.rs:1061-1064 | an extension request let through is answered |
| SquicProgress.RequestsGetTasks | src/shadowquic/mod.rs:898-925 | every request gets its own task while the connection is open, and none afterwards |
| SquicProgress.TrafficGetsTasks | src/shadowquic/mod.rs:928-963 | every datagram, and every stream once, gets its own task |
| SquicProgress.CloseTakesEffect | src/shadowquic/mod.rs:966 | `close` sets the flag, notifies, and changes nothing else |
| SquicDelivery.StreamModeIsFifo | src/shadowquic/mod.rs:803-836 | an association receives for a destination a prefix of what was accepted for it, if the association uses one spelling of it |
| SquicDelivery.OversizeLeavesStreamsAlone | src/shadowquic/mod.rs:829-836 | a packet over 65535 bytes is refused and disturbs no stream, datagram or accepted packet |
| SquicSchedules.ClosedGateIsQuiet | src/shadowquic/mod.rs:996-1008 | a Sunny server that knows no user never queues a packet |
| SquicSpellings.TwoSpellingsReorder | src/shadowquic/mod.rs:797-814 | with a second spelling of the destination there is a run, at every receiver that lets anything through, that delivers the later of two packets first |
| SquicSpellings.FifoExactly | src/shadowquic/mod.rs:797-836 | for clients and servers alike, what arrives for a destination is in all runs a prefix of what was sent to it in any spelling, if and only if not: the gate can open, the destination can be encoded and has a second spelling |
| SquicSpellings.SpellingsExist | src/shadowquic/mod.rs:1182-1190 | the failing case exists: a lawful notation and two concrete spellings for which order fails |
| SquicBound.MisdeliveryPastTheBound | src/shadowquic/mod.rs:798 | with 65537 ids there is a run, at every receiver that lets anything through, in which an association receives a payload never sent on it; all addresses are text |
| SquicBound.IntegrityExactly | src/shadowquic/mod.rs:795-839 | runs that give out at most n ids never misdeliver if and only if n is at most 65536 or nothing gets through the gate |
| SquicOwnership.RegisteredDisjoint | src/shadowquic/mod.rs:1107-1128 | no two control streams hold the same id |
| SquicOwnership.RoutesAreOwned | src/shadowquic/mod.rs:731-752 | in every run the routed ids are the disjoint union of what the control streams registered, each leading to its own association's queue |
| SquicOwnership.ClosingRemovesOwnIds | src/shadowquic/mod.rs:1126 | closing a control stream removes exactly its own ids and leaves every other route as it was |
| SquicWakeups.NoLostWakeup | src/shadowquic/mod.rs:731-770 | in every reachable state, whatever the peer writes, a parked, not yet notified waiter has an unrouted id and an open registry, except while a `register` of that id or the `close` is before its notify |
| SquicWakeups.ClosedStep | src/shadowquic/mod.rs:754-770 | after `close`, each own move brings a waiter closer to returning and no other move sets it back |
| SquicWakeups.WaitersReturnAfterClose | src/shadowquic/mod.rs:754-770 | in every run, whatever the peer writes, after `close` every waiter returns within one further pass, under every schedule |
| SquicWakeups.WaitersAreAwake | src/shadowquic/mod.rs:731-765 | in every run, whatever the peer writes, a waiter for a routed id whose notify is done is not parked on a notify still to come |
| SquicWakeups.WaitersReturnAfterRegister | src/shadowquic/mod.rs:731-765 | such a waiter returns with that route within one further pass, under every schedule that leaves the route in place |
| SquicGate.GateHolds | src/shadowquic/mod.rs:984-1064 | on a Sunny connection, whatever bytes the peer writes, every accepted stream, association, queued packet and extension reply comes after a credential of the table captured at accept, and a reported user is the name stored for such a credential |
| SquicGate.WaitTerminates | src/shadowquic/mod.rs:560-576 | the wait makes at most two passes and one timed wait; it moves on or is waiting before any result; with a result it is never stuck |
| SquicClient.OneAtATime | src/shadowquic/mod.rs:578-607 | in every run of the client's loop at most one datagram is pending |
| SquicClient.StalledWhileUnrouted | src/shadowquic/mod.rs:581-592 | while its id is not routed, a waiting datagram keeps every later datagram and stream from being accepted |
| SquicClient.GoingOnNeedsARoute | src/shadowquic/mod.rs:581-603 | if anything more is accepted, the id was routed in between |
| SquicClient.StalledForGood | src/shadowquic/mod.rs:581-592 | after the control stream of its id has ended, the stall never ends within the id bound |
| SquicClient.StallIsReachable | src/shadowquic/mod.rs:1126 | a run in which a client stalls for good |
| SquicClient.StallExactly | src/shadowquic/mod.rs:578-607 | the stall lasts in all runs of the loop if and only if the control stream of the id has ended and left no route; otherwise some run delivers the datagram and takes another |

## Left out

- Endpoint binding, socket tuning, TLS, certificates, JLS, QUIC and HTTP/3 themselves, the masquerade handler: foreign libraries and I/O.
- Congestion controllers (`src/congestion.rs`) and metrics: only the choice between BBR and Brutal with its rate is modelled.
- Stream wrappers (`src/hysteria2/stream.rs`, the wrapper in `src/shadowquic/mod.rs`) and `src/sunnyquic/mod.rs`: forwarding only.
- The statistics layout of `handle_extension`: a fixed layout with no hard property; the gate before it is modelled, and a refused extension counts as replied.
- The activity timer and `wait_inactive`: they change no packet.
- Configuration updates of running servers: a connection keeps what it captured at accept.
- TcpFrames.WriteRequest: padding is any byte string of a permitted length, which includes the alphanumeric padding that the source draws.
- SquicMachine.Step: queue capacity and back-pressure are not modelled; a full queue only delays a task, and a closed queue is a `Fail` step.
- Sessions.React: `recv` ending because the connection closed is not modelled.
